/** The index arithmetic of levels 3 to 8: which accumulators a thread owns and which vectors of
    each tile it copies. */
module Levels {
  import opened Arithmetic
  import opened Machine
  import opened Kernels
  import opened KernelRaces

  type Pos = n: nat | n > 0 witness 1

  function Quot(a: int, b: int): int { if b == 0 then 0 else a / b }
  function Rem(a: int, b: int): int { if b == 0 then 0 else a % b }

  // ----- copying a tile: a strided loop, or unrolled slots

  /** What the copy loops of a level depend on. */
  datatype Copying = Copying(BM: Pos, BN: Pos, BK: Pos, width: Pos, threads: Pos) {
    predicate Ok() { BK % width == 0 && BN % width == 0 }

    /** Vectors per row of the tile as the copy loop walks it. */
    function PerRow(side: Side): nat { if side == A then BK / width else BN / width }

    function Total(side: Side): nat { if side == A then BM * BK / width else BK * BN / width }

    /** Linear vector index l unflattened by div and rem. */
    function VecAt(side: Side, l: int): Vec {
      var row, col := Quot(l, PerRow(side)), Rem(l, PerRow(side)) * width;
      if side == A then Vec(col, row) else Vec(row, col)
    }

    /** `for l = tid; l < total; l += threads`. */
    function Strided(side: Side, l: nat): seq<Vec>
      decreases Total(side) - l
    {
      if l >= Total(side) then [] else [VecAt(side, l)] + Strided(side, l + threads)
    }

    function SlotCount(side: Side): nat { CeilDiv(Total(side), threads) }

    /** Slot s of the unrolled prefetch; the tail guard is emitted only where it can fail. */
    function SlotAt(side: Side, t: nat, s: nat): Slot {
      Slot(VecAt(side, t + s * threads), (s + 1) * threads > Total(side) ==> t + s * threads < Total(side))
    }

    function Slots(side: Side, t: nat): seq<Slot> {
      seq(SlotCount(side), s requires 0 <= s => SlotAt(side, t, s))
    }

    predicate Aligned(side: Side, v: Vec) {
      match side
      case A => 0 <= v.k && v.k + width <= BK && v.k % width == 0 && 0 <= v.x < BM
      case B => 0 <= v.k < BK && 0 <= v.x && v.x + width <= BN && v.x % width == 0
    }

    function IndexOf(side: Side, v: Vec): int {
      if side == A then v.x * PerRow(side) + v.k / width else v.k * PerRow(side) + v.x / width
    }
  }

  lemma Rows(c: Copying, side: Side)
    requires c.Ok()
    ensures c.PerRow(side) > 0 && c.PerRow(side) * c.width == (if side == A then c.BK else c.BN)
    ensures c.Total(side) == (if side == A then c.BM else c.BK) * c.PerRow(side)
  {
    var n, m := if side == A then c.BM else c.BK, if side == A then c.BK else c.BN;
    var d := m / c.width;
    assert m == d * c.width;
    if d <= 0 { MulMono(d, 0, c.width); }
    assert n * m == (n * d) * c.width;
    DivModUnique(n * d, 0, c.width);
  }

  lemma SplitIndex(l: int, n: nat, p: nat, w: nat)
    requires 0 <= l < n * p && p > 0 && w > 0
    ensures 0 <= l / p < n && 0 <= l % p * w && l % p * w + w <= p * w
    ensures (l % p * w) % w == 0 && (l % p * w) / w == l % p && l / p * p + l % p == l
  {
    DivBounds(l, n, p);
    DivModUnique(l % p, 0, w);
    MulMono(0, l % p, w);
    MulMono(l % p + 1, p, w);
  }

  lemma JoinIndex(row: int, col: int, n: nat, p: nat, w: nat)
    requires 0 <= row < n && p > 0 && w > 0 && 0 <= col && col + w <= p * w && col % w == 0
    ensures 0 <= row * p + col / w < n * p
    ensures (row * p + col / w) / p == row && (row * p + col / w) % p * w == col
  {
    var d := col / w;
    assert col == d * w;
    if d >= p { MulMono(p, d, w); }
    DivModUnique(row, d, p);
    MulMono(row + 1, n, p);
    MulMono(0, row, p);
  }

  /** Unflattening is a bijection from the linear indices onto the aligned vectors of the tile. */
  lemma Unflatten(c: Copying, side: Side, l: int)
    requires c.Ok() && 0 <= l < c.Total(side)
    ensures c.Aligned(side, c.VecAt(side, l)) && c.IndexOf(side, c.VecAt(side, l)) == l
  {
    Rows(c, side);
    SplitIndex(l, if side == A then c.BM else c.BK, c.PerRow(side), c.width);
  }

  lemma Flatten(c: Copying, side: Side, v: Vec)
    requires c.Ok() && c.Aligned(side, v)
    ensures 0 <= c.IndexOf(side, v) < c.Total(side) && c.VecAt(side, c.IndexOf(side, v)) == v
  {
    Rows(c, side);
    match side
    case A => JoinIndex(v.x, v.k, c.BM, c.PerRow(A), c.width);
    case B => JoinIndex(v.k, v.x, c.BK, c.PerRow(B), c.width);
  }

  lemma {:induction false} StridedIn(c: Copying, side: Side, l: nat, v: Vec)
    ensures v in c.Strided(side, l) <==>
      exists n: nat :: l + n * c.threads < c.Total(side) && v == c.VecAt(side, l + n * c.threads)
    decreases c.Total(side) - l
  {
    if l < c.Total(side) {
      StridedIn(c, side, l + c.threads, v);
      if n: nat :| l + n * c.threads < c.Total(side) && v == c.VecAt(side, l + n * c.threads) {
        if n > 0 {
          assert l + c.threads + (n - 1) * c.threads == l + n * c.threads;
        }
      }
      if n: nat :| l + c.threads + n * c.threads < c.Total(side) && v == c.VecAt(side, l + c.threads + n * c.threads) {
        assert l + c.threads + n * c.threads == l + (n + 1) * c.threads;
      }
      if v == c.VecAt(side, l) {
        assert l + 0 * c.threads == l;
      }
    } else {
      forall n: nat
        ensures l + n * c.threads >= c.Total(side)
      {
        MulMono(0, n, c.threads);
      }
    }
  }

  lemma {:induction false} StridedAt(c: Copying, side: Side, l: nat, n: nat)
    requires n < |c.Strided(side, l)|
    ensures l + n * c.threads < c.Total(side) && c.Strided(side, l)[n] == c.VecAt(side, l + n * c.threads)
    decreases n
  {
    if n > 0 {
      StridedAt(c, side, l + c.threads, n - 1);
      assert l + c.threads + (n - 1) * c.threads == l + n * c.threads;
    }
  }

  /** Across the block no vector is copied twice. */
  lemma CopiedOnce(c: Copying, side: Side, t: nat, n: nat, t': nat, n': nat)
    requires c.Ok() && t < c.threads && t' < c.threads && n < |c.Strided(side, t)| && n' < |c.Strided(side, t')|
    requires c.Strided(side, t)[n] == c.Strided(side, t')[n']
    ensures t == t' && n == n'
  {
    StridedAt(c, side, t, n);
    StridedAt(c, side, t', n');
    MulMono(0, n, c.threads);
    MulMono(0, n', c.threads);
    Unflatten(c, side, t + n * c.threads);
    Unflatten(c, side, t' + n' * c.threads);
    DivModUnique(n, t, c.threads);
    DivModUnique(n', t', c.threads);
  }

  /** Thread t copies v exactly when it is the thread of v's linear index. */
  lemma CopiedBy(c: Copying, side: Side, t: nat, v: Vec)
    requires c.Ok() && t < c.threads
    ensures v in c.Strided(side, t) <==> c.Aligned(side, v) && c.IndexOf(side, v) % c.threads == t
  {
    hide Copying.VecAt, Copying.IndexOf, Copying.Total, Copying.Aligned;
    StridedIn(c, side, t, v);
    if n: nat :| t + n * c.threads < c.Total(side) && v == c.VecAt(side, t + n * c.threads) {
      MulMono(0, n, c.threads);
      Unflatten(c, side, t + n * c.threads);
      DivModUnique(n, t, c.threads);
    }
    if c.Aligned(side, v) && c.IndexOf(side, v) % c.threads == t {
      Flatten(c, side, v);
      StepsTo(c.IndexOf(side, v), c.threads, t);
    }
  }

  lemma StepsTo(l: nat, d: Pos, t: nat)
    requires l % d == t
    ensures l / d >= 0 && l == t + l / d * d
  {}

  /** The unrolled slots stage exactly the vectors the strided loop copies. */
  lemma SlotsAsStrided(c: Copying, side: Side, t: nat, v: Vec)
    requires c.Ok() && t < c.threads
    ensures v in c.Strided(side, t) <==> Slot(v, true) in c.Slots(side, t)
  {
    StridedIn(c, side, t, v);
    CeilDivCovers(c.Total(side), c.threads);
    if n: nat :| t + n * c.threads < c.Total(side) && v == c.VecAt(side, t + n * c.threads) {
      if n >= c.SlotCount(side) { MulMono(c.SlotCount(side), n, c.threads); }
      assert c.Slots(side, t)[n] == Slot(v, true);
    }
    if Slot(v, true) in c.Slots(side, t) {
      var s :| 0 <= s < |c.Slots(side, t)| && c.Slots(side, t)[s] == Slot(v, true);
      assert c.SlotAt(side, t, s) == Slot(v, true);
      assert (s + 1) * c.threads == s * c.threads + c.threads;
      assert t + s * c.threads < c.Total(side) && v == c.VecAt(side, t + s * c.threads);
    }
  }

  lemma CeilDivCovers(n: nat, d: nat)
    requires d > 0
    ensures CeilDiv(n, d) * d >= n
  {
    assert n + d - 1 == CeilDiv(n, d) * d + (n + d - 1) % d;
  }

  /** A tiling whose copies follow `Copying` fills every tile, and its slots agree. */
  ghost predicate CopiesWith(tl: Tiling, c: Copying) {
    && c.Ok() && tl.Sane()
    && tl.BM == c.BM && tl.BN == c.BN && tl.BK == c.BK && tl.width == c.width && tl.threads == c.threads
    && (forall side, t: nat :: t < tl.threads ==>
      tl.vecs(side, t) == c.Strided(side, t) && tl.slots(side, t) == c.Slots(side, t))
  }

  lemma CopiedExactlyBy(tl: Tiling, c: Copying, side: Side, t: nat, v: Vec)
    requires CopiesWith(tl, c) && t < tl.threads
    ensures v in tl.vecs(side, t) <==> tl.Aligned(side, v) && c.IndexOf(side, v) % c.threads == t
    ensures v in tl.vecs(side, t) <==> Slot(v, true) in tl.slots(side, t)
  {
    CopiedBy(c, side, t, v);
    SlotsAsStrided(c, side, t, v);
  }

  lemma CopierOf(tl: Tiling, c: Copying, side: Side, v: Vec)
    requires CopiesWith(tl, c) && tl.Aligned(side, v)
    ensures exists t :: 0 <= t < tl.threads && v in tl.vecs(side, t)
  {
    Flatten(c, side, v);
    var t := c.IndexOf(side, v) % c.threads;
    CopiedExactlyBy(tl, c, side, t, v);
  }

  lemma OneCopier(tl: Tiling, c: Copying, side: Side, t: nat, t': nat, v: Vec)
    requires CopiesWith(tl, c) && t < tl.threads && t' < tl.threads && v in tl.vecs(side, t) && v in tl.vecs(side, t')
    ensures t == t'
  {
    CopiedExactlyBy(tl, c, side, t, v);
    CopiedExactlyBy(tl, c, side, t', v);
  }

  lemma CopyingFills(tl: Tiling, c: Copying)
    requires CopiesWith(tl, c)
    ensures tl.Fills() && tl.Stages()
  {
    hide Copying.IndexOf, Copying.Strided, Copying.Slots, Copying.Aligned, Tiling.Aligned;
    forall side, t, v | 0 <= t < tl.threads && v in tl.vecs(side, t)
      ensures tl.Aligned(side, v)
    {
      CopiedExactlyBy(tl, c, side, t, v);
    }
    forall side, t, t', v | 0 <= t < tl.threads && 0 <= t' < tl.threads && v in tl.vecs(side, t)
      && v in tl.vecs(side, t')
      ensures t == t'
    {
      OneCopier(tl, c, side, t, t', v);
    }
    forall side, v | tl.Aligned(side, v)
      ensures exists t :: 0 <= t < tl.threads && v in tl.vecs(side, t)
    {
      CopierOf(tl, c, side, v);
    }
    assert tl.Fills();
    forall side, t, v | 0 <= t < tl.threads
      ensures v in tl.vecs(side, t) <==> Slot(v, true) in tl.slots(side, t)
    {
      CopiedExactlyBy(tl, c, side, t, v);
    }
  }

  // ----- owning a place in the block tile

  /** Row r and column c of the block tile are accumulator (i, j) of thread t. */
  ghost predicate Places(tl: Tiling, t: int, i: int, j: int, r: int, c: int) {
    0 <= t < tl.threads && 0 <= i < tl.rows && 0 <= j < tl.cols && tl.row(t, i) == r && tl.col(t, j) == c
  }

  ghost predicate Placed(tl: Tiling, r: int, c: int) {
    exists t, i, j :: Places(tl, t, i, j, r, c)
  }

  ghost predicate Partitions(tl: Tiling) {
    && (forall t, i, j, r, c :: Places(tl, t, i, j, r, c) ==> 0 <= r < tl.BM && 0 <= c < tl.BN)
    && (forall t, i, j, t', i', j', r, c :: Places(tl, t, i, j, r, c) && Places(tl, t', i', j', r, c) ==>
          t == t' && i == i' && j == j')
    && (forall r, c :: 0 <= r < tl.BM && 0 <= c < tl.BN ==> Placed(tl, r, c))
  }

  lemma PartitionOwns(tl: Tiling)
    requires tl.Sane() && Partitions(tl)
    ensures tl.Owns()
  {
    forall t, n | tl.InThread(t, n)
      ensures Places(tl, t, n / tl.cols, n % tl.cols, tl.RowOf(t, n), tl.ColOf(t, n))
        && n == n / tl.cols * tl.cols + n % tl.cols
    {
      DivBounds(n, tl.rows, tl.cols);
    }
    forall t, n, t', n' | tl.InThread(t, n) && tl.InThread(t', n') && tl.RowOf(t, n) == tl.RowOf(t', n')
      && tl.ColOf(t, n) == tl.ColOf(t', n')
      ensures t == t' && n == n'
    {
      assert Places(tl, t, n / tl.cols, n % tl.cols, tl.RowOf(t, n), tl.ColOf(t, n));
      assert Places(tl, t', n' / tl.cols, n' % tl.cols, tl.RowOf(t, n), tl.ColOf(t, n));
    }
    forall r, c | 0 <= r < tl.BM && 0 <= c < tl.BN
      ensures tl.Covers(r, c)
    {
      assert Placed(tl, r, c);
      var t, i, j :| Places(tl, t, i, j, r, c);
      DivModUnique(i, j, tl.cols);
      MulMono(0, i, tl.cols);
      MulMono(i + 1, tl.rows, tl.cols);
      assert tl.InThread(t, i * tl.cols + j) && tl.RowOf(t, i * tl.cols + j) == r && tl.ColOf(t, i * tl.cols + j) == c;
    }
  }

  // ----- level 2: one element per thread, no tile

  /** Blocks of `tx` by `ty` threads; nothing is copied. */
  function Level2(tx: Pos, ty: Pos): Tiling {
    Tiling(ty, tx, 1, 1, ty * tx, 1, 1, false, false,
           (t: int, i: int) => t / tx, (t: int, j: int) => t % tx,
           (side: Side, t: int) => [], (side: Side, t: int) => [])
  }

  lemma Level2Owns(tx: Pos, ty: Pos)
    ensures Level2(tx, ty).Owns()
  {
    var tl := Level2(tx, ty);
    MulMono(1, ty, tx);
    forall t, n | tl.InThread(t, n)
      ensures 0 <= tl.RowOf(t, n) < ty && 0 <= tl.ColOf(t, n) < tx && n == 0
        && t == tl.RowOf(t, n) * tx + tl.ColOf(t, n)
    {
      DivBounds(t, ty, tx);
    }
    forall r, c | 0 <= r < ty && 0 <= c < tx
      ensures tl.Covers(r, c)
    {
      DivModUnique(r, c, tx);
      MulMono(r + 1, ty, tx);
      MulMono(0, r, tx);
      assert tl.InThread(r * tx + c, 0) && tl.RowOf(r * tx + c, 0) == r && tl.ColOf(r * tx + c, 0) == c;
    }
  }

  // ----- level 3: one element per thread, all three tile sizes equal

  function Level3(n: Pos): Tiling {
    Tiling(n, n, n, 1, n * n, 1, 1, false, false,
           (t: int, i: int) => t / n, (t: int, j: int) => t % n,
           (side: Side, t: int) => if side == A then [Vec(t % n, t / n)] else [Vec(t / n, t % n)],
           (side: Side, t: int) => [])
  }

  lemma Level3Place(n: Pos, t: int, i: int, j: int, r: int, c: int)
    requires Places(Level3(n), t, i, j, r, c)
    ensures 0 <= r < n && 0 <= c < n && t == r * n + c && i == 0 && j == 0
  {
    DivBounds(t, n, n);
  }

  lemma Level3Copies(n: Pos, side: Side, t: int, v: Vec)
    requires 0 <= t < n * n
    ensures v in Level3(n).vecs(side, t) ==>
              Level3(n).Sane() && Level3(n).Aligned(side, v) && t == if side == A then v.x * n + v.k else v.k * n + v.x
  {
    DivBounds(t, n, n);
  }

  lemma Level3Copier(n: Pos, side: Side, v: Vec)
    requires Level3(n).Sane() && Level3(n).Aligned(side, v)
    ensures exists t :: 0 <= t < n * n && v in Level3(n).vecs(side, t)
  {
    var t := if side == A then v.x * n + v.k else v.k * n + v.x;
    if side == A { Level3Thread(v.x, v.k, n); } else { Level3Thread(v.k, v.x, n); }
    assert v in Level3(n).vecs(side, t);
  }

  lemma Level3Legal(n: Pos)
    ensures Level3(n).Owns() && Level3(n).Fills()
  {
    var tl := Level3(n);
    MulMono(1, n, n);
    assert tl.Sane();
    assert Partitions(tl) by {
      forall t, i, j, r, c | Places(tl, t, i, j, r, c)
        ensures 0 <= r < n && 0 <= c < n && t == r * n + c && i == 0 && j == 0
      {
        Level3Place(n, t, i, j, r, c);
      }
      forall r, c | 0 <= r < n && 0 <= c < n
        ensures Placed(tl, r, c)
      {
        Level3Thread(r, c, n);
        assert Places(tl, r * n + c, 0, 0, r, c);
      }
    }
    PartitionOwns(tl);
    forall side, t, v | 0 <= t < tl.threads
      ensures v in tl.vecs(side, t) ==> tl.Aligned(side, v) && t == if side == A then v.x * n + v.k else v.k * n + v.x
    {
      Level3Copies(n, side, t, v);
    }
    forall side, v | tl.Aligned(side, v)
      ensures exists t :: 0 <= t < tl.threads && v in tl.vecs(side, t)
    {
      Level3Copier(n, side, v);
    }
  }

  lemma Level3Thread(r: int, c: int, n: Pos)
    requires 0 <= r < n && 0 <= c < n
    ensures 0 <= r * n + c < n * n && (r * n + c) / n == r && (r * n + c) % n == c
  {
    DivModUnique(r, c, n);
    MulMono(r + 1, n, n);
    MulMono(0, r, n);
  }

  // ----- levels 4 to 7: a TM x TN patch per thread

  datatype BlockCfg = BlockCfg(BM: Pos, BN: Pos, BK: Pos, TM: Pos, TN: Pos) {
    predicate Ok() { BM % TM == 0 && BN % TN == 0 }

    function Threads(): int { BM / TM * (BN / TN) }
  }

  lemma ThreadsPositive(c: BlockCfg)
    requires c.Ok()
    ensures c.BM / c.TM > 0 && c.BN / c.TN > 0 && c.Threads() > 0
  {
    ExactQuotient(c.BM, c.TM);
    ExactQuotient(c.BN, c.TN);
    MulMono(1, c.BM / c.TM, c.BN / c.TN);
  }

  lemma ExactQuotient(n: Pos, d: Pos)
    requires n % d == 0
    ensures n / d > 0 && n == n / d * d
  {
    if n / d <= 0 { MulMono(n / d, 0, d); }
  }

  function BlockCopying(c: BlockCfg, width: Pos): Copying
    requires c.Ok()
  {
    ThreadsPositive(c);
    Copying(c.BM, c.BN, c.BK, width, c.Threads())
  }

  function BlockTiling(c: BlockCfg, width: Pos, transposed: bool, rowwise: bool): Tiling
    requires c.Ok()
  {
    ThreadsPositive(c);
    var w := c.BN / c.TN;
    var cp := BlockCopying(c, width);
    Tiling(c.BM, c.BN, c.BK, width, c.Threads(), c.TM, c.TN, transposed, rowwise,
           (t: int, i: int) => Quot(t, w) * c.TM + i, (t: int, j: int) => Rem(t, w) * c.TN + j,
           (side: Side, t: int) => if t < 0 then [] else cp.Strided(side, t),
           (side: Side, t: int) => if t < 0 then [] else cp.Slots(side, t))
  }

  /** Level 4: a column of TM accumulators per thread. */
  function Level4(c: BlockCfg): Tiling
    requires c.Ok() && c.TN == 1
  { BlockTiling(c, 1, false, true) }

  function Level5(c: BlockCfg): Tiling
    requires c.Ok()
  { BlockTiling(c, 1, false, false) }

  /** Levels 6 and 7: vectors of four, and A's tile stored transposed. */
  function Level67(c: BlockCfg): Tiling
    requires c.Ok()
  { BlockTiling(c, 4, true, false) }

  lemma BlockPlace(c: BlockCfg, width: Pos, tr: bool, rw: bool, t: int, i: int, j: int, row: int, col: int)
    requires c.Ok() && Places(BlockTiling(c, width, tr, rw), t, i, j, row, col)
    ensures 0 <= row < c.BM && 0 <= col < c.BN
    ensures i == row % c.TM && j == col % c.TN && t == row / c.TM * (c.BN / c.TN) + col / c.TN
  {
    ThreadsPositive(c);
    ExactQuotient(c.BM, c.TM);
    ExactQuotient(c.BN, c.TN);
    var w := c.BN / c.TN;
    DivBounds(t, c.BM / c.TM, w);
    DivModUnique(t / w, i, c.TM);
    DivModUnique(t % w, j, c.TN);
    MulMono(t / w + 1, c.BM / c.TM, c.TM);
    MulMono(t % w + 1, w, c.TN);
    MulMono(0, t / w, c.TM);
    MulMono(0, t % w, c.TN);
  }

  lemma BlockCover(c: BlockCfg, width: Pos, tr: bool, rw: bool, row: int, col: int)
    requires c.Ok() && 0 <= row < c.BM && 0 <= col < c.BN
    ensures Places(BlockTiling(c, width, tr, rw), row / c.TM * (c.BN / c.TN) + col / c.TN,
                   row % c.TM, col % c.TN, row, col)
  {
    ThreadsPositive(c);
    ExactQuotient(c.BM, c.TM);
    ExactQuotient(c.BN, c.TN);
    DivBounds(row, c.BM / c.TM, c.TM);
    DivBounds(col, c.BN / c.TN, c.TN);
    JoinDigits(row / c.TM, col / c.TN, c.BM / c.TM, c.BN / c.TN);
  }

  lemma JoinDigits(hi: int, lo: int, n: int, m: int)
    requires 0 <= hi < n && 0 <= lo < m
    ensures 0 <= hi * m + lo < n * m && (hi * m + lo) / m == hi && (hi * m + lo) % m == lo
  {
    DivModUnique(hi, lo, m);
    MulMono(hi + 1, n, m);
    MulMono(0, hi, m);
  }

  /** Levels 4 to 7 partition the block tile and its copies. */
  lemma BlockLegal(c: BlockCfg, width: Pos, tr: bool, rw: bool)
    requires c.Ok() && c.BK % width == 0 && c.BN % width == 0
    ensures BlockTiling(c, width, tr, rw).Owns() && BlockTiling(c, width, tr, rw).Fills()
      && BlockTiling(c, width, tr, rw).Stages()
  {
    var tl := BlockTiling(c, width, tr, rw);
    ThreadsPositive(c);
    forall t, i, j, row, col | Places(tl, t, i, j, row, col)
      ensures 0 <= row < c.BM && 0 <= col < c.BN
      ensures i == row % c.TM && j == col % c.TN && t == row / c.TM * (c.BN / c.TN) + col / c.TN
    {
      BlockPlace(c, width, tr, rw, t, i, j, row, col);
    }
    forall row, col | 0 <= row < c.BM && 0 <= col < c.BN
      ensures Placed(tl, row, col)
    {
      BlockCover(c, width, tr, rw, row, col);
    }
    PartitionOwns(tl);
    CopyingFills(tl, BlockCopying(c, width));
  }

  // ----- level 8: warps of 32 lanes

  datatype WarpCfg = WarpCfg(BM: Pos, BN: Pos, BK: Pos, TM: Pos, TN: Pos, WM: Pos, WN: Pos, WNITER: Pos) {
    function WSUBN(): int { WN / WNITER }
    function LaneCols(): int { WSUBN() / TN }
    function LaneRows(): int { Quot(32, LaneCols()) }
    function WSUBM(): int { LaneRows() * TM }
    function WMITER(): int { Quot(WM, WSUBM()) }
    function WarpsPerRow(): int { BN / WN }
    function Threads(): int { BM / WM * (BN / WN) * 32 }

    /** The shape decomposes cleanly into 32-lane warps. */
    predicate DeriveOk() {
      && BK % 4 == 0 && BN % 4 == 0 && BM % WM == 0 && BN % WN == 0 && WN % WNITER == 0
      && WSUBN() % TN == 0
      && LaneCols() > 0 && 32 % LaneCols() == 0
      && WSUBM() > 0 && WM % WSUBM() == 0
    }
  }

  const DEFAULT_WARP := WarpCfg(64, 64, 16, 4, 4, 32, 32, 2)

  /** A requested shape that does not decompose falls back to the defaults. */
  function Chosen(c: WarpCfg): (d: WarpCfg)
    ensures d.DeriveOk()
    ensures if c.DeriveOk() then d == c else d == WarpCfg(64, 64, 16, 4, 4, 32, 32, 2)
  {
    if c.DeriveOk() then c
    else
      assert DEFAULT_WARP.WSUBN() == 16 && DEFAULT_WARP.LaneCols() == 4 && DEFAULT_WARP.WSUBM() == 32;
      DEFAULT_WARP
  }

  lemma WarpSizes(c: WarpCfg)
    requires c.DeriveOk()
    ensures c.WSUBN() > 0 && c.LaneCols() > 0 && c.LaneRows() > 0 && c.WMITER() > 0 && c.WarpsPerRow() > 0
      && c.BM / c.WM > 0
    ensures c.LaneRows() * c.LaneCols() == 32
    ensures c.WM == c.WMITER() * c.WSUBM() && c.WN == c.WNITER * c.WSUBN() && c.WSUBN() == c.LaneCols() * c.TN
    ensures c.BM == c.BM / c.WM * c.WM && c.BN == c.WarpsPerRow() * c.WN
    ensures c.Threads() > 0
  {
    ExactQuotient(c.WN, c.WNITER);
    ExactQuotient(c.WSUBN(), c.TN);
    ExactQuotient(32, c.LaneCols());
    ExactQuotient(c.WM, c.WSUBM());
    ExactQuotient(c.BM, c.WM);
    ExactQuotient(c.BN, c.WN);
    MulMono(1, c.BM / c.WM, c.BN / c.WN);
  }

  /** A warp of rows x cols lanes covers, with TM x TN elements a lane, one of iters x WNITER parts of
      its tile. */
  ghost predicate Decomposes(c: WarpCfg, rows: int, cols: int, iters: int) {
    rows > 0 && cols > 0 && rows * cols == 32 && c.WN == cols * c.TN * c.WNITER && c.WM == iters * (rows * c.TM)
  }

  /** The test accepts exactly the shapes whose tiles split into whole warps, whose warps split into
      32 lanes, and whose rows split into vectors of four. */
  lemma DeriveExactly(c: WarpCfg)
    ensures c.DeriveOk() <==>
      && c.BK % 4 == 0 && c.BN % 4 == 0 && c.BM % c.WM == 0 && c.BN % c.WN == 0
      && exists rows, cols, iters :: Decomposes(c, rows, cols, iters)
  {
    if c.DeriveOk() {
      WarpSizes(c);
      assert Decomposes(c, c.LaneRows(), c.LaneCols(), c.WMITER());
    }
    if rows, cols, iters :| Decomposes(c, rows, cols, iters) {
      DivModUnique(cols * c.TN, 0, c.WNITER);
      DivModUnique(cols, 0, c.TN);
      DivModUnique(rows, 0, cols);
      MulMono(1, rows, c.TM);
      DivModUnique(iters, 0, rows * c.TM);
    }
  }

  function WarpRow(c: WarpCfg, t: int): int { Quot(t / 32, c.WarpsPerRow()) }
  function WarpCol(c: WarpCfg, t: int): int { Rem(t / 32, c.WarpsPerRow()) }
  function LaneRow(c: WarpCfg, t: int): int { Quot(t % 32, c.LaneCols()) }
  function LaneCol(c: WarpCfg, t: int): int { Rem(t % 32, c.LaneCols()) }

  function WarpCopying(c: WarpCfg): Copying
    requires c.DeriveOk()
  {
    WarpSizes(c);
    Copying(c.BM, c.BN, c.BK, 4, c.Threads())
  }

  /** Register row i is row `i mod TM` of subtile `i div TM`; columns likewise. */
  function Level8(c: WarpCfg): Tiling
    requires c.DeriveOk()
  {
    WarpSizes(c);
    var cp := WarpCopying(c);
    Tiling(c.BM, c.BN, c.BK, 4, c.Threads(), c.WMITER() * c.TM, c.WNITER * c.TN, true, false,
           (t: int, i: int) => WarpRow(c, t) * c.WM + LaneRow(c, t) * c.TM + i / c.TM * c.WSUBM() + i % c.TM,
           (t: int, j: int) => WarpCol(c, t) * c.WN + LaneCol(c, t) * c.TN + j / c.TN * c.WSUBN() + j % c.TN,
           (side: Side, t: int) => if t < 0 then [] else cp.Strided(side, t),
           (side: Side, t: int) => if t < 0 then [] else cp.Slots(side, t))
  }

  /** Four nested digits: warp, subtile, lane, element.  Each is read back from the position. */
  lemma Digits(warp: int, sub: int, lane: int, e: int, subs: int, lanes: int, m: int)
    requires subs > 0 && lanes > 0 && m > 0
    requires 0 <= sub < subs && 0 <= lane < lanes && 0 <= e < m
    ensures lanes * m > 0 && subs * (lanes * m) > 0
    ensures var x := warp * (subs * (lanes * m)) + sub * (lanes * m) + lane * m + e;
      && x / (subs * (lanes * m)) == warp
      && x % (subs * (lanes * m)) / (lanes * m) == sub
      && x % (subs * (lanes * m)) % (lanes * m) / m == lane
      && x % (subs * (lanes * m)) % (lanes * m) % m == e
  {
    var low := lane * m + e;
    MulMono(0, lane, m);
    MulMono(lane + 1, lanes, m);
    MulMono(1, lanes, m);
    DivModUnique(lane, e, m);
    var mid := sub * (lanes * m) + low;
    MulMono(0, sub, lanes * m);
    MulMono(sub + 1, subs, lanes * m);
    MulMono(1, subs, lanes * m);
    DivModUnique(sub, low, lanes * m);
    DivModUnique(warp, mid, subs * (lanes * m));
  }

  /** The position of a row (or column) within one dimension of the block tile, digit by digit. */
  function Place(warp: int, lane: int, i: int, W: int, SUB: int, m: Pos): int {
    warp * W + lane * m + i / m * SUB + i % m
  }

  lemma PlaceDigits(warp: int, lane: int, i: int, warps: int, subs: int, lanes: int, m: Pos)
    requires subs > 0 && lanes > 0 && 0 <= warp < warps && 0 <= lane < lanes && 0 <= i < subs * m
    ensures lanes * m > 0 && subs * (lanes * m) > 0
    ensures var x := Place(warp, lane, i, subs * (lanes * m), lanes * m, m);
      && 0 <= x < warps * (subs * (lanes * m))
      && warp == x / (subs * (lanes * m))
      && lane == x % (subs * (lanes * m)) % (lanes * m) / m
      && i == x % (subs * (lanes * m)) / (lanes * m) * m + x % (subs * (lanes * m)) % (lanes * m) % m
  {
    DivBounds(i, subs, m);
    Digits(warp, i / m, lane, i % m, subs, lanes, m);
    var W := subs * (lanes * m);
    var x := Place(warp, lane, i, W, lanes * m, m);
    assert x == warp * W + i / m * (lanes * m) + lane * m + i % m;
    MulMono(warp + 1, warps, W);
    MulMono(0, warp, W);
    assert x == x / W * W + x % W;
  }

  lemma PlaceOf(x: int, warps: int, subs: int, lanes: int, m: Pos) returns (warp: int, lane: int, i: int)
    requires subs > 0 && lanes > 0 && lanes * m > 0 && subs * (lanes * m) > 0 && 0 <= x < warps * (subs * (lanes * m))
    ensures 0 <= warp < warps && 0 <= lane < lanes && 0 <= i < subs * m
    ensures Place(warp, lane, i, subs * (lanes * m), lanes * m, m) == x
  {
    var W := subs * (lanes * m);
    DivBounds(x, warps, W);
    warp := x / W;
    var y := x % W;
    DivBounds(y, subs, lanes * m);
    var sub, z := y / (lanes * m), y % (lanes * m);
    DivBounds(z, lanes, m);
    lane := z / m;
    i := sub * m + z % m;
    DivModUnique(sub, z % m, m);
    MulMono(sub + 1, subs, m);
    MulMono(0, sub, m);
  }

  /** The flat thread id of a warp and lane, and back. */
  function ThreadOf(c: WarpCfg, warpRow: int, warpCol: int, laneRow: int, laneCol: int): int {
    (warpRow * c.WarpsPerRow() + warpCol) * 32 + (laneRow * c.LaneCols() + laneCol)
  }

  lemma ThreadDigits(c: WarpCfg, t: int)
    requires c.DeriveOk() && 0 <= t < c.Threads()
    ensures 0 <= WarpRow(c, t) < c.BM / c.WM && 0 <= WarpCol(c, t) < c.WarpsPerRow()
    ensures 0 <= LaneRow(c, t) < c.LaneRows() && 0 <= LaneCol(c, t) < c.LaneCols()
    ensures t == ThreadOf(c, WarpRow(c, t), WarpCol(c, t), LaneRow(c, t), LaneCol(c, t))
  {
    WarpSizes(c);
    DivBounds(t, c.BM / c.WM * c.WarpsPerRow(), 32);
    DivBounds(t / 32, c.BM / c.WM, c.WarpsPerRow());
    DivBounds(t % 32, c.LaneRows(), c.LaneCols());
  }

  lemma ThreadOfDigits(c: WarpCfg, warpRow: int, warpCol: int, laneRow: int, laneCol: int)
    requires c.DeriveOk()
    requires 0 <= warpRow < c.BM / c.WM && 0 <= warpCol < c.WarpsPerRow() && 0 <= laneRow < c.LaneRows()
      && 0 <= laneCol < c.LaneCols()
    ensures var t := ThreadOf(c, warpRow, warpCol, laneRow, laneCol);
      0 <= t < c.Threads() && WarpRow(c, t) == warpRow && WarpCol(c, t) == warpCol && LaneRow(c, t) == laneRow
          && LaneCol(c, t) == laneCol
  {
    WarpSizes(c);
    hide WarpCfg.DeriveOk, WarpCfg.LaneRows, WarpCfg.LaneCols;
    JoinDigits(warpRow, warpCol, c.BM / c.WM, c.WarpsPerRow());
    JoinDigits(laneRow, laneCol, c.LaneRows(), c.LaneCols());
    JoinDigits(warpRow * c.WarpsPerRow() + warpCol, laneRow * c.LaneCols() + laneCol,
               c.BM / c.WM * c.WarpsPerRow(), 32);
  }

  /** The digits of a position along one dimension of the tile. */
  datatype Where = Where(warp: int, lane: int, i: int)

  function Locate(x: int, W: int, SUB: int, m: Pos): Where
    requires W > 0 && SUB > 0
  {
    Where(x / W, x % W % SUB / m, x % W / SUB * m + x % W % SUB % m)
  }

  lemma WarpPlace(c: WarpCfg, t: int, i: int, j: int, row: int, col: int)
    requires c.DeriveOk() && Places(Level8(c), t, i, j, row, col)
    ensures c.WM > 0 && c.WSUBM() > 0 && c.WSUBN() > 0
    ensures 0 <= row < c.BM && 0 <= col < c.BN
    ensures var r, k := Locate(row, c.WM, c.WSUBM(), c.TM), Locate(col, c.WN, c.WSUBN(), c.TN);
      i == r.i && j == k.i && t == ThreadOf(c, r.warp, k.warp, r.lane, k.lane)
  {
    WarpSizes(c);
    ThreadDigits(c, t);
    PlaceDigits(WarpRow(c, t), LaneRow(c, t), i, c.BM / c.WM, c.WMITER(), c.LaneRows(), c.TM);
    PlaceDigits(WarpCol(c, t), LaneCol(c, t), j, c.WarpsPerRow(), c.WNITER, c.LaneCols(), c.TN);
  }

  lemma WarpCover(c: WarpCfg, row: int, col: int)
    requires c.DeriveOk() && 0 <= row < c.BM && 0 <= col < c.BN
    ensures Placed(Level8(c), row, col)
  {
    WarpSizes(c);
    var warpRow, laneRow, i := PlaceOf(row, c.BM / c.WM, c.WMITER(), c.LaneRows(), c.TM);
    var warpCol, laneCol, j := PlaceOf(col, c.WarpsPerRow(), c.WNITER, c.LaneCols(), c.TN);
    ThreadOfDigits(c, warpRow, warpCol, laneRow, laneCol);
    assert Places(Level8(c), ThreadOf(c, warpRow, warpCol, laneRow, laneCol), i, j, row, col);
  }

  /** Level 8: every shape `DeriveOk` accepts partitions the block tile and its copies. */
  lemma WarpLegal(c: WarpCfg)
    requires c.DeriveOk()
    ensures Level8(c).Owns() && Level8(c).Fills() && Level8(c).Stages()
  {
    var tl := Level8(c);
    WarpSizes(c);
    MulMono(1, c.WMITER(), c.TM);
    MulMono(1, c.WNITER, c.TN);
    assert Partitions(tl) by {
      hide Places, Locate, ThreadOf;
      forall t, i, j, row, col | Places(tl, t, i, j, row, col)
        ensures 0 <= row < c.BM && 0 <= col < c.BN
      {
        WarpPlace(c, t, i, j, row, col);
      }
      forall t, i, j, t', i', j', row, col | Places(tl, t, i, j, row, col) && Places(tl, t', i', j', row, col)
        ensures t == t' && i == i' && j == j'
      {
        WarpPlace(c, t, i, j, row, col);
        WarpPlace(c, t', i', j', row, col);
      }
      forall row, col | 0 <= row < c.BM && 0 <= col < c.BN
        ensures Placed(tl, row, col)
      {
        WarpCover(c, row, col);
      }
    }
    PartitionOwns(tl);
    CopyingFills(tl, WarpCopying(c));
  }
}
