/** No kernel of the ladder has a race or leaves the bounds of an operand. */
module KernelRaces {
  import opened Arithmetic
  import opened Elements
  import opened Machine
  import opened GemmSpec
  import opened Kernels

  /** What a kernel asks of its problem: a tiling that partitions the work, and rows of B in whole
      vectors.  Nothing is asked of K. */
  ghost predicate Legal(shape: Shape, p: Problem, tl: Tiling) {
    && tl.Owns() && tl.Fills()
    && (shape == Double ==> tl.Stages())
    && (tl.rowwise ==> tl.cols == 1)
    && p.N % tl.width == 0
  }

  predicate InLaunch(x: Ctx)
    requires x.Ok()
  {
    x.b < Blocks(x.p, x.tl) && x.t < x.tl.threads
  }

  ghost predicate OwnsC(x: Ctx, r: int, c: int)
    requires x.Ok()
  {
    InC(x.p, r, c) && exists n :: 0 <= n < x.tl.Size() && r == x.GRow(n) && c == x.GCol(n)
  }

  ghost predicate FillsCell(x: Ctx, side: Side, buf: int, c: Cell) {
    exists v, q :: v in x.tl.vecs(side, x.t) && 0 <= q < x.tl.width && c == x.LaneCell(side, buf, v, q)
  }

  /** What one phase may do: read one shared buffer, write another, store C.  Loads stay inside the
      operands, but for the vector at the end of a row of A when K is no multiple of the width. */
  datatype Mode = Mode(readBuf: int, writeBuf: int, stores: bool)

  ghost predicate MayLoad(x: Ctx, md: Mode, c: Cell)
    requires x.Ok()
  {
    match c
    case GA(i, j) => 0 <= i < x.p.M && 0 <= j < x.p.K + x.tl.width - 1 && (x.p.K % x.tl.width == 0 ==> j < x.p.K)
    case GB(i, j) => 0 <= i < x.p.K && 0 <= j < x.p.N
    case GC(i, j) => OwnsC(x, i, j)
    case Bias(j) => 0 <= j < x.p.N
    case SA(b, buf, i, j) =>
      b == x.b && buf == md.readBuf &&
      if x.tl.transposed then 0 <= i < x.tl.BK && 0 <= j < x.tl.BM else 0 <= i < x.tl.BM && 0 <= j < x.tl.BK
    case SB(b, buf, i, j) => b == x.b && buf == md.readBuf && 0 <= i < x.tl.BK && 0 <= j < x.tl.BN
  }

  ghost predicate MayStore(x: Ctx, md: Mode, c: Cell)
    requires x.Ok()
  {
    match c
    case GC(i, j) => md.stores && OwnsC(x, i, j)
    case SA(_, _, _, _) => md.writeBuf >= 0 && FillsCell(x, A, md.writeBuf, c)
    case SB(_, _, _, _) => md.writeBuf >= 0 && FillsCell(x, B, md.writeBuf, c)
    case _ => false
  }

  ghost predicate Fits(x: Ctx, md: Mode, ins: Instr)
    requires x.Ok()
  {
    (ins.Load? ==> MayLoad(x, md, ins.src)) && (ins.Store? ==> MayStore(x, md, ins.cell))
  }

  ghost predicate CodeFits(x: Ctx, md: Mode, code: seq<Instr>)
    requires x.Ok()
  {
    forall n :: 0 <= n < |code| ==> Fits(x, md, code[n])
  }

  lemma FitsConcat(x: Ctx, md: Mode, p: seq<Instr>, q: seq<Instr>)
    requires x.Ok() && CodeFits(x, md, p) && CodeFits(x, md, q)
    ensures CodeFits(x, md, p + q)
  {}

  function ModeOf(shape: Shape, p: Problem, tl: Tiling, ph: nat): Mode
    requires tl.Sane()
  {
    var n := Tiles(p, tl);
    match shape
    case Single =>
      if ph >= 2 * n then Mode(-1, -1, true) else if ph % 2 == 0 then Mode(-1, 0, false) else Mode(0, -1, false)
    case Double =>
      if ph == 0 then Mode(-1, 0, false)
      else if ph <= n then Mode((ph - 1) % 2, 1 - (ph - 1) % 2, false)
      else Mode(-1, -1, true)
  }

  // ----- fragment by fragment

  lemma DivBounds(a: int, n: int, m: int)
    requires m > 0 && 0 <= a < n * m
    ensures 0 <= a / m < n && 0 <= a % m < m && a == a / m * m + a % m
  {
    if a / m >= n {
      assert a / m * m >= n * m by { MulMono(n, a / m, m); }
    }
  }

  lemma BasesNonNegative(x: Ctx)
    requires x.Ok()
    ensures x.RowBase() >= 0 && x.ColBase() >= 0
  {
    if x.GridX() != 0 {
      assert x.b / x.GridX() >= 0 && x.b % x.GridX() >= 0;
      MulMono(0, x.b / x.GridX(), x.tl.BM);
      MulMono(0, x.b % x.GridX(), x.tl.BN);
    }
  }

  lemma OwnsAt(x: Ctx, n: nat)
    requires x.Ok() && x.tl.Owns() && InLaunch(x) && n < x.tl.Size()
    requires x.GRow(n) < x.p.M && x.GCol(n) < x.p.N
    ensures OwnsC(x, x.GRow(n), x.GCol(n))
  {
    BasesNonNegative(x);
    assert x.tl.InThread(x.t, n);
  }

  lemma {:induction false} InitFits(x: Ctx, md: Mode, n: nat)
    requires x.Ok() && x.tl.Owns() && InLaunch(x) && n <= x.tl.Size()
    ensures CodeFits(x, md, InitCode(x, n))
  {
    if n > 0 {
      InitFits(x, md, n - 1);
      if x.GRow(n - 1) < x.p.M && x.GCol(n - 1) < x.p.N { OwnsAt(x, n - 1); }
    }
  }

  lemma StoreAtFits(x: Ctx, md: Mode, n: nat)
    requires x.Ok() && x.tl.Owns() && InLaunch(x) && n < x.tl.Size() && md.stores
    ensures CodeFits(x, md, StoreAt(x, n))
  {
    BasesNonNegative(x);
    if x.GRow(n) < x.p.M && x.GCol(n) < x.p.N { OwnsAt(x, n); }
  }

  lemma {:induction false} StoreFits(x: Ctx, md: Mode, n: nat)
    requires x.Ok() && x.tl.Owns() && InLaunch(x) && n <= x.tl.Size() && md.stores
    ensures CodeFits(x, md, StoreCode(x, n))
  {
    hide StoreAt;
    if n > 0 {
      StoreFits(x, md, n - 1);
      StoreAtFits(x, md, n - 1);
      FitsConcat(x, md, StoreCode(x, n - 1), StoreAt(x, n - 1));
    }
  }

  lemma ColBaseMod(x: Ctx)
    requires x.Ok() && x.tl.BN % x.tl.width == 0
    ensures x.ColBase() % x.tl.width == 0
  {
    hide CeilDiv;
    if x.GridX() != 0 {
      MultipleMod(x.b % x.GridX(), x.tl.BN, x.tl.width);
    }
  }

  /** A guarded vector is inside its operand on every lane, and an unguarded one on none, where
      the rows of the operand are whole vectors. */
  lemma GuardLanes(x: Ctx, side: Side, bk: int, v: Vec, q: int)
    requires x.Ok() && x.tl.Fills() && x.p.N % x.tl.width == 0
    requires x.tl.Aligned(side, v) && bk % x.tl.width == 0 && 0 <= q < x.tl.width
    ensures x.InOperand(side, bk, x.LaneK(side, v, q), x.LaneX(side, v, q)) ==> Guard(x, side, bk, v)
    ensures side == B || x.p.K % x.tl.width == 0 ==>
      (Guard(x, side, bk, v) ==> x.InOperand(side, bk, x.LaneK(side, v, q), x.LaneX(side, v, q)))
  {
    var w := x.tl.width;
    if side == A {
      if x.p.K % w == 0 {
        SumMod(bk, v.k, w);
        if bk + v.k < x.p.K { MultipleGap(bk + v.k, x.p.K, w); }
      }
    } else {
      ColBaseMod(x);
      SumMod(x.ColBase(), v.x, w);
      if x.ColBase() + v.x < x.p.N { MultipleGap(x.ColBase() + v.x, x.p.N, w); }
    }
  }

  lemma {:induction false} LaneLoadsFit(x: Ctx, md: Mode, side: Side, bk: nat, v: Vec, s: int, n: nat)
    requires x.Ok() && x.tl.Fills() && x.p.N % x.tl.width == 0
    requires x.tl.Aligned(side, v) && bk % x.tl.width == 0 && n <= x.tl.width && Guard(x, side, bk, v)
    ensures CodeFits(x, md, LaneLoads(x, side, bk, v, s, n))
  {
    if n > 0 {
      LaneLoadsFit(x, md, side, bk, v, s, n - 1);
      GuardLanes(x, side, bk, v, n - 1);
      BasesNonNegative(x);
    }
  }

  lemma {:induction false} LaneStoresFit(x: Ctx, md: Mode, side: Side, v: Vec, s: int, n: nat)
    requires x.Ok() && md.writeBuf >= 0 && v in x.tl.vecs(side, x.t) && n <= x.tl.width
    ensures CodeFits(x, md, LaneStores(x, side, md.writeBuf, v, s, n))
  {
    if n > 0 {
      LaneStoresFit(x, md, side, v, s, n - 1);
      assert FillsCell(x, side, md.writeBuf, x.LaneCell(side, md.writeBuf, v, n - 1));
    }
  }

  lemma {:induction false} LaneZerosFit(x: Ctx, md: Mode, side: Side, s: int, n: nat)
    requires x.Ok()
    ensures CodeFits(x, md, LaneZeros(x, side, s, n))
  {
    if n > 0 { LaneZerosFit(x, md, side, s, n - 1); }
  }

  lemma {:induction false} CopyFits(x: Ctx, md: Mode, side: Side, bk: nat, vs: seq<Vec>)
    requires x.Ok() && x.tl.Fills() && x.p.N % x.tl.width == 0
    requires InLaunch(x) && md.writeBuf >= 0 && bk % x.tl.width == 0
    requires forall v :: v in vs ==> v in x.tl.vecs(side, x.t)
    ensures CodeFits(x, md, CopyCode(x, side, md.writeBuf, bk, vs))
  {
    if vs != [] {
      var v := vs[|vs| - 1];
      CopyFits(x, md, side, bk, vs[..|vs| - 1]);
      assert v in x.tl.vecs(side, x.t);
      if Guard(x, side, bk, v) {
        LaneLoadsFit(x, md, side, bk, v, 0, x.tl.width);
        LaneStoresFit(x, md, side, v, 0, x.tl.width);
      }
    }
  }

  lemma {:induction false} PrefetchFits(x: Ctx, md: Mode, side: Side, bk: nat, n: nat)
    requires x.Ok() && x.tl.Fills() && x.tl.Stages() && x.p.N % x.tl.width == 0
    requires InLaunch(x) && bk % x.tl.width == 0 && n <= |x.tl.slots(side, x.t)|
    ensures CodeFits(x, md, PrefetchCode(x, side, bk, n))
  {
    if n > 0 {
      PrefetchFits(x, md, side, bk, n - 1);
      var slot := x.tl.slots(side, x.t)[n - 1];
      if Staged(x, side, bk, slot) {
        assert slot.vec in x.tl.vecs(side, x.t) by { assert slot == Slot(slot.vec, true); }
        LaneLoadsFit(x, md, side, bk, slot.vec, n - 1, x.tl.width);
      } else {
        LaneZerosFit(x, md, side, n - 1, x.tl.width);
      }
    }
  }

  lemma {:induction false} CommitFits(x: Ctx, md: Mode, side: Side, bk: nat, n: nat)
    requires x.Ok() && x.tl.Stages() && InLaunch(x) && md.writeBuf >= 0 && n <= |x.tl.slots(side, x.t)|
    ensures CodeFits(x, md, CommitCode(x, side, md.writeBuf, bk, n))
  {
    if n > 0 {
      CommitFits(x, md, side, bk, n - 1);
      var slot := x.tl.slots(side, x.t)[n - 1];
      if Staged(x, side, bk, slot) {
        assert slot.vec in x.tl.vecs(side, x.t) by { assert slot == Slot(slot.vec, true); }
        LaneStoresFit(x, md, side, slot.vec, n - 1, x.tl.width);
      }
    }
  }

  lemma FragBounds(tl: Tiling, t: int, i: int, j: int)
    requires tl.Owns() && 0 <= t < tl.threads && 0 <= i < tl.rows && 0 <= j < tl.cols
    ensures 0 <= tl.row(t, i) < tl.BM && 0 <= tl.col(t, j) < tl.BN
    ensures tl.InThread(t, i * tl.cols + j)
    ensures (i * tl.cols + j) / tl.cols == i && (i * tl.cols + j) % tl.cols == j
  {
    DivModUnique(i, j, tl.cols);
    MulMono(0, i, tl.cols);
    MulMono(i + 1, tl.rows, tl.cols);
    assert tl.InThread(t, i * tl.cols + j);
  }

  lemma FragFits(x: Ctx, md: Mode, side: Side, k: int, i: int)
    requires x.Ok() && x.tl.Owns() && InLaunch(x) && 0 <= k < x.tl.BK
    requires 0 <= i < if side == A then x.tl.rows else x.tl.cols
    ensures Fits(x, md, FragLoad(x, side, md.readBuf, k, i))
  {
    if side == A { FragBounds(x.tl, x.t, i, 0); } else { FragBounds(x.tl, x.t, 0, i); }
  }

  lemma {:induction false} FragCodeFits(x: Ctx, md: Mode, side: Side, k: int, n: nat)
    requires x.Ok() && x.tl.Owns() && InLaunch(x) && 0 <= k < x.tl.BK
    requires n <= if side == A then x.tl.rows else x.tl.cols
    ensures CodeFits(x, md, FragCode(x, side, md.readBuf, k, n))
  {
    if n > 0 {
      FragCodeFits(x, md, side, k, n - 1);
      FragFits(x, md, side, k, n - 1);
    }
  }

  lemma {:induction false} FmaFits(x: Ctx, md: Mode, n: nat)
    requires x.Ok()
    ensures CodeFits(x, md, FmaCode(x, n))
  {
    if n > 0 { FmaFits(x, md, n - 1); }
  }

  lemma {:induction false} RowwiseFits(x: Ctx, md: Mode, k: int, n: nat)
    requires x.Ok() && x.tl.Owns() && InLaunch(x) && 0 <= k < x.tl.BK && n <= x.tl.rows
    ensures CodeFits(x, md, RowwiseCode(x, md.readBuf, k, n))
  {
    if n > 0 {
      RowwiseFits(x, md, k, n - 1);
      FragFits(x, md, A, k, n - 1);
    }
  }

  lemma InnerFits(x: Ctx, md: Mode, k: int)
    requires x.Ok() && x.tl.Owns() && InLaunch(x) && 0 <= k < x.tl.BK
    ensures CodeFits(x, md, InnerCode(x, md.readBuf, k))
  {
    if x.tl.rowwise {
      FragCodeFits(x, md, B, k, 1);
      RowwiseFits(x, md, k, x.tl.rows);
      FitsConcat(x, md, FragCode(x, B, md.readBuf, k, 1), RowwiseCode(x, md.readBuf, k, x.tl.rows));
    } else {
      var a, b, f := FragCode(x, A, md.readBuf, k, x.tl.rows), FragCode(x, B, md.readBuf, k, x.tl.cols),
        FmaCode(x, x.tl.Size());
      FragCodeFits(x, md, A, k, x.tl.rows);
      FragCodeFits(x, md, B, k, x.tl.cols);
      FmaFits(x, md, x.tl.Size());
      FitsConcat(x, md, a, b);
      FitsConcat(x, md, a + b, f);
    }
  }

  lemma {:induction false} TileFits(x: Ctx, md: Mode, n: nat)
    requires x.Ok() && x.tl.Owns() && InLaunch(x) && n <= x.tl.BK
    ensures CodeFits(x, md, TileCode(x, md.readBuf, n))
  {
    if n > 0 {
      TileFits(x, md, n - 1);
      InnerFits(x, md, n - 1);
      FitsConcat(x, md, TileCode(x, md.readBuf, n - 1), InnerCode(x, md.readBuf, n - 1));
    }
  }

  lemma SinglePhaseFits(x: Ctx, ph: nat)
    requires Legal(Single, x.p, x.tl) && InLaunch(x) && ph < Phases(Single, x.p, x.tl)
    ensures CodeFits(x, ModeOf(Single, x.p, x.tl, ph), CodeOf(Single, x, ph))
  {
    var md := ModeOf(Single, x.p, x.tl, ph);
    InitFits(x, md, x.tl.Size());
    if ph >= 2 * Tiles(x.p, x.tl) {
      StoreFits(x, md, x.tl.Size());
    } else if ph % 2 == 0 {
      MultipleMod(ph / 2, x.tl.BK, x.tl.width);
      MulMono(0, ph / 2, x.tl.BK);
      CopyFits(x, md, A, ph / 2 * x.tl.BK, x.tl.vecs(A, x.t));
      CopyFits(x, md, B, ph / 2 * x.tl.BK, x.tl.vecs(B, x.t));
    } else {
      TileFits(x, md, x.tl.BK);
    }
  }

  lemma DoublePhaseFits(x: Ctx, ph: nat)
    requires Legal(Double, x.p, x.tl) && InLaunch(x) && ph < Phases(Double, x.p, x.tl)
    ensures CodeFits(x, ModeOf(Double, x.p, x.tl, ph), CodeOf(Double, x, ph))
  {
    var md := ModeOf(Double, x.p, x.tl, ph);
    InitFits(x, md, x.tl.Size());
    if ph == 0 {
      CopyFits(x, md, A, 0, x.tl.vecs(A, x.t));
      CopyFits(x, md, B, 0, x.tl.vecs(B, x.t));
    } else if ph <= Tiles(x.p, x.tl) {
      var bk := ph * x.tl.BK;
      MultipleMod(ph, x.tl.BK, x.tl.width);
      MulMono(0, ph, x.tl.BK);
      PrefetchFits(x, md, A, bk, |x.tl.slots(A, x.t)|);
      PrefetchFits(x, md, B, bk, |x.tl.slots(B, x.t)|);
      TileFits(x, md, x.tl.BK);
      CommitFits(x, md, A, bk, |x.tl.slots(A, x.t)|);
      CommitFits(x, md, B, bk, |x.tl.slots(B, x.t)|);
      FitsConcat(x, md, PrefetchTiles(x, bk), TileCode(x, md.readBuf, x.tl.BK));
    } else {
      StoreFits(x, md, x.tl.Size());
    }
  }

  lemma PhaseFits(shape: Shape, x: Ctx, ph: nat)
    requires Legal(shape, x.p, x.tl) && InLaunch(x) && ph < Phases(shape, x.p, x.tl)
    ensures CodeFits(x, ModeOf(shape, x.p, x.tl, ph), CodeOf(shape, x, ph))
  {
    hide CodeFits, CodeOf;
    if shape == Single { SinglePhaseFits(x, ph); } else { DoublePhaseFits(x, ph); }
  }

  // ----- from footprints to freedom from races

  lemma AlignedUnique(a: int, q: int, a': int, q': int, w: int)
    requires w > 0 && a % w == 0 && a' % w == 0 && 0 <= q < w && 0 <= q' < w && a + q == a' + q'
    ensures a == a' && q == q'
  {
    DivModUnique(a / w, q, w);
    DivModUnique(a' / w, q', w);
  }

  /** The only vector whose lanes reach tile position (k, x). */
  lemma LaneVector(tl: Tiling, x: Ctx, side: Side, buf: int, v: Vec, q: int, v': Vec, q': int)
    requires x.Ok() && tl == x.tl && tl.Aligned(side, v) && tl.Aligned(side, v')
    requires 0 <= q < tl.width && 0 <= q' < tl.width
    requires x.LaneCell(side, buf, v, q) == x.LaneCell(side, buf, v', q')
    ensures v == v' && q == q'
  {
    match side
    case A => AlignedUnique(v.k, q, v'.k, q', tl.width);
    case B => AlignedUnique(v.x, q, v'.x, q', tl.width);
  }

  lemma SameDigits(hi: int, lo: int, hi': int, lo': int, m: int)
    requires m > 0 && 0 <= lo < m && 0 <= lo' < m && hi * m + lo == hi' * m + lo'
    ensures hi == hi' && lo == lo'
  {
    DivModUnique(hi, lo, m);
    DivModUnique(hi', lo', m);
  }

  lemma SameBlock(b: nat, b': nat, m: int)
    requires m > 0 && b / m == b' / m && b % m == b' % m
    ensures b == b'
  {
    assert b == b / m * m + b % m && b' == b' / m * m + b' % m;
  }

  lemma SameOwner(p: Problem, tl: Tiling, b: nat, t: nat, b': nat, t': nat, r: int, c: int)
    requires tl.Owns()
    requires InLaunch(Ctx(p, tl, b, t)) && InLaunch(Ctx(p, tl, b', t'))
    requires OwnsC(Ctx(p, tl, b, t), r, c) && OwnsC(Ctx(p, tl, b', t'), r, c)
    ensures b == b' && t == t'
  {
    hide CeilDiv, Tiling.RowOf, Tiling.ColOf, Blocks;
    var x, y := Ctx(p, tl, b, t), Ctx(p, tl, b', t');
    var n :| 0 <= n < tl.Size() && r == x.GRow(n) && c == x.GCol(n);
    var m :| 0 <= m < tl.Size() && r == y.GRow(m) && c == y.GCol(m);
    assert tl.InThread(t, n) && tl.InThread(t', m);
    var gx := x.GridX();
    GridNotEmpty(p, tl, b);
    SameDigits(b / gx, tl.RowOf(t, n), b' / gx, tl.RowOf(t', m), tl.BM);
    SameDigits(b % gx, tl.ColOf(t, n), b' % gx, tl.ColOf(t', m), tl.BN);
    SameBlock(b, b', gx);
  }

  lemma ProductPositive(x: nat, y: nat)
    ensures x * y > 0 ==> x > 0
  {}

  lemma GridNotEmpty(p: Problem, tl: Tiling, b: nat)
    requires tl.Sane() && b < Blocks(p, tl)
    ensures CeilDiv(p.N, tl.BN) > 0
  {
    ProductPositive(CeilDiv(p.N, tl.BN), CeilDiv(p.M, tl.BM));
  }

  lemma TouchOk(shape: Shape, p: Problem, tl: Tiling, b: nat, t: nat, ph: nat, c: Cell)
    requires Legal(shape, p, tl) && TouchedBy(KernelOf(shape, p, tl), b, t, ph, c)
    ensures MayLoad(Ctx(p, tl, b, t), ModeOf(shape, p, tl, ph), c)
      || MayStore(Ctx(p, tl, b, t), ModeOf(shape, p, tl, ph), c)
  {
    PhaseFits(shape, Ctx(p, tl, b, t), ph);
  }

  lemma WriteOk(shape: Shape, p: Problem, tl: Tiling, b: nat, t: nat, ph: nat, c: Cell)
    requires Legal(shape, p, tl) && WrittenBy(KernelOf(shape, p, tl), b, t, ph, c)
    ensures MayStore(Ctx(p, tl, b, t), ModeOf(shape, p, tl, ph), c)
  {
    PhaseFits(shape, Ctx(p, tl, b, t), ph);
  }

  lemma SharedWriters(shape: Shape, p: Problem, tl: Tiling, side: Side, b: nat, t: nat, ph: nat, b': nat, t': nat,
          ph': nat, c: Cell)
    requires Legal(shape, p, tl) && (if side == A then c.SA? else c.SB?)
    requires MayStore(Ctx(p, tl, b, t), ModeOf(shape, p, tl, ph), c)
    requires MayLoad(Ctx(p, tl, b', t'), ModeOf(shape, p, tl, ph'), c)
      || MayStore(Ctx(p, tl, b', t'), ModeOf(shape, p, tl, ph'), c)
    requires t < tl.threads && t' < tl.threads
    ensures b == b' && (ph == ph' ==> t == t')
  {
    var x, y := Ctx(p, tl, b, t), Ctx(p, tl, b', t');
    var buf := ModeOf(shape, p, tl, ph).writeBuf;
    var v, q :| v in tl.vecs(side, t) && 0 <= q < tl.width && c == x.LaneCell(side, buf, v, q);
    if MayStore(y, ModeOf(shape, p, tl, ph'), c) {
      var buf' := ModeOf(shape, p, tl, ph').writeBuf;
      var v', q' :| v' in tl.vecs(side, t') && 0 <= q' < tl.width && c == y.LaneCell(side, buf', v', q');
      assert c == x.LaneCell(side, buf, v', q');
      LaneVector(tl, x, side, buf, v, q, v', q');
    }
  }

  /** Every load of a kernel is inside A, B, C or the bias, when the rows of A are whole vectors too. */
  lemma LoadsInside(shape: Shape, p: Problem, tl: Tiling, b: nat, t: nat, ph: nat, n: nat)
    requires Legal(shape, p, tl) && p.K % tl.width == 0 && InGrid(KernelOf(shape, p, tl), b, t, ph)
    requires var code := KernelOf(shape, p, tl).code(b, t, ph); n < |code| && code[n].Load?
    ensures match KernelOf(shape, p, tl).code(b, t, ph)[n].src
            case GA(i, j) => 0 <= i < p.M && 0 <= j < p.K
            case GB(i, j) => 0 <= i < p.K && 0 <= j < p.N
            case GC(i, j) => InC(p, i, j)
            case Bias(j) => 0 <= j < p.N
            case _ => true
  {
    var x := Ctx(p, tl, b, t);
    PhaseFits(shape, x, ph);
    hide CodeOf;
    assert Fits(x, ModeOf(shape, p, tl, ph), CodeOf(shape, x, ph)[n]);
  }

  /** Within a phase no thread accesses a shared or C cell another thread writes, and blocks never
      meet at all: one barrier per K-tile suffices for the double-buffered shape. */
  lemma KernelRaceFree(shape: Shape, p: Problem, tl: Tiling)
    requires Legal(shape, p, tl)
    ensures RaceFree(KernelOf(shape, p, tl))
  {
    hide CodeOf;
    var k := KernelOf(shape, p, tl);
    forall b: nat, b': nat, t: nat, t': nat, ph: nat, ph': nat, c: Cell |
      WrittenBy(k, b, t, ph, c) && TouchedBy(k, b', t', ph', c)
      ensures b == b' && (ph == ph' ==> t == t')
    {
      WriteOk(shape, p, tl, b, t, ph, c);
      TouchOk(shape, p, tl, b', t', ph', c);
      WritersMeet(shape, p, tl, b, t, ph, b', t', ph', c);
    }
  }

  lemma WritersMeet(shape: Shape, p: Problem, tl: Tiling, b: nat, t: nat, ph: nat, b': nat, t': nat, ph': nat, c: Cell)
    requires Legal(shape, p, tl) && InLaunch(Ctx(p, tl, b, t)) && InLaunch(Ctx(p, tl, b', t'))
    requires MayStore(Ctx(p, tl, b, t), ModeOf(shape, p, tl, ph), c)
    requires MayLoad(Ctx(p, tl, b', t'), ModeOf(shape, p, tl, ph'), c)
      || MayStore(Ctx(p, tl, b', t'), ModeOf(shape, p, tl, ph'), c)
    ensures b == b' && (ph == ph' ==> t == t')
  {
    match c
    case GC(i, j) => SameOwner(p, tl, b, t, b', t', i, j);
    case SA(_, _, _, _) => SharedWriters(shape, p, tl, A, b, t, ph, b', t', ph', c);
    case SB(_, _, _, _) => SharedWriters(shape, p, tl, B, b, t, ph, b', t', ph', c);
    case _ =>
  }
}
