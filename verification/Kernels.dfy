/** The meaning of `trscd.gemm`: a left fold over ascending k that starts from C, and an epilogue. */
module GemmSpec {
  import opened Elements
  import opened Machine

  datatype Problem = Problem(M: nat, N: nat, K: nat, o: Arith, bias: bool, relu: bool)

  function Dot(p: Problem, mem: Mem, r: int, c: int, n: nat): Elem {
    if n == 0 then Read(mem, GC(r, c))
    else p.o.add(Dot(p, mem, r, c, n - 1), p.o.mul(Read(mem, GA(r, n - 1)), Read(mem, GB(n - 1, c))))
  }

  lemma DotNext(p: Problem, mem: Mem, r: int, c: int, k: nat)
    ensures Dot(p, mem, r, c, k + 1) == p.o.add(Dot(p, mem, r, c, k), p.o.mul(Read(mem, GA(r, k)), Read(mem, GB(k, c))))
  {}

  function Epilogue(p: Problem, mem: Mem, c: int, v: Elem): Elem {
    var v1 := if p.bias then p.o.add(v, Read(mem, Bias(c))) else v;
    if p.relu then p.o.max(v1, p.o.zero) else v1
  }

  function Gemm(p: Problem, mem: Mem, r: int, c: int): Elem {
    Epilogue(p, mem, c, Dot(p, mem, r, c, p.K))
  }

  predicate InC(p: Problem, r: int, c: int) {
    0 <= r < p.M && 0 <= c < p.N
  }

  /** `final` holds the GEMM of `mem` in C, and every other global cell as `mem` has it. */
  ghost predicate IsGemmOf(p: Problem, mem: Mem, final: Mem) {
    && (forall r, c :: InC(p, r, c) ==> Read(final, GC(r, c)) == Gemm(p, mem, r, c))
    && (forall r, c :: !InC(p, r, c) ==> Read(final, GC(r, c)) == Read(mem, GC(r, c)))
    && (forall r, c :: Read(final, GA(r, c)) == Read(mem, GA(r, c)) && Read(final, GB(r, c)) == Read(mem, GB(r, c)))
    && (forall c :: Read(final, Bias(c)) == Read(mem, Bias(c)))
  }
}

/** The two kernel shapes of the GEMM ladder, over any tiling: one shared tile with two barriers
    per K-tile (levels 3 to 6), and two buffers with one barrier per K-tile (levels 7 and 8). */
module Kernels {
  import opened Elements
  import opened Machine
  import opened GemmSpec

  /** A copied vector starts at tile position (k, x) and runs along k for A and along x for B. */
  datatype Vec = Vec(k: int, x: int)

  /** One unrolled prefetch slot; `live` is the tail guard of the last slot. */
  datatype Slot = Slot(vec: Vec, live: bool)

  /** A tiling gives every thread its accumulators and its share of the tile copies.
      `rowwise` is level 4's inner loop, which loads B's fragment first and A's one at a time. */
  datatype Tiling = Tiling(
    BM: nat, BN: nat, BK: nat, width: nat, threads: nat, rows: nat, cols: nat,
    transposed: bool, rowwise: bool,
    row: (int, int) -> int, col: (int, int) -> int,
    vecs: (Side, int) -> seq<Vec>, slots: (Side, int) -> seq<Slot>)
  {
    predicate Sane() {
      BM > 0 && BN > 0 && BK > 0 && width > 0 && threads > 0 && rows > 0 && cols > 0
    }

    function Size(): nat { rows * cols }

    function RowOf(t: int, n: int): int
      requires Sane()
    { row(t, n / cols) }

    function ColOf(t: int, n: int): int
      requires Sane()
    { col(t, n % cols) }

    predicate InThread(t: int, n: int) {
      0 <= t < threads && 0 <= n < Size()
    }

    /** A vector that starts on a multiple of the width and stays inside its tile. */
    predicate Aligned(side: Side, v: Vec)
      requires Sane()
    {
      match side
      case A => 0 <= v.k && v.k + width <= BK && v.k % width == 0 && 0 <= v.x < BM
      case B => 0 <= v.k < BK && 0 <= v.x && v.x + width <= BN && v.x % width == 0
    }

    ghost predicate Covers(r: int, c: int)
      requires Sane()
    {
      exists t, n :: InThread(t, n) && RowOf(t, n) == r && ColOf(t, n) == c
    }

    /** Every accumulator has its own place in the block tile, and the tile is covered. */
    ghost predicate Owns() {
      && Sane()
      && (forall t, n :: InThread(t, n) ==> 0 <= RowOf(t, n) < BM && 0 <= ColOf(t, n) < BN)
      && (forall t, n, t', n' ::
            (InThread(t, n) && InThread(t', n') && RowOf(t, n) == RowOf(t', n') && ColOf(t, n) == ColOf(t', n')) ==>
              t == t' && n == n')
      && (forall r, c :: 0 <= r < BM && 0 <= c < BN ==> Covers(r, c))
    }

    /** The threads' copies partition each tile. */
    ghost predicate Fills() {
      && Sane()
      && BK % width == 0 && BN % width == 0
      && (forall side, t, v :: 0 <= t < threads && v in vecs(side, t) ==> Aligned(side, v))
      && (forall side, t, t', v ::
            (0 <= t < threads && 0 <= t' < threads && v in vecs(side, t) && v in vecs(side, t')) ==> t == t')
      && (forall side, v :: Aligned(side, v) ==> exists t :: 0 <= t < threads && v in vecs(side, t))
    }

    /** The prefetch slots stage exactly the vectors the prologue copies. */
    ghost predicate Stages() {
      forall side, t, v :: 0 <= t < threads ==> (v in vecs(side, t) <==> Slot(v, true) in slots(side, t))
    }
  }

  function CeilDiv(n: nat, d: nat): nat
    requires d > 0
  {
    (n + d - 1) / d
  }

  /** One thread of a launch. */
  datatype Ctx = Ctx(p: Problem, tl: Tiling, b: nat, t: nat) {
    predicate Ok() { tl.Sane() }

    function GridX(): nat
      requires Ok()
    { CeilDiv(p.N, tl.BN) }

    function RowBase(): int
      requires Ok()
    { if GridX() == 0 then 0 else b / GridX() * tl.BM }

    function ColBase(): int
      requires Ok()
    { if GridX() == 0 then 0 else b % GridX() * tl.BN }

    function GRow(n: int): int
      requires Ok()
    { RowBase() + tl.RowOf(t, n) }

    function GCol(n: int): int
      requires Ok()
    { ColBase() + tl.ColOf(t, n) }

    /** Where tile position (k, x) lives in shared memory. */
    function TileCell(side: Side, buf: int, k: int, x: int): Cell {
      match side
      case A => if tl.transposed then SA(b, buf, k, x) else SA(b, buf, x, k)
      case B => SB(b, buf, k, x)
    }

    /** The operand cell that belongs at tile position (k, x) of the K-tile starting at bk. */
    function Source(side: Side, bk: int, k: int, x: int): Cell
      requires Ok()
    {
      match side
      case A => GA(RowBase() + x, bk + k)
      case B => GB(bk + k, ColBase() + x)
    }

    predicate InOperand(side: Side, bk: int, k: int, x: int)
      requires Ok()
    {
      match side
      case A => RowBase() + x < p.M && bk + k < p.K
      case B => bk + k < p.K && ColBase() + x < p.N
    }

    function LaneK(side: Side, v: Vec, q: int): int { if side == A then v.k + q else v.k }
    function LaneX(side: Side, v: Vec, q: int): int { if side == A then v.x else v.x + q }

    function LaneCell(side: Side, buf: int, v: Vec, q: int): Cell {
      TileCell(side, buf, LaneK(side, v, q), LaneX(side, v, q))
    }

    function LaneSource(side: Side, bk: int, v: Vec, q: int): Cell
      requires Ok()
    {
      Source(side, bk, LaneK(side, v, q), LaneX(side, v, q))
    }
  }

  // ----- the code between the barriers

  function InitCode(x: Ctx, n: nat): seq<Instr>
    requires x.Ok()
  {
    if n == 0 then []
    else
      InitCode(x, n - 1) +
      [if x.GRow(n - 1) < x.p.M && x.GCol(n - 1) < x.p.N then Load(Acc(n - 1), GC(x.GRow(n - 1), x.GCol(n - 1)))
       else Const(Acc(n - 1), x.p.o.zero)]
  }

  function LaneLoads(x: Ctx, side: Side, bk: int, v: Vec, s: int, n: nat): seq<Instr>
    requires x.Ok()
  {
    if n == 0 then []
    else LaneLoads(x, side, bk, v, s, n - 1) + [Load(Stage(side, s, n - 1), x.LaneSource(side, bk, v, n - 1))]
  }

  function LaneStores(x: Ctx, side: Side, buf: int, v: Vec, s: int, n: nat): seq<Instr> {
    if n == 0 then []
    else LaneStores(x, side, buf, v, s, n - 1) + [Store(x.LaneCell(side, buf, v, n - 1), Stage(side, s, n - 1))]
  }

  function LaneZeros(x: Ctx, side: Side, s: int, n: nat): seq<Instr> {
    if n == 0 then [] else LaneZeros(x, side, s, n - 1) + [Const(Stage(side, s, n - 1), x.p.o.zero)]
  }

  /** The bounds test on a vector looks at its first lane only. */
  predicate Guard(x: Ctx, side: Side, bk: int, v: Vec)
    requires x.Ok()
  {
    x.InOperand(side, bk, v.k, v.x)
  }

  function CopyCode(x: Ctx, side: Side, buf: int, bk: int, vs: seq<Vec>): seq<Instr>
    requires x.Ok()
  {
    if vs == [] then []
    else
      var v := vs[|vs| - 1];
      CopyCode(x, side, buf, bk, vs[..|vs| - 1]) +
      if Guard(x, side, bk, v) then
        LaneLoads(x, side, bk, v, 0, x.tl.width) + LaneStores(x, side, buf, v, 0, x.tl.width)
      else []
  }

  function CopyTiles(x: Ctx, buf: int, bk: int): seq<Instr>
    requires x.Ok()
  {
    CopyCode(x, A, buf, bk, x.tl.vecs(A, x.t)) + CopyCode(x, B, buf, bk, x.tl.vecs(B, x.t))
  }

  predicate Staged(x: Ctx, side: Side, bk: int, slot: Slot)
    requires x.Ok()
  {
    bk < x.p.K && Guard(x, side, bk, slot.vec) && slot.live
  }

  function PrefetchCode(x: Ctx, side: Side, bk: int, n: nat): seq<Instr>
    requires x.Ok() && n <= |x.tl.slots(side, x.t)|
  {
    if n == 0 then []
    else
      var slot := x.tl.slots(side, x.t)[n - 1];
      PrefetchCode(x, side, bk, n - 1) +
      if Staged(x, side, bk, slot) then LaneLoads(x, side, bk, slot.vec, n - 1, x.tl.width)
      else LaneZeros(x, side, n - 1, x.tl.width)
  }

  function CommitCode(x: Ctx, side: Side, buf: int, bk: int, n: nat): seq<Instr>
    requires x.Ok() && n <= |x.tl.slots(side, x.t)|
  {
    if n == 0 then []
    else
      var slot := x.tl.slots(side, x.t)[n - 1];
      CommitCode(x, side, buf, bk, n - 1) +
      if Staged(x, side, bk, slot) then LaneStores(x, side, buf, slot.vec, n - 1, x.tl.width) else []
  }

  function FragLoad(x: Ctx, side: Side, buf: int, k: int, i: int): Instr {
    Load(Frag(side, i), x.TileCell(side, buf, k, if side == A then x.tl.row(x.t, i) else x.tl.col(x.t, i)))
  }

  function FragCode(x: Ctx, side: Side, buf: int, k: int, n: nat): seq<Instr> {
    if n == 0 then [] else FragCode(x, side, buf, k, n - 1) + [FragLoad(x, side, buf, k, n - 1)]
  }

  function Fma(x: Ctx, n: int): seq<Instr>
    requires x.Ok()
  {
    [Mul(Tmp, Frag(A, n / x.tl.cols), Frag(B, n % x.tl.cols)), Add(Acc(n), Acc(n), Tmp)]
  }

  function FmaCode(x: Ctx, n: nat): seq<Instr>
    requires x.Ok()
  {
    if n == 0 then [] else FmaCode(x, n - 1) + Fma(x, n - 1)
  }

  /** Level 4: each row's A fragment is loaded right before its multiply. */
  function RowwiseCode(x: Ctx, buf: int, k: int, n: nat): seq<Instr>
    requires x.Ok()
  {
    if n == 0 then [] else RowwiseCode(x, buf, k, n - 1) + ([FragLoad(x, A, buf, k, n - 1)] + Fma(x, n - 1))
  }

  function InnerCode(x: Ctx, buf: int, k: int): seq<Instr>
    requires x.Ok()
  {
    if x.tl.rowwise then FragCode(x, B, buf, k, 1) + RowwiseCode(x, buf, k, x.tl.rows)
    else FragCode(x, A, buf, k, x.tl.rows) + FragCode(x, B, buf, k, x.tl.cols) + FmaCode(x, x.tl.Size())
  }

  function TileCode(x: Ctx, buf: int, n: nat): seq<Instr>
    requires x.Ok()
  {
    if n == 0 then [] else TileCode(x, buf, n - 1) + InnerCode(x, buf, n - 1)
  }

  function StoreAt(x: Ctx, n: int): seq<Instr>
    requires x.Ok()
  {
    if x.GRow(n) < x.p.M && x.GCol(n) < x.p.N then
      var out := if x.p.bias || x.p.relu then Out else Acc(n);
      (if x.p.bias then [Load(Tmp, Bias(x.GCol(n))), Add(Out, Acc(n), Tmp)] else []) +
      (if x.p.relu then [Const(Zero, x.p.o.zero), Max(Out, if x.p.bias then Out else Acc(n), Zero)] else []) +
      [Store(GC(x.GRow(n), x.GCol(n)), out)]
    else []
  }

  function StoreCode(x: Ctx, n: nat): seq<Instr>
    requires x.Ok()
  {
    if n == 0 then [] else StoreCode(x, n - 1) + StoreAt(x, n - 1)
  }

  // ----- the two shapes

  function Tiles(p: Problem, tl: Tiling): nat
    requires tl.Sane()
  {
    CeilDiv(p.K, tl.BK)
  }

  function Blocks(p: Problem, tl: Tiling): nat
    requires tl.Sane()
  {
    CeilDiv(p.N, tl.BN) * CeilDiv(p.M, tl.BM)
  }

  /** `Single` has one shared tile and two barriers per K-tile; `Double` has two buffers and one. */
  datatype Shape = Single | Double

  function Phases(shape: Shape, p: Problem, tl: Tiling): nat
    requires tl.Sane()
  {
    if shape == Single then 2 * Tiles(p, tl) + 1 else Tiles(p, tl) + 2
  }

  /** Phase 2i copies K-tile i, phase 2i+1 consumes it, the last phase stores. */
  function SingleCode(x: Ctx, ph: nat): seq<Instr>
    requires x.Ok()
  {
    (if ph == 0 then InitCode(x, x.tl.Size()) else []) +
    if ph >= 2 * Tiles(x.p, x.tl) then StoreCode(x, x.tl.Size())
    else if ph % 2 == 0 then CopyTiles(x, 0, ph / 2 * x.tl.BK)
    else TileCode(x, 0, x.tl.BK)
  }

  function PrefetchTiles(x: Ctx, bk: int): seq<Instr>
    requires x.Ok()
  {
    PrefetchCode(x, A, bk, |x.tl.slots(A, x.t)|) + PrefetchCode(x, B, bk, |x.tl.slots(B, x.t)|)
  }

  function CommitTiles(x: Ctx, buf: int, bk: int): seq<Instr>
    requires x.Ok()
  {
    CommitCode(x, A, buf, bk, |x.tl.slots(A, x.t)|) + CommitCode(x, B, buf, bk, |x.tl.slots(B, x.t)|)
  }

  /** Phase 0 fills buffer 0; phase i+1 stages K-tile i+1 in registers, consumes buffer i mod 2 and
      commits the registers to the other buffer; the last phase stores. */
  function DoubleCode(x: Ctx, ph: nat): seq<Instr>
    requires x.Ok()
  {
    if ph == 0 then InitCode(x, x.tl.Size()) + CopyTiles(x, 0, 0)
    else if ph <= Tiles(x.p, x.tl) then
      PrefetchTiles(x, ph * x.tl.BK) + TileCode(x, (ph - 1) % 2, x.tl.BK)
          + CommitTiles(x, 1 - (ph - 1) % 2, ph * x.tl.BK)
    else StoreCode(x, x.tl.Size())
  }

  function CodeOf(shape: Shape, x: Ctx, ph: nat): seq<Instr>
    requires x.Ok()
  {
    if shape == Single then SingleCode(x, ph) else DoubleCode(x, ph)
  }

  function KernelOf(shape: Shape, p: Problem, tl: Tiling): Kernel
    requires tl.Sane()
  {
    Kernel(Blocks(p, tl), tl.threads, Phases(shape, p, tl),
        (b: nat, t: nat, ph: nat) => CodeOf(shape, Ctx(p, tl, b, t), ph))
  }
}
