/** Level 2: a thread per element of C, which it loads and stores once per step of k. */
module LevelTwo {
  import opened Arithmetic
  import opened Elements
  import opened Machine
  import opened GemmSpec
  import opened Kernels
  import opened KernelRaces
  import opened ThreadMeaning
  import opened Levels
  import opened KernelCorrect

  /** One step of k: load, multiply, add, the epilogue, and the store. */
  function StepCode(x: Ctx, k: int): seq<Instr>
    requires x.Ok()
  {
    var c := GC(x.GRow(0), x.GCol(0));
    [Load(Frag(A, 0), GA(x.GRow(0), k)), Load(Frag(B, 0), GB(k, x.GCol(0))), Load(Acc(0), c),
     Mul(Tmp, Frag(A, 0), Frag(B, 0)), Add(Acc(0), Acc(0), Tmp)] + StoreAt(x, 0)
  }

  function LoopCode(x: Ctx, n: nat): seq<Instr>
    requires x.Ok()
  {
    if n == 0 then [] else LoopCode(x, n - 1) + StepCode(x, n - 1)
  }

  function Level2Code(x: Ctx): seq<Instr>
    requires x.Ok()
  {
    if Stored(x, 0) then LoopCode(x, x.p.K) else []
  }

  function Level2Kernel(p: Problem, tl: Tiling): Kernel
    requires tl.Sane()
  {
    Kernel(Blocks(p, tl), tl.threads, 1, (b: nat, t: nat, ph: nat) => Level2Code(Ctx(p, tl, b, t)))
  }

  /** What level 2 leaves in C: the epilogue is applied at every step. */
  function SteppedDot(p: Problem, mem: Mem, r: int, c: int, n: nat): Elem {
    if n == 0 then Read(mem, GC(r, c))
    else Epilogue(p, mem, c,
      p.o.add(SteppedDot(p, mem, r, c, n - 1), p.o.mul(Read(mem, GA(r, n - 1)), Read(mem, GB(n - 1, c)))))
  }

  const QUIET := Mode(-1, -1, true)

  lemma {:induction false} LoopFits(x: Ctx, n: nat)
    requires x.Ok() && x.tl.Owns() && InLaunch(x) && Stored(x, 0) && n <= x.p.K
    ensures CodeFits(x, QUIET, LoopCode(x, n))
  {
    if n > 0 {
      LoopFits(x, n - 1);
      OwnsAt(x, 0);
      BasesNonNegative(x);
      assert x.tl.InThread(x.t, 0);
      assert CodeFits(x, QUIET, StepCode(x, n - 1));
      FitsConcat(x, QUIET, LoopCode(x, n - 1), StepCode(x, n - 1));
    }
  }

  lemma Level2RaceFree(p: Problem, tl: Tiling)
    requires tl.Owns()
    ensures RaceFree(Level2Kernel(p, tl))
  {
    var k := Level2Kernel(p, tl);
    forall b: nat, b': nat, t: nat, t': nat, ph: nat, ph': nat, c: Cell |
      WrittenBy(k, b, t, ph, c) && TouchedBy(k, b', t', ph', c)
      ensures b == b' && t == t'
    {
      var x, y := Ctx(p, tl, b, t), Ctx(p, tl, b', t');
      LoopFits(x, p.K);
      LoopFits(y, p.K);
      assert MayStore(x, QUIET, c) && (MayLoad(y, QUIET, c) || MayStore(y, QUIET, c));
      SameOwner(p, tl, b, t, b', t', c.r, c.c);
    }
  }

  lemma StepEval(x: Ctx, k: int, v: View)
    requires x.Ok() && Stored(x, 0)
    ensures var w, c := Solo(x.p.o, StepCode(x, k), v), GC(x.GRow(0), x.GCol(0));
      && Read(w.mem, c) == Epilogue(x.p, v.mem, x.GCol(0),
           x.p.o.add(Read(v.mem, c), x.p.o.mul(Read(v.mem, GA(x.GRow(0), k)), Read(v.mem, GB(k, x.GCol(0))))))
      && forall c' :: c' != c ==> Read(w.mem, c') == Read(v.mem, c')
  {
    var o, c := x.p.o, GC(x.GRow(0), x.GCol(0));
    var pre := [Load(Frag(A, 0), GA(x.GRow(0), k)), Load(Frag(B, 0), GB(k, x.GCol(0))), Load(Acc(0), c),
                Mul(Tmp, Frag(A, 0), Frag(B, 0)), Add(Acc(0), Acc(0), Tmp)];
    SoloConcat(o, pre, StoreAt(x, 0), v);
    assert pre == [pre[0], pre[1]] + [pre[2], pre[3]] + [pre[4]];
    SoloSnoc(o, [pre[0], pre[1]] + [pre[2], pre[3]], pre[4], v);
    SoloConcat(o, [pre[0], pre[1]], [pre[2], pre[3]], v);
    TwoSteps(o, [pre[0], pre[1]], v);
    TwoSteps(o, [pre[2], pre[3]], Solo(o, [pre[0], pre[1]], v));
    StoreAtEval(x, 0, Solo(o, pre, v));
  }

  lemma {:induction false} LoopEval(x: Ctx, n: nat, v: View)
    requires x.Ok() && Stored(x, 0)
    ensures var w, c := Solo(x.p.o, LoopCode(x, n), v), GC(x.GRow(0), x.GCol(0));
      && Read(w.mem, c) == SteppedDot(x.p, v.mem, x.GRow(0), x.GCol(0), n)
      && forall c' :: c' != c ==> Read(w.mem, c') == Read(v.mem, c')
  {
    hide Solo, StepCode;
    if n == 0 {
      SoloNone(x.p.o, v);
    } else {
      LoopEval(x, n - 1, v);
      var u := Solo(x.p.o, LoopCode(x, n - 1), v);
      SoloConcat(x.p.o, LoopCode(x, n - 1), StepCode(x, n - 1), v);
      StepEval(x, n - 1, u);
    }
  }

  lemma Level2Phase(p: Problem, tl: Tiling, mem: Mem, final: Mem, r: int, c: int)
    requires tl.Owns() && tl.Size() == 1 && Settled(Level2Kernel(p, tl), p.o, mem, final) && InC(p, r, c)
    ensures Read(final, GC(r, c)) == SteppedDot(p, mem, r, c, p.K)
  {
    hide Solo, LoopCode, SteppedDot;
    var k := Level2Kernel(p, tl);
    var b, t, n := OwnerOf(Launch(Single, p, tl, mem), r, c);
    var x, cell := Ctx(p, tl, b, t), GC(r, c);
    Level2RaceFree(p, tl);
    LoopFits(x, p.K);
    LoopEval(x, p.K, View(mem, map[]));
    forall b': nat, t': nat, ph: nat | WrittenBy(k, b', t', ph, cell)
      ensures b' == b && t' == t
    {
      var y := Ctx(p, tl, b', t');
      LoopFits(y, p.K);
      assert MayStore(y, QUIET, cell);
      assert OwnsC(x, r, c);
      SameOwner(p, tl, b, t, b', t', r, c);
    }
    assert !ForeignWrites(k, b, cell);
    if cell in Writes(k.code(b, t, 0)) {
      forall t': nat | t' < k.threads && t' != t
        ensures cell !in Writes(k.code(b, t', 0))
      {
        assert !WrittenBy(k, b, t', 0, cell);
      }
      MergeWritten(k, p.o, mem, b, 0, k.threads, t, cell);
    } else {
      forall t': nat | t' < k.threads
        ensures cell !in Writes(k.code(b, t', 0))
      {
        assert !WrittenBy(k, b, t', 0, cell) || t' == t;
      }
      MergeUnwritten(k, p.o, mem, b, 0, k.threads, cell);
      SoloFrame(p.o, k.code(b, t, 0), View(mem, map[]), cell);
    }
  }

  lemma Level2Elsewhere(p: Problem, tl: Tiling, mem: Mem, final: Mem, c: Cell)
    requires tl.Owns() && Settled(Level2Kernel(p, tl), p.o, mem, final)
    requires !(c.GC? && InC(p, c.r, c.c))
    ensures Read(final, c) == Read(mem, c)
  {
    hide Solo, LoopCode;
    var k := Level2Kernel(p, tl);
    forall b: nat, t: nat, ph: nat
      ensures !WrittenBy(k, b, t, ph, c)
    {
      if b < k.blocks && t < k.threads { LoopFitsIfStored(Ctx(p, tl, b, t)); }
    }
    if k.blocks > 0 {
      assert !ForeignWrites(k, 0, c);
      forall t: nat, ph: nat | t < k.threads && ph < k.phases
        ensures c !in Writes(k.code(0, t, ph))
      {
        assert !WrittenBy(k, 0, t, ph, c);
      }
      PhaseMemUnwritten(k, p.o, mem, 0, k.phases, c);
    }
  }

  lemma LoopFitsIfStored(x: Ctx)
    requires x.Ok() && x.tl.Owns() && InLaunch(x)
    ensures forall c :: c in Writes(Level2Code(x)) ==> c.GC? && InC(x.p, c.r, c.c)
  {
    if Stored(x, 0) { LoopFits(x, x.p.K); }
  }

  lemma {:induction false} SteppedIsDot(p: Problem, mem: Mem, r: int, c: int, n: nat)
    requires !p.bias && !p.relu
    ensures SteppedDot(p, mem, r, c, n) == Dot(p, mem, r, c, n)
  {
    if n > 0 { SteppedIsDot(p, mem, r, c, n - 1); }
  }

  /** Level 2 computes the GEMM when there is no epilogue, or a single step of k. */
  lemma Level2ComputesGemm(p: Problem, tl: Tiling, mem: Mem, final: Mem)
    requires tl.Owns() && tl.Size() == 1 && Settled(Level2Kernel(p, tl), p.o, mem, final)
    requires (!p.bias && !p.relu) || p.K == 1
    ensures IsGemmOf(p, mem, final)
  {
    hide Settled, Level2Kernel;
    forall r, c | InC(p, r, c)
      ensures Read(final, GC(r, c)) == Gemm(p, mem, r, c)
    {
      Level2Phase(p, tl, mem, final, r, c);
      if p.K == 1 {
        assert SteppedDot(p, mem, r, c, 0) == Dot(p, mem, r, c, 0) == Read(mem, GC(r, c));
      } else {
        SteppedIsDot(p, mem, r, c, p.K);
      }
    }
    forall c: Cell | !(c.GC? && InC(p, c.r, c.c))
      ensures Read(final, c) == Read(mem, c)
    {
      Level2Elsewhere(p, tl, mem, final, c);
    }
  }

  lemma {:induction false} SteppedCounts(p: Problem, mem: Mem, r: int, c: int, n: nat)
    requires p.o == Counting()
    ensures SteppedDot(p, mem, r, c, n).code == Read(mem, GC(r, c)).code + n * (1 + EpilogueSteps(p))
  {
    if n > 0 { SteppedCounts(p, mem, r, c, n - 1); }
  }

  /** The level 2 kernel computes the GEMM whatever the arithmetic, under every schedule. */
  ghost predicate Level2Always(p: Problem, tl: Tiling, mem: Mem)
    requires tl.Sane()
  {
    forall o: Arith, states: seq<State>, moves: seq<Move> ::
      var k := Level2Kernel(p.(o := o), tl);
      IsRun(k, o, mem, states, moves) && Done(k, states[|moves|]) ==> IsGemmOf(p.(o := o), mem, states[|moves|].mem)
  }

  /** A counting arithmetic sees an epilogue applied in every step. */
  lemma EpilogueShows(p: Problem, tl: Tiling, mem: Mem, final: Mem)
    requires tl.Owns() && tl.Size() == 1 && Settled(Level2Kernel(p, tl), p.o, mem, final) && p.o == Counting()
    requires (p.bias || p.relu) && p.K != 1 && p.M > 0 && p.N > 0
    ensures !IsGemmOf(p, mem, final)
  {
    hide Settled, Level2Kernel, SteppedDot, Dot;
    Level2Phase(p, tl, mem, final, 0, 0);
    SteppedCounts(p, mem, 0, 0, p.K);
    DotCounts(p, mem, 0, 0, p.K);
    var e := EpilogueSteps(p);
    assert p.K * (1 + e) == p.K + p.K * e;
    if p.K > 1 { MulMono(2, p.K, e); }
    assert Read(final, GC(0, 0)).code != Gemm(p, mem, 0, 0).code;
  }

  lemma Level2Empty(p: Problem, tl: Tiling, mem: Mem, final: Mem)
    requires tl.Owns() && tl.Size() == 1 && Settled(Level2Kernel(p, tl), p.o, mem, final) && (p.M == 0 || p.N == 0)
    ensures IsGemmOf(p, mem, final)
  {
    hide Settled, Level2Kernel;
    forall c: Cell
      ensures Read(final, c) == Read(mem, c)
    {
      Level2Elsewhere(p, tl, mem, final, c);
    }
  }

  /** Level 2 applies the epilogue inside the k loop, so it computes the GEMM for every arithmetic
      exactly when there is no epilogue, or K is 1, or C is empty. */
  lemma Level2Exact(p: Problem, tl: Tiling, mem: Mem)
    requires tl.Owns() && tl.Size() == 1
    ensures Level2Always(p, tl, mem) <==> (!p.bias && !p.relu) || p.K == 1 || p.M == 0 || p.N == 0
  {
    hide Settled, Level2Kernel, IsGemmOf;
    if (!p.bias && !p.relu) || p.K == 1 || p.M == 0 || p.N == 0 {
      forall o: Arith, states: seq<State>, moves: seq<Move> |
        var k := Level2Kernel(p.(o := o), tl); IsRun(k, o, mem, states, moves) && Done(k, states[|moves|])
        ensures IsGemmOf(p.(o := o), mem, states[|moves|].mem)
      {
        var final := states[|moves|].mem;
        Level2RaceFree(p.(o := o), tl);
        ScheduleIndependence(Level2Kernel(p.(o := o), tl), o, mem, states, moves);
        if p.M == 0 || p.N == 0 { Level2Empty(p.(o := o), tl, mem, final); }
        else { Level2ComputesGemm(p.(o := o), tl, mem, final); }
      }
    } else {
      var q := p.(o := Counting());
      Level2RaceFree(q, tl);
      var states, moves := FinishedRun(Level2Kernel(q, tl), q.o, mem);
      ScheduleIndependence(Level2Kernel(q, tl), q.o, mem, states, moves);
      EpilogueShows(q, tl, mem, states[|moves|].mem);
    }
  }
}

/** The GEMM ladder: every level leaves the same global memory. */
module Ladder {
  import opened Elements
  import opened Machine
  import opened GemmSpec
  import opened Kernels
  import opened KernelRaces
  import opened Levels
  import opened KernelCorrect
  import opened LevelTwo
  import LevelOne

  /** A level with its tile sizes. */
  datatype Rung =
    | L2(tx: Pos, ty: Pos) | L3(n: Pos) | L4(cfg: BlockCfg) | L5(cfg: BlockCfg)
    | L6(cfg: BlockCfg) | L7(cfg: BlockCfg) | L8(warp: WarpCfg)
  {
    /** The shapes each level's index arithmetic supports. */
    predicate WellShaped() {
      match this
      case L2(_, _) => true
      case L3(_) => true
      case L4(c) => c.Ok() && c.TN == 1
      case L5(c) => c.Ok()
      case L6(c) => c.Ok() && c.BK % 4 == 0 && c.BN % 4 == 0
      case L7(c) => c.Ok() && c.BK % 4 == 0 && c.BN % 4 == 0
      case L8(_) => true
    }

    function Tiling(): (tl: Tiling)
      requires WellShaped()
      ensures tl.Sane()
    {
      match this
      case L2(tx, ty) => Levels.Level2(tx, ty)
      case L3(n) => Levels.Level3(n)
      case L4(c) => Levels.Level4(c)
      case L5(c) => Levels.Level5(c)
      case L6(c) => Levels.Level67(c)
      case L7(c) => Levels.Level67(c)
      case L8(w) => Levels.Level8(Chosen(w))
    }

    function Shape(): Shape { if L7? || L8? then Double else Single }

    /** Rows of B in whole vectors, at the levels that load vectors. */
    predicate WholeRows(p: Problem) { L6? || L7? || L8? ==> p.N % 4 == 0 }

    /** What a level asks of the problem besides: whole K-tiles, and at level 2 no epilogue. */
    predicate Suits(p: Problem)
      requires WellShaped()
    {
      WholeRows(p) && if L2? then !p.bias && !p.relu else p.K % Tiling().BK == 0
    }

    /** Where a level computes the GEMM for every arithmetic. */
    predicate Covers(p: Problem)
      requires WellShaped()
    {
      p.M == 0 || p.N == 0 || if L2? then (!p.bias && !p.relu) || p.K == 1 else p.K % Tiling().BK == 0
    }

    function Kernel(p: Problem): Kernel
      requires WellShaped()
    {
      if L2? then Level2Kernel(p, Tiling()) else KernelOf(Shape(), p, Tiling())
    }
  }

  /** The tile, the threads and the template of each level. */
  lemma RungIs(r: Rung)
    requires r.WellShaped()
    ensures var tl := r.Tiling();
      && (r.Shape() == Double <==> r.L7? || r.L8?)
      && tl.width == (if r.L6? || r.L7? || r.L8? then 4 else 1)
      && (tl.transposed <==> r.L6? || r.L7? || r.L8?) && (tl.rowwise <==> r.L4?)
      && match r
         case L2(tx, ty) => tl.BM == ty && tl.BN == tx && tl.threads == ty * tx && tl.rows == tl.cols == 1
         case L3(n) => tl.BM == tl.BN == tl.BK == n && tl.threads == n * n && tl.rows == tl.cols == 1
         case L8(w) =>
           var c := if w.DeriveOk() then w else WarpCfg(64, 64, 16, 4, 4, 32, 32, 2);
           && tl.BM == c.BM && tl.BN == c.BN && tl.BK == c.BK && tl.threads == c.BM / c.WM * (c.BN / c.WN) * 32
           && tl.rows * c.LaneRows() == c.WM && tl.cols * c.LaneCols() == c.WN
         case _ =>
           var c := r.cfg;
           && tl.BM == c.BM && tl.BN == c.BN && tl.BK == c.BK && tl.threads == c.BM / c.TM * (c.BN / c.TN)
           && tl.rows == c.TM && tl.cols == c.TN
  {
    hide Levels.Level8, WarpCfg.DeriveOk, WarpCfg.LaneRows, WarpCfg.LaneCols;
    if r.L8? { WarpTile(Chosen(r.warp)); }
  }

  lemma WarpTile(c: WarpCfg)
    requires c.DeriveOk()
    ensures var tl := Levels.Level8(c);
      && tl.BM == c.BM && tl.BN == c.BN && tl.BK == c.BK && tl.threads == c.BM / c.WM * (c.BN / c.WN) * 32
      && tl.width == 4 && tl.transposed && !tl.rowwise
      && tl.rows * c.LaneRows() == c.WM && tl.cols * c.LaneCols() == c.WN
  {
    WarpSizes(c);
    var tl := Levels.Level8(c);
    assert tl.rows == c.WMITER() * c.TM && tl.cols == c.WNITER * c.TN && tl.threads == c.Threads();
    hide Levels.Level8, WarpCfg.DeriveOk, WarpCfg.LaneRows, WarpCfg.LaneCols, WarpCfg.WMITER, WarpCfg.WSUBN;
    Regroup(c.WMITER(), c.TM, c.LaneRows());
    Regroup(c.WNITER, c.TN, c.LaneCols());
  }

  lemma Regroup(x: int, y: int, z: int)
    ensures x * y * z == x * (z * y)
  {}

  lemma RungLegal(r: Rung)
    requires r.WellShaped()
    ensures r.Tiling().Owns() && (!r.L2? ==> r.Tiling().Fills()) && (r.Shape() == Double ==> r.Tiling().Stages())
  {
    match r
    case L2(tx, ty) => Level2Owns(tx, ty);
    case L3(n) => Level3Legal(n);
    case L4(c) => BlockLegal(c, 1, false, true);
    case L5(c) => BlockLegal(c, 1, false, false);
    case L6(c) => BlockLegal(c, 4, true, false);
    case L7(c) => BlockLegal(c, 4, true, false);
    case L8(w) => WarpLegal(Chosen(w));
  }

  lemma RungLaunch(r: Rung, p: Problem, mem: Mem)
    requires r.WellShaped() && !r.L2? && r.WholeRows(p)
    ensures Launch(r.Shape(), p, r.Tiling(), mem).Ok()
  {
    RungLegal(r);
  }

  lemma RungRaceFree(r: Rung, p: Problem)
    requires r.WellShaped() && r.WholeRows(p)
    ensures RaceFree(r.Kernel(p))
  {
    RungLegal(r);
    if r.L2? {
      Level2RaceFree(p, r.Tiling());
    } else {
      RungLaunch(r, p, map[]);
      KernelRaceFree(r.Shape(), p, r.Tiling());
    }
  }

  lemma RungSettles(r: Rung, p: Problem, mem: Mem, final: Mem)
    requires r.WellShaped() && r.Suits(p) && Settled(r.Kernel(p), p.o, mem, final)
    ensures IsGemmOf(p, mem, final)
  {
    RungLegal(r);
    if r.L2? {
      Level2ComputesGemm(p, r.Tiling(), mem, final);
    } else {
      RungLaunch(r, p, mem);
      KernelComputesGemm(Launch(r.Shape(), p, r.Tiling(), mem), final);
    }
  }

  /** Every interleaving of every level ends with the GEMM in C and nothing else changed. */
  lemma EveryRunComputesGemm(r: Rung, p: Problem, mem: Mem, states: seq<State>, moves: seq<Move>)
    requires r.WellShaped() && r.Suits(p)
    requires IsRun(r.Kernel(p), p.o, mem, states, moves) && Done(r.Kernel(p), states[|moves|])
    ensures IsGemmOf(p, mem, states[|moves|].mem)
  {
    RungRaceFree(r, p);
    ScheduleIndependence(r.Kernel(p), p.o, mem, states, moves);
    RungSettles(r, p, mem, states[|moves|].mem);
  }

  /** The level computes the GEMM whatever the arithmetic, under every schedule. */
  ghost predicate AlwaysRight(r: Rung, p: Problem, mem: Mem)
    requires r.WellShaped()
  {
    forall o: Arith, states: seq<State>, moves: seq<Move> ::
      var k := r.Kernel(p.(o := o));
      IsRun(k, o, mem, states, moves) && Done(k, states[|moves|]) ==> IsGemmOf(p.(o := o), mem, states[|moves|].mem)
  }

  /** Every level, at every tile shape: right for every arithmetic and schedule exactly when BK divides
      K, or at level 2 when there is no epilogue or K is 1, or when C is empty. */
  lemma LadderExact(r: Rung, p: Problem, mem: Mem)
    requires r.WellShaped() && r.WholeRows(p)
    ensures AlwaysRight(r, p, mem) <==> r.Covers(p)
  {
    hide IsRun, Done, IsGemmOf, Level2Kernel, KernelOf;
    RungLegal(r);
    if r.L2? {
      Level2Exact(p, r.Tiling(), mem);
    } else {
      KTailExact(r.Shape(), p, r.Tiling(), mem);
    }
  }

  /** Memories that hold the same GEMM agree on every global cell. */
  lemma GemmUnique(p: Problem, mem: Mem, final: Mem, final': Mem, c: Cell)
    requires IsGemmOf(p, mem, final) && IsGemmOf(p, mem, final') && !c.SA? && !c.SB?
    ensures Read(final, c) == Read(final', c)
  {
    if c.GC? { assert InC(p, c.r, c.c) || !InC(p, c.r, c.c); }
  }

  /** Any two levels, under any two schedules, agree on every global cell. */
  lemma LadderEquivalence(r: Rung, r': Rung, p: Problem, mem: Mem, states: seq<State>, moves: seq<Move>,
                          states': seq<State>, moves': seq<Move>, c: Cell)
    requires r.WellShaped() && r.Suits(p) && r'.WellShaped() && r'.Suits(p)
    requires IsRun(r.Kernel(p), p.o, mem, states, moves) && Done(r.Kernel(p), states[|moves|])
    requires IsRun(r'.Kernel(p), p.o, mem, states', moves') && Done(r'.Kernel(p), states'[|moves'|])
    requires !c.SA? && !c.SB?
    ensures Read(states[|moves|].mem, c) == Read(states'[|moves'|].mem, c)
  {
    EveryRunComputesGemm(r, p, mem, states, moves);
    EveryRunComputesGemm(r', p, mem, states', moves');
    GemmUnique(p, mem, states[|moves|].mem, states'[|moves'|].mem, c);
  }

  /** The other levels leave what level 1 left in `final`. */
  ghost predicate Agrees(p: Problem, mem: Mem, final: Mem) {
    forall r: Rung, states: seq<State>, moves: seq<Move>, c: Cell ::
      r.WellShaped() && r.Suits(p) && IsRun(r.Kernel(p), p.o, mem, states, moves) && Done(r.Kernel(p), states[|moves|])
      && !c.SA? && !c.SB? ==>
        Read(final, c) == Read(states[|moves|].mem, c)
  }

  /** Level 1 on the host, and what every finished run of every other level makes of the same operands. */
  method Level1AndLadder(p: Problem, A: array2<Elem>, B: array2<Elem>, C: array2<Elem>, bias: array<Elem>)
    requires LevelOne.Conform(p, A, B, C, bias) && C != A && C != B
    modifies C
    ensures Agrees(p, old(LevelOne.MemOf(A, B, C, bias)), LevelOne.MemOf(A, B, C, bias))
  {
    ghost var mem := LevelOne.MemOf(A, B, C, bias);
    LevelOne.Level1(p, A, B, C, bias);
    ghost var final := LevelOne.MemOf(A, B, C, bias);
    LevelOneAgrees(p, mem, final);
  }

  lemma LevelOneAgrees(p: Problem, mem: Mem, final: Mem)
    requires IsGemmOf(p, mem, final)
    ensures Agrees(p, mem, final)
  {
    hide IsGemmOf;
    forall r: Rung, states: seq<State>, moves: seq<Move>, c: Cell |
      r.WellShaped() && r.Suits(p) && IsRun(r.Kernel(p), p.o, mem, states, moves) && Done(r.Kernel(p), states[|moves|])
      && !c.SA? && !c.SB?
      ensures Read(final, c) == Read(states[|moves|].mem, c)
    {
      EveryRunComputesGemm(r, p, mem, states, moves);
      GemmUnique(p, mem, final, states[|moves|].mem, c);
    }
  }

  /** A level as it is launched: some schedule runs it to the end. */
  method RunLevel(r: Rung, p: Problem, mem: Mem) returns (final: Mem)
    requires r.WellShaped() && r.Suits(p)
    ensures IsGemmOf(p, mem, final)
  {
    RungRaceFree(r, p);
    final := Machine.Launch(r.Kernel(p), p.o, mem);
    RungSettles(r, p, mem, final);
  }
}
