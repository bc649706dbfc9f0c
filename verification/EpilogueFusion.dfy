/** Fusing an elementwise bias-add and ReLU over C into the GEMM that produced C. */
module EpilogueFusion {
  import opened LoopIR
  import opened Wrappers
  import opened Nests
  import opened Elements
  import opened GemmSpec
  import opened Ladder
  import M = Machine

  /** A candidate consumer: two loops, the inner one at position nJ of the outer body. */
  datatype Consumer = Consumer(l: Op, nJ: nat) {
    ghost predicate Shaped() { l.For? && OnlyLoopAt(l.body, nJ) }
    ghost function J(): Op requires Shaped() { l.body[nJ] }
    ghost function PreI(): seq<Op> requires Shaped() { l.body[..nJ] }
    ghost function Path(): seq<Op> requires Shaped() { PreI() + J().body }

    /** SSA form, with the definitions of the enclosing function in `outer`. */
    ghost predicate Ssa(outer: seq<Op>) {
      && Shaped()
      && Straight(outer + Path())
      && l.iv != J().iv && {l.iv, J().iv} !! Defs(outer + Path())
      && J().iv !in Uses(PreI())
    }
  }

  datatype Parts = Parts(loadC: Op, loadBias: Op, add: Op, relu: Op, store: Op, zero: Op)

  /** A constant that `isZero` accepts: zero of either sign. */
  predicate IsZero(op: Op) { Kind(op, POS_ZERO) || Kind(op, NEG_ZERO) }

  /** The loads are these two. */
  predicate TwoLoads(loads: seq<Op>, a: Op, b: Op) {
    |loads| == 2 && a in loads && b in loads && a != b
  }

  /** The inner body is C[i, j] = max(C[i, j] + bias[j], 0) and nothing else. */
  ghost predicate Fits(outer: seq<Op>, x: Consumer, g: GemmOp, s: Parts)
    requires x.Shaped()
  {
    var path, ivI, ivJ := x.Path(), x.l.iv, x.J().iv;
    && s.loadC.Load? && s.loadBias.Load? && Kind(s.add, ADDF) && Kind(s.relu, MAXIMUMF) && s.store.Store?
    && Of(x.J().body, MulOp) == [] && Of(x.J().body, OtherOp) == []
    && Of(x.J().body, AddOp) == [s.add] && Of(x.J().body, MaxOp) == [s.relu] && Of(x.J().body, StoreOp) == [s.store]
    && TwoLoads(Of(x.J().body, LoadOp), s.loadC, s.loadBias)
    && s.store.src == s.relu.dst
    && s.zero in outer + path && IsZero(s.zero) && Operands(s.relu, s.add.dst, s.zero.dst)
    && s.store.m == g.C && Indexed(path, s.store.idx, ivI, ivJ)
    && s.loadC.m == g.C && Indexed(path, s.loadC.idx, ivI, ivJ)
    && |s.loadBias.idx| == 1 && Root(path, s.loadBias.idx[0]) == Root(path, ivJ)
    && Operands(s.add, s.loadC.dst, s.loadBias.dst)
  }

  /** The operation that replaces both.  Any epilogue g already had is dropped. */
  function Fused(g: GemmOp, s: Parts): GemmOp {
    GemmOp(g.A, g.B, g.C, Some(Memref(s.loadBias)), true)
  }

  ghost predicate Matched(outer: seq<Op>, x: Consumer, g: GemmOp, s: Parts) {
    x.Ssa(outer) && Fits(outer, x, g, s)
  }

  lemma PartsIn(outer: seq<Op>, x: Consumer, g: GemmOp, s: Parts)
    requires x.Shaped() && Fits(outer, x, g, s)
    ensures var body := x.J().body;
      && s.loadC in body && s.loadBias in body && s.add in body && s.relu in body && s.store in body
      && (forall op :: op in body && op.Load? ==> op == s.loadC || op == s.loadBias)
      && (forall op :: op in body && op.Store? ==> op == s.store)
  {
    var body := x.J().body;
    hide Of, ClassOf, Indexed, Root, Operands;
    OfIn(body, LoadOp);
    OfIn(body, AddOp);
    OfIn(body, MaxOp);
    OfIn(body, StoreOp);
    assert s.add in Of(body, AddOp) && s.relu in Of(body, MaxOp) && s.store in Of(body, StoreOp);
    OnlyTwo(Of(body, LoadOp), s.loadC, s.loadBias);
    forall op | op in body
      ensures op.Load? ==> op in Of(body, LoadOp)
      ensures op.Store? ==> op in Of(body, StoreOp)
    {
      ClassIs(op);
    }
  }

  lemma OnlyTwo(loads: seq<Op>, a: Op, b: Op)
    requires TwoLoads(loads, a, b)
    ensures forall op :: op in loads ==> op == a || op == b
  {
    assert loads == [loads[0], loads[1]];
  }

  lemma StoreIsLast(outer: seq<Op>, x: Consumer, g: GemmOp, s: Parts)
    requires x.Shaped() && Fits(outer, x, g, s) && Straight(x.J().body)
    ensures StoreLast(x.J().body)
  {
    var body := x.J().body;
    hide Straight, Indexed, Of, ClassOf, Root;
    PartsIn(outer, x, g, s);
    var a: nat :| a < |body| && body[a] == s.add;
    var m: nat :| m < |body| && body[m] == s.relu;
    StraightKinds(body);
    forall i: nat, j: nat | i < j < |body| && body[i].Store?
      ensures body[j].Pure?
    {
      assert body[i] in body && body[j] in body;
      Dominates(body, i, m);
      assert s.add.dst in s.relu.args && s.loadC.dst in s.add.args && s.loadBias.dst in s.add.args;
      Dominates(body, m, a);
      if body[j].Load? {
        Dominates(body, a, j);
      } else if body[j].Store? {
        ClassIs(s.store);
        OfTwice(body, i, j, StoreOp);
      }
    }
  }

  // ----- names inside the nest

  ghost function EnvI(f: Meaning, x: Consumer, env: Env, i: int): Env
    requires x.Shaped()
  {
    NoiseEnv(f, x.PreI(), env[x.l.iv := i])
  }

  ghost function EnvJ(f: Meaning, x: Consumer, env: Env, i: int, j: int): Env
    requires x.Shaped()
  {
    EnvI(f, x, env, i)[x.J().iv := j]
  }

  /** The environment holds what the constants of the enclosing function define. */
  ghost predicate ConstantsHold(f: Meaning, outer: seq<Op>, env: Env) {
    forall op :: op in outer && op.Pure? && IsConstant(op.f) ==> Val(env, op.dst) == f(op.f, [])
  }

  lemma PathStraight(outer: seq<Op>, x: Consumer)
    requires x.Ssa(outer)
    ensures Straight(x.Path()) && Straight(x.J().body) && Straight(x.PreI())
    ensures {x.l.iv, x.J().iv} !! Defs(x.Path()) && Defs(outer) !! Defs(x.Path()) && Defs(x.PreI()) !! Defs(x.J().body)
    ensures {x.l.iv, x.J().iv} !! Defs(outer)
  {
    hide Straight, Defs;
    StraightConcat(outer, x.Path());
    StraightConcat(x.PreI(), x.J().body);
    NamesConcat(outer, x.Path());
  }

  /** At the end of the body a name whose root is an induction variable has its value. */
  lemma RootedValue(f: Meaning, outer: seq<Op>, x: Consumer, env: Env, h: Heap, i: int, j: int, y: Var)
    requires x.Ssa(outer) && CastsKeep(f) && 0 <= i < 0x8000_0000 && 0 <= j < 0x8000_0000
    ensures var v := Val(Run(f, x.J().body, EnvJ(f, x, env, i, j), h).env, y);
      && (Root(x.Path(), y) == x.l.iv ==> v == i)
      && (Root(x.Path(), y) == x.J().iv ==> v == j)
  {
    var preI, body, iv := x.PreI(), x.J().body, Root(x.Path(), y);
    if iv == x.l.iv || iv == x.J().iv {
      hide Straight, Root, Defs, Uses, Run, NoiseEnv;
      PathStraight(outer, x);
      NamesConcat(preI, body);
      StageValue(f, preI, body, EnvJ(f, x, env, i, j), h, y, iv);
      var z := Root(body, y);
      if iv == x.l.iv {
        assert [] + preI == preI;
        StageValue(f, [], preI, env[x.l.iv := i], map[], z, iv);
        NoiseEnvIs(f, preI, env[x.l.iv := i]);
        BackAtIv(preI, z, x.J().iv, iv);
        RootNothing(Root(preI, z));
      }
    }
  }

  /** The zero has its value at the end of the body, wherever it is defined. */
  lemma ZeroValue(f: Meaning, outer: seq<Op>, x: Consumer, s: Parts, env: Env, h: Heap, i: int, j: int)
    requires x.Ssa(outer) && ConstantsHold(f, outer, env) && s.zero in outer + x.Path() && IsZero(s.zero)
    requires StoreLast(x.J().body)
    ensures Val(Run(f, x.J().body, EnvJ(f, x, env, i, j), h).env, s.zero.dst) == f(s.zero.f, [])
  {
    var preI, body, z := x.PreI(), x.J().body, s.zero.dst;
    PathStraight(outer, x);
    NamesConcat(preI, body);
    ConstantArity(outer + x.Path(), s.zero);
    hide Straight, Run, NoiseEnv;
    NoiseEnvIs(f, preI, env[x.l.iv := i]);
    if s.zero in body {
      Equations(f, body, EnvJ(f, x, env, i, j), h);
      assert Holds(f, s.zero, Run(f, body, EnvJ(f, x, env, i, j), h).env, h);
      NoOperands(Run(f, body, EnvJ(f, x, env, i, j), h).env);
    } else {
      InDefs(body, s.zero);
      if s.zero in preI {
        InDefs(preI, s.zero);
        NoiseStoreLast(preI);
        Equations(f, preI, env[x.l.iv := i], map[]);
        assert Holds(f, s.zero, EnvI(f, x, env, i), map[]);
        NoOperands(EnvI(f, x, env, i));
      } else {
        InDefs(outer, s.zero);
        EnvKept(f, preI, env[x.l.iv := i], map[], z);
      }
      EnvKept(f, body, EnvJ(f, x, env, i, j), h, z);
    }
  }

  lemma NoOperands(env: Env)
    ensures Vals(env, []) == []
  {}

  lemma NoiseStoreLast(ops: seq<Op>)
    requires forall op :: op in ops ==> Noise(op)
    ensures StoreLast(ops)
  {
    assert forall i :: 0 <= i < |ops| ==> Noise(ops[i]);
  }

  lemma ConstantArity(ops: seq<Op>, op: Op)
    requires Straight(ops) && op in ops && IsZero(op)
    ensures op.args == []
  {
    assert Arity(op);
  }

  lemma InDefs(ops: seq<Op>, op: Op)
    requires op.Pure?
    ensures op in ops ==> op.dst in Defs(ops)
  {
    if op in ops {
      NamesAt(ops);
      var i :| 0 <= i < |ops| && ops[i] == op;
      assert op.dst in OpDefs(ops[i]);
    }
  }

  /** max(v + bias[j], zero), with the bias in memory. */
  function BiasAct(f: Meaning, s: Parts, h: Heap, j: int, v: int): int
    requires s.zero.Pure?
  {
    f(MAXIMUMF, [f(ADDF, [v, At(h, Addr(Memref(s.loadBias), [j]))]), f(s.zero.f, [])])
  }

  /** What the pass takes for granted, besides SSA form. */
  ghost predicate Epilogue(f: Meaning, outer: seq<Op>, x: Consumer, g: GemmOp, s: Parts, env: Env) {
    && Matched(outer, x, g, s) && s.zero.Pure? && ConstantsHold(f, outer, env)
    && CastsKeep(f) && Commutes(f, ADDF) && Commutes(f, MAXIMUMF)
  }

  lemma OwnRoot(outer: seq<Op>, x: Consumer)
    requires x.Ssa(outer)
    ensures Root(x.Path(), x.l.iv) == x.l.iv && Root(x.Path(), x.J().iv) == x.J().iv
  {
    PathStraight(outer, x);
    hide Straight, Defs, Uses, Root;
    if Root(x.Path(), x.l.iv) != x.l.iv { RootMoves(x.Path(), x.l.iv); }
    if Root(x.Path(), x.J().iv) != x.J().iv { RootMoves(x.Path(), x.J().iv); }
  }

  lemma IndexPair(f: Meaning, outer: seq<Op>, x: Consumer, env: Env, h: Heap, i: int, j: int, idx: seq<Var>)
    requires x.Ssa(outer) && CastsKeep(f) && 0 <= i < 0x8000_0000 && 0 <= j < 0x8000_0000
    requires Indexed(x.Path(), idx, x.l.iv, x.J().iv)
    ensures Vals(Run(f, x.J().body, EnvJ(f, x, env, i, j), h).env, idx) == [i, j]
  {
    OwnRoot(outer, x);
    hide Straight, Run, Defs, Uses, Root, EnvJ, Consumer.Ssa, Val, Vals;
    RootedValue(f, outer, x, env, h, i, j, idx[0]);
    RootedValue(f, outer, x, env, h, i, j, idx[1]);
    ValsPair(Run(f, x.J().body, EnvJ(f, x, env, i, j), h).env, idx);
  }

  lemma IndexColumn(f: Meaning, outer: seq<Op>, x: Consumer, env: Env, h: Heap, i: int, j: int, idx: seq<Var>)
    requires x.Ssa(outer) && CastsKeep(f) && 0 <= i < 0x8000_0000 && 0 <= j < 0x8000_0000
    requires |idx| == 1 && Root(x.Path(), idx[0]) == Root(x.Path(), x.J().iv)
    ensures Vals(Run(f, x.J().body, EnvJ(f, x, env, i, j), h).env, idx) == [j]
  {
    OwnRoot(outer, x);
    hide Straight, Run, Defs, Uses, Root, EnvJ;
    RootedValue(f, outer, x, env, h, i, j, idx[0]);
  }

  /** One iteration updates C[i, j]. */
  lemma BodyStep(f: Meaning, outer: seq<Op>, x: Consumer, g: GemmOp, s: Parts, env: Env, h: Heap, i: int, j: int)
    requires Epilogue(f, outer, x, g, s, env) && 0 <= i < 0x8000_0000 && 0 <= j < 0x8000_0000
    ensures Run(f, x.J().body, EnvJ(f, x, env, i, j), h).heap ==
      h[Addr(g.C, [i, j]) := BiasAct(f, s, h, j, At(h, Addr(g.C, [i, j])))]
  {
    var body, e := x.J().body, EnvJ(f, x, env, i, j);
    var e' := Run(f, body, e, h).env;
    PathStraight(outer, x);
    hide Straight, Run, Root, Of, EnvJ, Indexed, ConstantsHold;
    StoreIsLast(outer, x, g, s);
    PartsIn(outer, x, g, s);
    Equations(f, body, e, h);
    IndexPair(f, outer, x, env, h, i, j, s.loadC.idx);
    IndexPair(f, outer, x, env, h, i, j, s.store.idx);
    IndexColumn(f, outer, x, env, h, i, j, s.loadBias.idx);
    ZeroValue(f, outer, x, s, env, h, i, j);
    assert Holds(f, s.add, e', h) && Holds(f, s.relu, e', h) && Holds(f, s.loadC, e', h) && Holds(f, s.loadBias, e', h);
    TwoOperands(f, s.add, s.loadC.dst, s.loadBias.dst, e');
    TwoOperands(f, s.relu, s.add.dst, s.zero.dst, e');
  }

  // ----- the two loops

  /** The bounds of the loops, wherever they are computed. */
  ghost function AreaOf(f: Meaning, x: Consumer, env: Env): Area
    requires x.Shaped()
  {
    Area(Span(Val(env, x.l.lo), Val(env, x.l.hi), Val(env, x.l.step)),
         (i: int) => var e := EnvI(f, x, env, i); Span(Val(e, x.J().lo), Val(e, x.J().hi), Val(e, x.J().step)))
  }

  /** The loops have the bounds of t. */
  ghost predicate Ranges(f: Meaning, x: Consumer, env: Env, t: Area)
    requires x.Shaped()
  {
    && t.rows == Span(Val(env, x.l.lo), Val(env, x.l.hi), Val(env, x.l.step))
    && (forall i :: var e := EnvI(f, x, env, i);
          t.cols(i) == Span(Val(e, x.J().lo), Val(e, x.J().hi), Val(e, x.J().step)))
  }

  lemma AreaRanges(f: Meaning, x: Consumer, env: Env)
    requires x.Shaped()
    ensures Ranges(f, x, env, AreaOf(f, x, env))
  {
    hide EnvI;
  }

  /** Every access is inside C, whose sizes fit in 31 bits. */
  ghost predicate Inside(t: Area, p: Problem) {
    p.M < 0x8000_0000 && p.N < 0x8000_0000 && forall i, j :: t.Visits(i, j) ==> InC(p, i, j)
  }

  /** What the consumer leaves in C[i, j], from the memory it starts in. */
  function Target(f: Meaning, g: GemmOp, s: Parts, h0: Heap): (int, int) -> int
    requires s.zero.Pure?
  {
    (r: int, c: int) => BiasAct(f, s, h0, c, At(h0, Addr(g.C, [r, c])))
  }

  lemma TargetAt(f: Meaning, g: GemmOp, s: Parts, h0: Heap, r: int, c: int)
    requires s.zero.Pure?
    ensures Target(f, g, s, h0)(r, c) == BiasAct(f, s, h0, c, At(h0, Addr(g.C, [r, c])))
  {}

  /** An element not visited yet gets the value it would get at the start. */
  lemma TargetKept(f: Meaning, g: GemmOp, s: Parts, t: Area, h0: Heap, i: int, j: int, h: Heap)
    requires s.zero.Pure? && FilledTo(g.C, t, Target(f, g, s, h0), h0, i, j, h)
    ensures BiasAct(f, s, h, j, At(h, Addr(g.C, [i, j]))) == Target(f, g, s, h0)(i, j)
  {
    var cell, bias := Addr(g.C, [i, j]), Addr(Memref(s.loadBias), [j]);
    assert At(h, cell) == At(h0, cell) && At(h, bias) == At(h0, bias) by {
      hide Target, Area.Visits;
      assert |bias.at| == 1;
    }
  }

  lemma ElementDone(f: Meaning, outer: seq<Op>, x: Consumer, g: GemmOp, s: Parts, env: Env, t: Area, h0: Heap,
          i: int, j: int, h: Heap)
    requires Epilogue(f, outer, x, g, s, env) && t.Visits(i, j) && 0 <= i < 0x8000_0000 && 0 <= j < 0x8000_0000
    requires FilledTo(g.C, t, Target(f, g, s, h0), h0, i, j, h)
    ensures FilledTo(g.C, t, Target(f, g, s, h0), h0, i, j + t.cols(i).step,
                     Run(f, x.J().body, EnvJ(f, x, env, i, j), h).heap)
  {
    assert s.zero.Pure?;
    hide *;
    BodyStep(f, outer, x, g, s, env, h, i, j);
    TargetKept(f, g, s, t, h0, i, j, h);
    FilledStore(g.C, t, Target(f, g, s, h0), h0, i, j, h, BiasAct(f, s, h, j, At(h, Addr(g.C, [i, j]))));
  }

  lemma {:induction false} LoopJ(f: Meaning, outer: seq<Op>, x: Consumer, g: GemmOp, s: Parts, p: Problem, env: Env,
          t: Area, h0: Heap, i: int, j: int, h: Heap)
    requires x.Shaped() && s.zero.Pure? && Epilogue(f, outer, x, g, s, env)
    requires Inside(t, p) && t.rows.Visits(i) && t.cols(i).Reaches(j)
    requires FilledTo(g.C, t, Target(f, g, s, h0), h0, i, j, h)
    ensures var d, i' := t.cols(i), i + t.rows.step;
      FilledTo(g.C, t, Target(f, g, s, h0), h0, i', t.cols(i').lo,
               Loop(f, x.J().iv, j, d.hi, d.step, x.J().body, EnvI(f, x, env, i), h).heap)
    decreases t.cols(i).hi - j
  {
    hide FilledTo, Fits, Straight, EnvI, Target, ConstantsHold, Run;
    var d := t.cols(i);
    if d.Over(j) {
      FilledRow(g.C, t, Target(f, g, s, h0), h0, i, j, h);
    } else {
      assert t.Visits(i, j) && InC(p, i, j);
      ElementDone(f, outer, x, g, s, env, t, h0, i, j, h);
      NextVisit(d, j);
      LoopJ(f, outer, x, g, s, p, env, t, h0, i, j + d.step, Run(f, x.J().body, EnvJ(f, x, env, i, j), h).heap);
    }
  }

  /** The body of the i loop runs the j loop. */
  lemma OuterRuns(f: Meaning, x: Consumer, env: Env, t: Area, i: int, h: Heap)
    requires x.Shaped() && Ranges(f, x, env, t)
    ensures var d := t.cols(i);
      Run(f, x.l.body, env[x.l.iv := i], h).heap ==
      Loop(f, x.J().iv, d.lo, d.hi, d.step, x.J().body, EnvI(f, x, env, i), h).heap
  {
    hide Run;
    BlockRuns(f, x.l.body, x.nJ, env[x.l.iv := i], h);
  }

  lemma {:induction false} LoopI(f: Meaning, outer: seq<Op>, x: Consumer, g: GemmOp, s: Parts, p: Problem, env: Env,
          t: Area, h0: Heap, i: int, h: Heap)
    requires Epilogue(f, outer, x, g, s, env) && Inside(t, p) && Ranges(f, x, env, t) && t.rows.Reaches(i)
    requires FilledTo(g.C, t, Target(f, g, s, h0), h0, i, t.cols(i).lo, h)
    ensures FilledAll(g.C, t, Target(f, g, s, h0), h0,
      Loop(f, x.l.iv, i, t.rows.hi, t.rows.step, x.l.body, env, h).heap)
    decreases t.rows.hi - i
  {
    hide FilledTo, FilledAll, Fits, Run, Straight, Target, ConstantsHold, Ranges, EnvI;
    if t.rows.Over(i) {
      FilledEnd(g.C, t, Target(f, g, s, h0), h0, i, t.cols(i).lo, h);
    } else {
      OuterRuns(f, x, env, t, i, h);
      LoopJ(f, outer, x, g, s, p, env, t, h0, i, t.cols(i).lo, h);
      NextVisit(t.rows, i);
      LoopI(f, outer, x, g, s, p, env, t, h0, i + t.rows.step, Run(f, x.l.body, env[x.l.iv := i], h).heap);
    }
  }

  /** What a matched consumer leaves in memory, whatever its bounds: the elements it visits are
      finished, and nothing else changes. */
  lemma ConsumerComputes(f: Meaning, outer: seq<Op>, x: Consumer, g: GemmOp, s: Parts, p: Problem, env: Env, t: Area,
          h: Heap)
    requires Epilogue(f, outer, x, g, s, env) && Inside(t, p) && Ranges(f, x, env, t)
    ensures FilledAll(g.C, t, Target(f, g, s, h), h, Run(f, [x.l], env, h).heap)
  {
    hide FilledTo, FilledAll, Fits, Run, Straight, Target, ConstantsHold, EnvI;
    FilledStart(g.C, t, Target(f, g, s, h), h);
    LoopI(f, outer, x, g, s, p, env, t, h, t.rows.lo, h);
    RunOne(f, x.l, env, h);
    var d := t.rows;
    assert RunOp(f, x.l, env, h).heap == Loop(f, x.l.iv, d.lo, d.hi, d.step, x.l.body, env, h).heap;
  }

  // ----- fusion

  /** The problem that g poses on matrices of p's shape. */
  function ProblemOf(f: Meaning, p: Problem, g: GemmOp): Problem {
    p.(o := ArithOf(f), bias := g.bias.Some?, relu := g.relu)
  }

  lemma {:induction false} DotSame(p: Problem, p': Problem, mem: M.Mem, mem': M.Mem, r: int, c: int, n: nat)
    requires p.o == p'.o
    requires forall a: M.Cell :: !a.Bias? ==> Read(mem, a) == Read(mem', a)
    ensures Dot(p, mem, r, c, n) == Dot(p', mem', r, c, n)
    decreases n
  {
    if n > 0 { DotSame(p, p', mem, mem', r, c, n - 1); }
  }

  /** The accumulated product under every element of C. */
  ghost function Acc(f: Meaning, p: Problem, g: GemmOp, h: Heap, r: int, c: int): int {
    Dot(ProblemOf(f, p, g), Matrices(ProblemOf(f, p, g), g, h), r, c, p.K).code
  }

  /** The fused operation accumulates the same products. */
  lemma FusedAcc(f: Meaning, p: Problem, g: GemmOp, s: Parts, h: Heap, r: int, c: int)
    ensures Acc(f, p, Fused(g, s), h, r, c) == Acc(f, p, g, h, r, c)
  {
    var p1, p2 := ProblemOf(f, p, g), ProblemOf(f, p, Fused(g, s));
    MatricesRead(p1, g, h);
    MatricesRead(p2, Fused(g, s), h);
    hide Matrices, ArithOf;
    DotSame(p1, p2, Matrices(p1, g, h), Matrices(p2, Fused(g, s), h), r, c, p.K);
  }

  /** What g's own epilogue makes of an accumulated product. */
  function Finish(f: Meaning, g: GemmOp, h: Heap, c: int, v: int): int {
    var w := if g.bias.Some? then f(ADDF, [v, At(h, Addr(g.bias.value, [c]))]) else v;
    if g.relu then f(MAXIMUMF, [w, f(POS_ZERO, [])]) else w
  }

  lemma GemmFinishes(f: Meaning, p: Problem, g: GemmOp, h: Heap, r: int, c: int)
    requires InC(p, r, c)
    ensures var q := ProblemOf(f, p, g);
      Gemm(q, Matrices(q, g, h), r, c).code == Finish(f, g, h, c, Acc(f, p, g, h, r, c))
  {
    MatricesRead(ProblemOf(f, p, g), g, h);
    hide Matrices, Dot;
  }

  /** What the consumer makes of an address. */
  lemma ConsumerAt(f: Meaning, outer: seq<Op>, x: Consumer, g: GemmOp, s: Parts, p: Problem, env: Env, t: Area,
          h1: Heap, a: Addr)
    requires Epilogue(f, outer, x, g, s, env) && Inside(t, p) && Ranges(f, x, env, t)
    ensures At(Run(f, [x.l], env, h1).heap, a) ==
            if IsCellOfC(p, g, a) && t.Visits(a.at[0], a.at[1]) then BiasAct(f, s, h1, a.at[1], At(h1, a))
            else At(h1, a)
  {
    var h' := Run(f, [x.l], env, h1).heap;
    ConsumerComputes(f, outer, x, g, s, p, env, t, h1);
    assert s.zero.Pure?;
    hide *;
    FilledIn(f, g, s, p, t, h1, h', a);
  }

  lemma FilledIn(f: Meaning, g: GemmOp, s: Parts, p: Problem, t: Area, h1: Heap, h': Heap, a: Addr)
    requires s.zero.Pure? && Inside(t, p) && FilledAll(g.C, t, Target(f, g, s, h1), h1, h')
    ensures At(h', a) ==
            if IsCellOfC(p, g, a) && t.Visits(a.at[0], a.at[1]) then BiasAct(f, s, h1, a.at[1], At(h1, a))
            else At(h1, a)
  {
    hide At, BiasAct, Target, FilledAll, Area.Visits;
    FilledAt(g.C, t, Target(f, g, s, h1), h1, h', a);
    if IsElement(g.C, a) {
      assert a == Addr(g.C, [a.at[0], a.at[1]]);
      TargetAt(f, g, s, h1, a.at[0], a.at[1]);
    }
  }

  /** C after the GEMM and its consumer, and C after the fused operation. */
  lemma BothWays(f: Meaning, outer: seq<Op>, x: Consumer, g: GemmOp, s: Parts, p: Problem, env: Env, t: Area,
                 h: Heap, h1: Heap, h2: Heap, a: Addr)
    requires Epilogue(f, outer, x, g, s, env) && Inside(t, p) && Ranges(f, x, env, t)
    requires DoesGemm(ProblemOf(f, p, g), g, h, h1) && DoesGemm(ProblemOf(f, p, Fused(g, s)), Fused(g, s), h, h2)
    ensures var after := At(Run(f, [x.l], env, h1).heap, a);
      if IsCellOfC(p, g, a) then
        var r, c := a.at[0], a.at[1];
        var v := Acc(f, p, g, h, r, c);
        && (after == if t.Visits(r, c) then BiasAct(f, s, h, c, Finish(f, g, h, c, v)) else Finish(f, g, h, c, v))
        && At(h2, a) == Finish(f, Fused(g, s), h, c, v)
      else after == At(h, a) == At(h2, a)
  {
    assert s.zero.Pure?;
    ConsumerAt(f, outer, x, g, s, p, env, t, h1, a);
    hide Epilogue, Inside, Run, Matrices, Dot, Gemm, Ranges, Area.Visits, Finish;
    if IsCellOfC(p, g, a) {
      var r, c := a.at[0], a.at[1];
      GemmFinishes(f, p, g, h, r, c);
      GemmFinishes(f, p, Fused(g, s), h, r, c);
      FusedAcc(f, p, g, s, h, r, c);
      var b := Addr(Memref(s.loadBias), [c]);
      assert !IsCellOfC(p, g, b);
      assert At(h1, b) == At(h, b);
    }
  }

  /** The GEMM has no epilogue yet, and the zero it is compared with is the one the lowering uses. */
  predicate Exactly(f: Meaning, g: GemmOp, s: Parts)
    requires s.zero.Pure?
  {
    g.bias.None? && !g.relu && f(s.zero.f, []) == f(POS_ZERO, [])
  }

  /** The elements the consumer visits get their epilogue from it, and any others had it already. */
  ghost predicate Sound(f: Meaning, g: GemmOp, s: Parts, p: Problem, t: Area)
    requires s.zero.Pure?
  {
    forall r, c :: InC(p, r, c) ==> if t.Visits(r, c) then Exactly(f, g, s) else g == Fused(g, s)
  }

  /** Which is to say: the consumer visits all of C, and the GEMM was plain and the zero +0.0; or it
      visits nothing, and the GEMM had this very epilogue; or C is empty. */
  lemma SoundCases(f: Meaning, g: GemmOp, s: Parts, p: Problem, t: Area)
    requires s.zero.Pure?
    ensures Sound(f, g, s, p, t) <==>
            || p.M == 0 || p.N == 0
            || (Exactly(f, g, s) && forall r, c :: InC(p, r, c) ==> t.Visits(r, c))
            || (g == Fused(g, s) && forall r, c :: InC(p, r, c) ==> !t.Visits(r, c))
  {
    hide Area.Visits;
    if p.M > 0 && p.N > 0 {
      assert InC(p, 0, 0);
      assert t.Visits(0, 0) || !t.Visits(0, 0);
    }
  }

  /** Loops from 0 by 1 up to the sizes of C visit all of it. */
  lemma PlainBounds(t: Area, p: Problem)
    requires p.M < 0x8000_0000 && p.N < 0x8000_0000
    requires t.rows == Span(0, p.M, 1) && forall i :: t.cols(i) == Span(0, p.N, 1)
    ensures Inside(t, p) && forall r, c :: InC(p, r, c) ==> t.Visits(r, c)
  {}

  /** Fusion preserves meaning: the fused operation leaves what the GEMM and its consumer leave. */
  lemma FusionPreservesMeaning(f: Meaning, outer: seq<Op>, x: Consumer, g: GemmOp, s: Parts, p: Problem, env: Env,
                               t: Area, h: Heap, h1: Heap, h2: Heap)
    requires Epilogue(f, outer, x, g, s, env) && Inside(t, p) && Ranges(f, x, env, t)
    requires DoesGemm(ProblemOf(f, p, g), g, h, h1) && DoesGemm(ProblemOf(f, p, Fused(g, s)), Fused(g, s), h, h2)
    requires Sound(f, g, s, p, t)
    ensures Same(Run(f, [x.l], env, h1).heap, h2)
  {
    hide Fits, Straight, ConstantsHold, Run, Acc, Ranges, DoesGemm, Area.Visits;
    forall a
      ensures At(Run(f, [x.l], env, h1).heap, a) == At(h2, a)
    {
      BothWays(f, outer, x, g, s, p, env, t, h, h1, h2, a);
    }
  }

  // ----- exactly when fusing is right

  /** Fusing is right whatever the arithmetic and the memory. */
  ghost predicate AlwaysRight(f0: Meaning, outer: seq<Op>, x: Consumer, g: GemmOp, s: Parts, p: Problem, env: Env) {
    forall f: Meaning, h: Heap, h1: Heap, h2: Heap ::
      AgreeButArithmetic(f0, f) && Commutes(f, ADDF) && Commutes(f, MAXIMUMF)
      && DoesGemm(ProblemOf(f, p, g), g, h, h1) && DoesGemm(ProblemOf(f, p, Fused(g, s)), Fused(g, s), h, h2) ==>
        Same(Run(f, [x.l], env, h1).heap, h2)
  }

  /** What the pass takes for granted does not depend on the arithmetic. */
  lemma MeaningChanged(f: Meaning, f': Meaning, outer: seq<Op>, x: Consumer, g: GemmOp, s: Parts, env: Env, t: Area)
    requires Epilogue(f, outer, x, g, s, env) && Ranges(f, x, env, t)
    requires AgreeButArithmetic(f, f') && Commutes(f', ADDF) && Commutes(f', MAXIMUMF)
    ensures Epilogue(f', outer, x, g, s, env) && Ranges(f', x, env, t)
  {
    hide NoiseEnv, Fits, Straight;
    forall i
      ensures EnvI(f', x, env, i) == EnvI(f, x, env, i)
    {
      NoiseMeaning(f, f', x.PreI(), env[x.l.iv := i]);
    }
  }

  /** Memory after g. */
  function AfterGemm(p: Problem, g: GemmOp, h: Heap): Heap {
    var cells := set r, c | 0 <= r < p.M && 0 <= c < p.N :: Addr(g.C, [r, c]);
    map a | a in h.Keys + cells ::
      if IsCellOfC(p, g, a) then Gemm(p, Matrices(p, g, h), a.at[0], a.at[1]).code else At(h, a)
  }

  lemma AfterGemmDoes(p: Problem, g: GemmOp, h: Heap)
    ensures DoesGemm(p, g, h, AfterGemm(p, g, h))
  {
    hide Gemm, Matrices;
    var cells := set r, c | 0 <= r < p.M && 0 <= c < p.N :: Addr(g.C, [r, c]);
    forall a | IsCellOfC(p, g, a)
      ensures a in cells
    {
      assert a == Addr(g.C, [a.at[0], a.at[1]]);
    }
  }

  /** Arithmetic that tells the epilogues apart: products vanish and the maximum adds t. */
  function Telling(f: Meaning, t: int): Meaning {
    (k: nat, xs: seq<int>) =>
      if k == ADDF && |xs| == 2 then xs[0] + xs[1]
      else if k == MULF then 0
      else if k == MAXIMUMF && |xs| == 2 then xs[0] + xs[1] + t
      else f(k, xs)
  }

  lemma {:induction false} DotVanishes(f: Meaning, t: int, p: Problem, mem: M.Mem, r: int, c: int, n: nat)
    requires p.o == ArithOf(Telling(f, t)) && Read(mem, M.GC(r, c)) == Elem(0)
    ensures Dot(p, mem, r, c, n).code == 0
    decreases n
  {
    if n > 0 {
      DotVanishes(f, t, p, mem, r, c, n - 1);
      AddVanishes(f, t, Dot(p, mem, r, c, n - 1), Read(mem, M.GA(r, n - 1)), Read(mem, M.GB(n - 1, c)));
    }
  }

  lemma AddVanishes(f: Meaning, t: int, v: Elem, x: Elem, y: Elem)
    ensures var o := ArithOf(Telling(f, t)); o.add(v, o.mul(x, y)).code == v.code
  {}

  /** What the telling arithmetic makes of a zero accumulator in column c: by g, by g and the
      consumer, and by the fused operation. */
  lemma TellingValues(f: Meaning, g: GemmOp, s: Parts, h: Heap, t: int, c: int)
    requires s.zero.Pure? && IsZero(s.zero)
    ensures var f', z0 := Telling(f, t), f(POS_ZERO, []);
      var bias := At(h, Addr(Memref(s.loadBias), [c]));
      var v := (if g.bias.Some? then At(h, Addr(g.bias.value, [c])) else 0) + if g.relu then z0 + t else 0;
      && Finish(f', g, h, c, 0) == v
      && BiasAct(f', s, h, c, v) == v + bias + f(s.zero.f, []) + t
      && Finish(f', Fused(g, s), h, c, 0) == bias + z0 + t
  {}

  lemma TellingAcc(f: Meaning, p: Problem, g: GemmOp, h: Heap, t: int, r: int, c: int)
    requires InC(p, r, c) && At(h, Addr(g.C, [r, c])) == 0
    ensures Acc(Telling(f, t), p, g, h, r, c) == 0
  {
    var q := ProblemOf(Telling(f, t), p, g);
    MatricesRead(q, g, h);
    DotVanishes(f, t, q, Matrices(q, g, h), r, c, p.K);
  }

  lemma TellingCommutes(f: Meaning, t: int)
    ensures var f' := Telling(f, t); Commutes(f', ADDF) && Commutes(f', MAXIMUMF) && AgreeButArithmetic(f, f')
  {}

  /** An arithmetic and a memory in which a zero accumulator in column c comes out differently. */
  ghost predicate TellsApart(f: Meaning, g: GemmOp, s: Parts, visited: bool, h: Heap, t: int, c: int)
    requires s.zero.Pure?
  {
    var v := Finish(Telling(f, t), g, h, c, 0);
    (if visited then BiasAct(Telling(f, t), s, h, c, v) else v) != Finish(Telling(f, t), Fused(g, s), h, c, 0)
  }

  lemma Apart(f: Meaning, g: GemmOp, s: Parts, visited: bool, c: int) returns (h: Heap, t: int)
    requires s.zero.Pure? && IsZero(s.zero)
    requires if visited then !Exactly(f, g, s) else g != Fused(g, s)
    ensures TellsApart(f, g, s, visited, h, t, c) && forall a: Addr :: |a.at| != 1 ==> At(h, a) == 0
  {
    hide Telling, Finish, BiasAct;
    var z, z0 := f(s.zero.f, []), f(POS_ZERO, []);
    assert |[c]| == 1;
    if visited {
      t := if z == -1 then 2 else 1;
      var rest := (if g.relu then z0 + t else 0) + z - z0;
      h := if g.bias.Some? then map[Addr(g.bias.value, [c]) := if rest == -1 then 2 else 1] else map[];
    } else if g.relu {
      t := 0;
      h := map[Addr(Memref(s.loadBias), [c]) := 1];
    } else {
      t := 1 - z0;
      h := map[];
    }
    TellingValues(f, g, s, h, t, c);
  }

  /** One arithmetic and one memory for which the two ways differ at C[r, c]. */
  lemma TellingDiffers(f: Meaning, outer: seq<Op>, x: Consumer, g: GemmOp, s: Parts, p: Problem, env: Env, area: Area,
          r: int, c: int)
    requires Epilogue(f, outer, x, g, s, env) && Inside(area, p) && Ranges(f, x, env, area) && InC(p, r, c)
    requires if area.Visits(r, c) then !Exactly(f, g, s) else g != Fused(g, s)
    ensures !AlwaysRight(f, outer, x, g, s, p, env)
  {
    hide Fits, Straight, ConstantsHold, Run, Ranges, DoesGemm, AfterGemm, Telling, Finish, BiasAct, Acc, Commutes,
      AgreeButArithmetic, Area.Visits;
    ZeroIsZero(outer, x, g, s);
    var h, t := Apart(f, g, s, area.Visits(r, c), c);
    var a, f' := Addr(g.C, [r, c]), Telling(f, t);
    assert |[r, c]| == 2 && IsCellOfC(p, g, a);
    TellingAcc(f, p, g, h, t, r, c);
    TellingCommutes(f, t);
    MeaningChanged(f, f', outer, x, g, s, env, area);
    var h1, h2 := AfterGemm(ProblemOf(f', p, g), g, h), AfterGemm(ProblemOf(f', p, Fused(g, s)), Fused(g, s), h);
    AfterGemmDoes(ProblemOf(f', p, g), g, h);
    AfterGemmDoes(ProblemOf(f', p, Fused(g, s)), Fused(g, s), h);
    BothWays(f', outer, x, g, s, p, env, area, h, h1, h2, a);
    assert At(Run(f', [x.l], env, h1).heap, a) != At(h2, a);
  }

  lemma ZeroIsZero(outer: seq<Op>, x: Consumer, g: GemmOp, s: Parts)
    requires Matched(outer, x, g, s)
    ensures IsZero(s.zero)
  {}

  /** Whatever the bounds of the consumer, fusing it is right exactly when each element it visits
      belongs to a plain GEMM compared with +0.0, and each it does not visit to a GEMM that has this
      epilogue already.  The pass tests neither, nor the bounds. */
  lemma FusionExact(f: Meaning, outer: seq<Op>, x: Consumer, g: GemmOp, s: Parts, p: Problem, env: Env)
    requires Epilogue(f, outer, x, g, s, env) && Inside(AreaOf(f, x, env), p)
    ensures AlwaysRight(f, outer, x, g, s, p, env) <==> Sound(f, g, s, p, AreaOf(f, x, env))
  {
    var t := AreaOf(f, x, env);
    AreaRanges(f, x, env);
    hide AreaOf, Matched, ConstantsHold, Ranges, Run, DoesGemm, Area.Visits, Exactly;
    if Sound(f, g, s, p, t) {
      forall f': Meaning, h: Heap, h1: Heap, h2: Heap |
        AgreeButArithmetic(f, f') && Commutes(f', ADDF) && Commutes(f', MAXIMUMF)
        && DoesGemm(ProblemOf(f', p, g), g, h, h1) && DoesGemm(ProblemOf(f', p, Fused(g, s)), Fused(g, s), h, h2)
        ensures Same(Run(f', [x.l], env, h1).heap, h2)
      {
        MeaningChanged(f, f', outer, x, g, s, env, t);
        SameZero(f, f', outer, x, g, s);
        FusionPreservesMeaning(f', outer, x, g, s, p, env, t, h, h1, h2);
      }
    } else {
      var r, c :| InC(p, r, c) && !(if t.Visits(r, c) then Exactly(f, g, s) else g == Fused(g, s));
      hide AlwaysRight;
      TellingDiffers(f, outer, x, g, s, p, env, t, r, c);
    }
  }

  /** Over all of C: right exactly when the GEMM was plain and the zero is +0.0, or C is empty. */
  lemma PlainFusionExact(f: Meaning, outer: seq<Op>, x: Consumer, g: GemmOp, s: Parts, p: Problem, env: Env)
    requires Epilogue(f, outer, x, g, s, env) && p.M < 0x8000_0000 && p.N < 0x8000_0000
    requires var t := AreaOf(f, x, env); t.rows == Span(0, p.M, 1) && forall i :: t.cols(i) == Span(0, p.N, 1)
    ensures AlwaysRight(f, outer, x, g, s, p, env) <==> Exactly(f, g, s) || p.M == 0 || p.N == 0
  {
    var t := AreaOf(f, x, env);
    assert s.zero.Pure?;
    hide AreaOf, Epilogue, AlwaysRight, Exactly, Sound, Area.Visits;
    PlainBounds(t, p);
    FusionExact(f, outer, x, g, s, p, env);
    SoundCases(f, g, s, p, t);
    if p.M > 0 && p.N > 0 { assert InC(p, 0, 0) && t.Visits(0, 0); }
  }

  lemma SameZero(f: Meaning, f': Meaning, outer: seq<Op>, x: Consumer, g: GemmOp, s: Parts)
    requires Matched(outer, x, g, s) && AgreeButArithmetic(f, f')
    ensures s.zero.Pure? && (Exactly(f, g, s) <==> Exactly(f', g, s))
  {
    ZeroIsZero(outer, x, g, s);
    hide Matched;
  }

  /** Memory that holds the fused operation's GEMM holds in C what the GEMM and its consumer leave. */
  lemma ConsumerIsFused(f: Meaning, outer: seq<Op>, x: Consumer, g: GemmOp, s: Parts, p: Problem, env: Env, t: Area,
                        h: Heap, h1: Heap, final: M.Mem, r: int, c: int)
    requires Epilogue(f, outer, x, g, s, env) && Inside(t, p) && Ranges(f, x, env, t) && Sound(f, g, s, p, t)
    requires DoesGemm(ProblemOf(f, p, g), g, h, h1)
    requires var q := ProblemOf(f, p, Fused(g, s)); IsGemmOf(q, Matrices(q, Fused(g, s), h), final)
    requires InC(p, r, c)
    ensures Element(Run(f, [x.l], env, h1).heap, g.C, [r, c]) == Read(final, M.GC(r, c))
  {
    hide Fits, Straight, ConstantsHold, Run, Ranges, DoesGemm, AfterGemm, Gemm, Matrices, Sound;
    var q := ProblemOf(f, p, Fused(g, s));
    var h2 := AfterGemm(q, Fused(g, s), h);
    AfterGemmDoes(q, Fused(g, s), h);
    FusionPreservesMeaning(f, outer, x, g, s, p, env, t, h, h1, h2);
    FusedAt(q, Fused(g, s), h, h2, r, c);
    assert At(Run(f, [x.l], env, h1).heap, Addr(g.C, [r, c])) == At(h2, Addr(g.C, [r, c]));
  }

  lemma FusedAt(p: Problem, g: GemmOp, h: Heap, h': Heap, r: int, c: int)
    requires InC(p, r, c) && DoesGemm(p, g, h, h')
    ensures Element(h', g.C, [r, c]) == Gemm(p, Matrices(p, g, h), r, c)
  {
    assert IsCellOfC(p, g, Addr(g.C, [r, c]));
  }

  /** Every level of the ladder that suits the fused operation, under every schedule, leaves in C what
      the GEMM and its consumer leave. */
  lemma FusionComposes(f: Meaning, outer: seq<Op>, x: Consumer, g: GemmOp, s: Parts, p: Problem, env: Env, t: Area,
                       h: Heap, h1: Heap, level: Rung, states: seq<M.State>, moves: seq<M.Move>, r: int, c: int)
    requires Epilogue(f, outer, x, g, s, env) && Inside(t, p) && Ranges(f, x, env, t) && Sound(f, g, s, p, t)
    requires DoesGemm(ProblemOf(f, p, g), g, h, h1) && InC(p, r, c)
    requires var q := ProblemOf(f, p, Fused(g, s));
      && level.WellShaped() && level.Suits(q)
      && M.IsRun(level.Kernel(q), q.o, Matrices(q, Fused(g, s), h), states, moves)
      && M.Done(level.Kernel(q), states[|moves|])
    ensures Element(Run(f, [x.l], env, h1).heap, g.C, [r, c]) == Read(states[|moves|].mem, M.GC(r, c))
  {
    hide Epilogue, Ranges, Run, IsGemmOf, Matrices, DoesGemm, Sound, Inside;
    var q := ProblemOf(f, p, Fused(g, s));
    EveryRunComputesGemm(level, q, Matrices(q, Fused(g, s), h), states, moves);
    ConsumerIsFused(f, outer, x, g, s, p, env, t, h, h1, states[|moves|].mem, r, c);
  }
}
