/** Recognising a matrix product among three nested loops, and what the loops compute. */
module MatMulRecognition {
  import opened LoopIR
  import opened Wrappers
  import opened Nests
  import opened Elements
  import opened GemmSpec
  import opened Ladder
  import M = Machine

  /** A candidate: the outer loop and where the inner loops are. */
  datatype Nest = Nest(l: Op, nJ: nat, nK: nat) {
    ghost predicate Shaped() {
      l.For? && OnlyLoopAt(l.body, nJ) && OnlyLoopAt(l.body[nJ].body, nK)
    }

    ghost function J(): Op requires Shaped() { l.body[nJ] }
    ghost function K(): Op requires Shaped() { J().body[nK] }

    /** The noise in front of each inner loop. */
    ghost function PreI(): seq<Op> requires Shaped() { l.body[..nJ] }
    ghost function PreJ(): seq<Op> requires Shaped() { J().body[..nK] }

    /** The operations that dominate the end of the innermost body. */
    ghost function Path(): seq<Op> requires Shaped() { PreI() + PreJ() + K().body }

    /** SSA form. */
    ghost predicate Ssa() {
      && Shaped()
      && Straight(Path())
      && l.iv != J().iv && l.iv != K().iv && J().iv != K().iv
      && {l.iv, J().iv, K().iv} !! Defs(Path())
      && J().iv !in Uses(PreI()) && K().iv !in Uses(PreI()) + Uses(PreJ())
    }
  }

  /** The compute operations of a matched body. */
  datatype Parts = Parts(loadA: Op, loadB: Op, loadC: Op, mul: Op, add: Op, store: Op)

  ghost predicate Kinds(s: Parts) {
    s.loadA.Load? && s.loadB.Load? && s.loadC.Load? && Kind(s.mul, MULF) && Kind(s.add, ADDF) && s.store.Store?
  }

  /** The loads are these three. */
  predicate ThreeLoads(loads: seq<Op>, a: Op, b: Op, c: Op) {
    |loads| == 3 && a in loads && b in loads && c in loads && a != b && a != c && b != c
  }

  /** The innermost body is C[i, j] += A[i, k] * B[k, j] and nothing else. */
  ghost predicate Fits(path: seq<Op>, body: seq<Op>, ivI: Var, ivJ: Var, ivK: Var, s: Parts) {
    && Kinds(s) && Of(body, MaxOp) == [] && Of(body, OtherOp) == []
    && Of(body, MulOp) == [s.mul] && Of(body, AddOp) == [s.add] && Of(body, StoreOp) == [s.store]
    && ThreeLoads(Of(body, LoadOp), s.loadA, s.loadB, s.loadC)
    && s.store.src == s.add.dst
    && Operands(s.add, s.mul.dst, s.loadC.dst)
    && Operands(s.mul, s.loadA.dst, s.loadB.dst)
    && Indexed(path, s.loadC.idx, ivI, ivJ)
    && Indexed(path, s.loadA.idx, ivI, ivK)
    && Indexed(path, s.loadB.idx, ivK, ivJ)
    && Indexed(path, s.store.idx, ivI, ivJ)
    && s.store.m == s.loadC.m
  }

  /** The loads by name, and every operation that is neither pure nor a load is the store. */
  lemma PartsIn(path: seq<Op>, body: seq<Op>, ivI: Var, ivJ: Var, ivK: Var, s: Parts)
    requires Fits(path, body, ivI, ivJ, ivK, s)
    ensures s.loadA in body && s.loadB in body && s.loadC in body && s.mul in body && s.add in body && s.store in body
    ensures forall op :: op in body && op.Load? ==> op == s.loadA || op == s.loadB || op == s.loadC
    ensures forall op :: op in body && op.Store? ==> op == s.store
  {
    hide Of, ClassOf, Indexed, Operands;
    OfIn(body, LoadOp);
    OfIn(body, MulOp);
    OfIn(body, AddOp);
    OfIn(body, StoreOp);
    assert s.mul in Of(body, MulOp) && s.add in Of(body, AddOp) && s.store in Of(body, StoreOp);
    OnlyThree(Of(body, LoadOp), s);
    forall op | op in body
      ensures op.Load? ==> op in Of(body, LoadOp)
      ensures op.Store? ==> op in Of(body, StoreOp)
    {
      ClassIs(op);
    }
  }

  lemma OnlyThree(loads: seq<Op>, s: Parts)
    requires ThreeLoads(loads, s.loadA, s.loadB, s.loadC)
    ensures forall op :: op in loads ==> op == s.loadA || op == s.loadB || op == s.loadC
  {
    assert loads == [loads[0], loads[1], loads[2]];
  }

  // ----- one iteration of the innermost loop

  /** Dataflow puts the loads before the store, and there is no second store. */
  lemma StoreIsLast(path: seq<Op>, body: seq<Op>, ivI: Var, ivJ: Var, ivK: Var, s: Parts)
    requires Straight(body) && Fits(path, body, ivI, ivJ, ivK, s)
    ensures StoreLast(body)
  {
    hide Straight, Indexed, Of, ClassOf;
    PartsIn(path, body, ivI, ivJ, ivK, s);
    var a: nat :| a < |body| && body[a] == s.add;
    var m: nat :| m < |body| && body[m] == s.mul;
    StraightKinds(body);
    forall i: nat, j: nat | i < j < |body| && body[i].Store?
      ensures body[j].Pure?
    {
      assert body[i] in body && body[j] in body;
      Dominates(body, i, a);
      assert s.mul.dst in s.add.args && s.loadC.dst in s.add.args && s.loadA.dst in s.mul.args
        && s.loadB.dst in s.mul.args;
      Dominates(body, a, m);
      if body[j].Load? {
        Dominates(body, if body[j] == s.loadC then a else m, j);
      } else if body[j].Store? {
        ClassIs(s.store);
        OfTwice(body, i, j, StoreOp);
      }
    }
  }

  // ----- names inside the nest

  /** The names in front of the j loop, in front of the k loop, and at the start of the body. */
  ghost function EnvI(f: Meaning, x: Nest, env: Env, i: int): Env
    requires x.Shaped()
  {
    NoiseEnv(f, x.PreI(), env[x.l.iv := i])
  }

  ghost function EnvJ(f: Meaning, x: Nest, env: Env, i: int, j: int): Env
    requires x.Shaped()
  {
    NoiseEnv(f, x.PreJ(), EnvI(f, x, env, i)[x.J().iv := j])
  }

  ghost function EnvK(f: Meaning, x: Nest, env: Env, i: int, j: int, k: int): Env
    requires x.Shaped()
  {
    EnvJ(f, x, env, i, j)[x.K().iv := k]
  }

  /** In front of the innermost loop a name whose root is an outer induction variable has its value. */
  lemma OuterValue(f: Meaning, x: Nest, env: Env, i: int, j: int, y: Var)
    requires x.Ssa() && CastsKeep(f) && 0 <= i < 0x8000_0000 && 0 <= j < 0x8000_0000
    requires var iv := Root(x.PreI() + x.PreJ(), y); iv == x.l.iv || iv == x.J().iv
    ensures y != x.K().iv
    ensures Val(EnvJ(f, x, env, i, j), y) == if Root(x.PreI() + x.PreJ(), y) == x.l.iv then i else j
  {
    var preI, preJ, iv := x.PreI(), x.PreJ(), Root(x.PreI() + x.PreJ(), y);
    hide Straight, Root, Defs, Uses, Run, NoiseEnv;
    NamesConcat(preI, preJ);
    NamesConcat(preI + preJ, x.K().body);
    StraightConcat(preI + preJ, x.K().body);
    BackAtIv(preI + preJ, y, x.K().iv, iv);
    StageValue(f, preI, preJ, EnvI(f, x, env, i)[x.J().iv := j], map[], y, iv);
    NoiseEnvIs(f, preJ, EnvI(f, x, env, i)[x.J().iv := j]);
    var z := Root(preJ, y);
    if iv == x.l.iv {
      assert [] + preI == preI;
      StageValue(f, [], preI, env[x.l.iv := i], map[], z, iv);
      NoiseEnvIs(f, preI, env[x.l.iv := i]);
      BackAtIv(preI, z, x.J().iv, iv);
      RootNothing(Root(preI, z));
    }
  }

  /** At the end of the body a name whose root is an induction variable has its value. */
  lemma RootedValue(f: Meaning, x: Nest, env: Env, h: Heap, i: int, j: int, k: int, y: Var)
    requires x.Ssa() && CastsKeep(f) && 0 <= i < 0x8000_0000 && 0 <= j < 0x8000_0000 && 0 <= k < 0x8000_0000
    ensures var v := Val(Run(f, x.K().body, EnvK(f, x, env, i, j, k), h).env, y);
      && (Root(x.Path(), y) == x.l.iv ==> v == i)
      && (Root(x.Path(), y) == x.J().iv ==> v == j)
      && (Root(x.Path(), y) == x.K().iv ==> v == k)
  {
    var before, body, iv := x.PreI() + x.PreJ(), x.K().body, Root(x.Path(), y);
    if iv == x.l.iv || iv == x.J().iv || iv == x.K().iv {
      hide Straight, Root, Defs, Uses, Run, EnvJ;
      NamesConcat(x.PreI(), x.PreJ());
      StageValue(f, before, body, EnvK(f, x, env, i, j, k), h, y, iv);
      if iv != x.K().iv { OuterValue(f, x, env, i, j, Root(body, y)); }
    }
  }

  /** C[i, j] + A[i, k] * B[k, j], from memory. */
  function MulAdd(f: Meaning, g: GemmOp, h: Heap, i: int, j: int, k: int): int {
    f(ADDF, [At(h, Addr(g.C, [i, j])), f(MULF, [At(h, Addr(g.A, [i, k])), At(h, Addr(g.B, [k, j]))])])
  }

  /** The operation the nest is replaced by. */
  function GemmOf(s: Parts): GemmOp {
    GemmOp(Memref(s.loadA), Memref(s.loadB), Memref(s.loadC), None, false)
  }

  ghost predicate Matched(x: Nest, s: Parts) {
    x.Ssa() && Fits(x.Path(), x.K().body, x.l.iv, x.J().iv, x.K().iv, s)
  }

  lemma IndexedValue(f: Meaning, x: Nest, env: Env, h: Heap, i: int, j: int, k: int, idx: seq<Var>, a: Var, b: Var,
          va: int, vb: int)
    requires x.Ssa() && CastsKeep(f) && 0 <= i < 0x8000_0000 && 0 <= j < 0x8000_0000 && 0 <= k < 0x8000_0000
    requires Indexed(x.Path(), idx, a, b)
    requires (a == x.l.iv && va == i) || (a == x.K().iv && va == k)
    requires (b == x.J().iv && vb == j) || (b == x.K().iv && vb == k)
    ensures Vals(Run(f, x.K().body, EnvK(f, x, env, i, j, k), h).env, idx) == [va, vb]
  {
    hide Straight, Run, Defs, Uses, Root;
    if Root(x.Path(), a) != a { RootMoves(x.Path(), a); }
    if Root(x.Path(), b) != b { RootMoves(x.Path(), b); }
    RootedValue(f, x, env, h, i, j, k, idx[0]);
    RootedValue(f, x, env, h, i, j, k, idx[1]);
  }

  /** One iteration of the innermost loop is one multiply-add into C[i, j]. */
  lemma BodyStep(f: Meaning, x: Nest, s: Parts, env: Env, h: Heap, i: int, j: int, k: int)
    requires Matched(x, s) && CastsKeep(f) && Commutes(f, ADDF) && Commutes(f, MULF)
    requires 0 <= i < 0x8000_0000 && 0 <= j < 0x8000_0000 && 0 <= k < 0x8000_0000
    ensures Run(f, x.K().body, EnvK(f, x, env, i, j, k), h).heap ==
      h[Addr(GemmOf(s).C, [i, j]) := MulAdd(f, GemmOf(s), h, i, j, k)]
  {
    var body, e := x.K().body, EnvK(f, x, env, i, j, k);
    var e' := Run(f, body, e, h).env;
    hide Straight, Run, Root, Of, EnvK, Indexed;
    StraightConcat(x.PreI() + x.PreJ(), body);
    StoreIsLast(x.Path(), body, x.l.iv, x.J().iv, x.K().iv, s);
    PartsIn(x.Path(), body, x.l.iv, x.J().iv, x.K().iv, s);
    Equations(f, body, e, h);
    IndexedValue(f, x, env, h, i, j, k, s.loadC.idx, x.l.iv, x.J().iv, i, j);
    IndexedValue(f, x, env, h, i, j, k, s.store.idx, x.l.iv, x.J().iv, i, j);
    IndexedValue(f, x, env, h, i, j, k, s.loadA.idx, x.l.iv, x.K().iv, i, k);
    IndexedValue(f, x, env, h, i, j, k, s.loadB.idx, x.K().iv, x.J().iv, k, j);
    assert Holds(f, s.mul, e', h) && Holds(f, s.add, e', h) && Holds(f, s.loadA, e', h) && Holds(f, s.loadB, e', h)
      && Holds(f, s.loadC, e', h);
    TwoOperands(f, s.mul, s.loadA.dst, s.loadB.dst, e');
    TwoOperands(f, s.add, s.loadC.dst, s.mul.dst, e');
  }

  // ----- the three loops

  /** What the nest visits: elements of C, and for each of them values of k. */
  datatype Extent = Extent(area: Area, depths: (int, int) -> Span) {
    predicate Visits(i: int, j: int, k: int) { area.Visits(i, j) && depths(i, j).Visits(k) }
  }

  /** The bounds of the loops, wherever they are computed. */
  ghost function ExtentOf(f: Meaning, x: Nest, env: Env): Extent
    requires x.Shaped()
  {
    Extent(
      Area(Span(Val(env, x.l.lo), Val(env, x.l.hi), Val(env, x.l.step)),
           (i: int) => var e := EnvI(f, x, env, i); Span(Val(e, x.J().lo), Val(e, x.J().hi), Val(e, x.J().step))),
      (i: int, j: int) => var e := EnvJ(f, x, env, i, j); Span(Val(e, x.K().lo), Val(e, x.K().hi), Val(e, x.K().step)))
  }

  /** The loops have the bounds of t. */
  ghost predicate Ranges(f: Meaning, x: Nest, env: Env, t: Extent)
    requires x.Shaped()
  {
    && t.area.rows == Span(Val(env, x.l.lo), Val(env, x.l.hi), Val(env, x.l.step))
    && (forall i :: var e := EnvI(f, x, env, i);
          t.area.cols(i) == Span(Val(e, x.J().lo), Val(e, x.J().hi), Val(e, x.J().step)))
    && (forall i, j :: var e := EnvJ(f, x, env, i, j);
          t.depths(i, j) == Span(Val(e, x.K().lo), Val(e, x.K().hi), Val(e, x.K().step)))
  }

  lemma ExtentRanges(f: Meaning, x: Nest, env: Env)
    requires x.Shaped()
    ensures Ranges(f, x, env, ExtentOf(f, x, env))
  {
    hide EnvI, EnvJ;
  }

  /** Every access is inside the matrices, whose sizes fit in 31 bits. */
  ghost predicate Inside(t: Extent, p: Problem) {
    && p.M < 0x8000_0000 && p.N < 0x8000_0000 && p.K < 0x8000_0000
    && (forall i, j :: t.area.Visits(i, j) ==> InC(p, i, j))
    && (forall i, j, k :: t.Visits(i, j, k) ==> 0 <= k < p.K)
  }

  /** C[r, c] plus the products of the depths in d below n, in ascending order. */
  function Part(p: Problem, mem: M.Mem, r: int, c: int, d: Span, n: int): Elem
    decreases if n > 0 then n else 0
  {
    if n <= 0 then Read(mem, M.GC(r, c))
    else
      var v := Part(p, mem, r, c, d, n - 1);
      if d.Visits(n - 1) then p.o.add(v, p.o.mul(Read(mem, M.GA(r, n - 1)), Read(mem, M.GB(n - 1, c)))) else v
  }

  lemma {:induction false} PartSkip(p: Problem, mem: M.Mem, r: int, c: int, d: Span, n: int, n': int)
    requires n <= n' && forall k :: n <= k < n' ==> k < 0 || !d.Visits(k)
    ensures Part(p, mem, r, c, d, n') == Part(p, mem, r, c, d, n)
    decreases n' - n
  {
    hide Span.Visits;
    if n < n' && n' > 0 { PartSkip(p, mem, r, c, d, n, n' - 1); }
  }

  lemma PartNext(p: Problem, mem: M.Mem, r: int, c: int, d: Span, k: nat)
    requires d.Visits(k)
    ensures Part(p, mem, r, c, d, k + 1) ==
            p.o.add(Part(p, mem, r, c, d, k), p.o.mul(Read(mem, M.GA(r, k)), Read(mem, M.GB(k, c))))
  {}

  /** What the nest leaves in C[i, j], from the memory it starts in. */
  function Target(p: Problem, g: GemmOp, h0: Heap, t: Extent): (int, int) -> int {
    (r: int, c: int) => Part(p, Matrices(p, g, h0), r, c, t.depths(r, c), p.K).code
  }

  lemma TargetAt(p: Problem, g: GemmOp, h0: Heap, t: Extent, r: int, c: int)
    ensures Target(p, g, h0, t)(r, c) == Part(p, Matrices(p, g, h0), r, c, t.depths(r, c), p.K).code
  {}

  /** While C[i, j] is under way: it has the products before k, and the rest is as it was. */
  ghost predicate UnderWay(p: Problem, g: GemmOp, h0: Heap, t: Extent, i: int, j: int, k: int, h1: Heap, h: Heap) {
    forall a :: At(h, a) ==
      if a == Addr(g.C, [i, j]) then Part(p, Matrices(p, g, h0), i, j, t.depths(i, j), k).code else At(h1, a)
  }

  /** C[r, c] has no product yet when the nest comes to product (i, j, k). */
  predicate Unchanged(t: Extent, i: int, j: int, k: int, r: int, c: int) {
    !t.area.Before(i, j, r, c) && (r == i && c == j ==> forall n :: 0 <= n < k ==> !t.depths(i, j).Visits(n))
  }

  /** No product reads an element of C that the nest has changed: the matcher accepts C in the place
      of A and B. */
  ghost predicate Fresh(t: Extent, g: GemmOp) {
    forall i, j, k :: t.Visits(i, j, k) ==>
      (g.A == g.C ==> Unchanged(t, i, j, k, i, k)) && (g.B == g.C ==> Unchanged(t, i, j, k, k, j))
  }

  /** Products do not depend on their factors. */
  ghost predicate Ignores(f: Meaning) {
    forall x, y, x', y' :: f(MULF, [x, y]) == f(MULF, [x', y'])
  }

  /** C[i, j] as the nest found it, and the factors of its products too. */
  ghost predicate Untouched(t: Extent, g: GemmOp, h0: Heap, i: int, j: int, h1: Heap) {
    && At(h1, Addr(g.C, [i, j])) == At(h0, Addr(g.C, [i, j]))
    && (Fresh(t, g) ==> forall k :: t.depths(i, j).Visits(k) ==> FactorsKept(g, h0, i, j, k, h1))
  }

  /** An element of C that is read as a factor may be under way itself. */
  ghost predicate FactorsKept(g: GemmOp, h0: Heap, i: int, j: int, k: int, h1: Heap) {
    At(h1, Addr(g.A, [i, k])) == At(h0, Addr(g.A, [i, k])) && At(h1, Addr(g.B, [k, j])) == At(h0, Addr(g.B, [k, j]))
  }

  lemma DepthsInside(t: Extent, p: Problem, i: int, j: int)
    requires Inside(t, p) && t.area.Visits(i, j)
    ensures forall k :: t.depths(i, j).Visits(k) ==> 0 <= k < p.K
  {
    hide Span.Visits, Area.Visits;
    forall k | t.depths(i, j).Visits(k)
      ensures 0 <= k < p.K
    {
      assert t.Visits(i, j, k);
    }
  }

  lemma MulAddIsPart(f: Meaning, p: Problem, g: GemmOp, h0: Heap, t: Extent, i: int, j: int, k: int, h1: Heap, h: Heap)
    requires p.o == ArithOf(f) && Inside(t, p) && t.area.Visits(i, j) && t.depths(i, j).Visits(k)
    requires Fresh(t, g) || Ignores(f)
    requires UnderWay(p, g, h0, t, i, j, k, h1, h) && Untouched(t, g, h0, i, j, h1)
    ensures MulAdd(f, g, h, i, j, k) == Part(p, Matrices(p, g, h0), i, j, t.depths(i, j), k + 1).code
  {
    hide Matrices, Part, Area.Visits, Span.Visits, Fresh, Unchanged;
    var mem := Matrices(p, g, h0);
    var a, b, c := Addr(g.A, [i, k]), Addr(g.B, [k, j]), Addr(g.C, [i, j]);
    MatricesRead(p, g, h0);
    DepthsInside(t, p, i, j);
    PartNext(p, mem, i, j, t.depths(i, j), k);
    assert At(h, c) == Part(p, mem, i, j, t.depths(i, j), k).code;
    assert At(h0, a) == Read(mem, M.GA(i, k)).code && At(h0, b) == Read(mem, M.GB(k, j)).code;
    if Fresh(t, g) {
      FactorFresh(p, g, h0, t, i, j, k, h1, h, a);
      FactorFresh(p, g, h0, t, i, j, k, h1, h, b);
    }
  }

  /** A factor has its initial value, even when it is the element under way. */
  lemma FactorFresh(p: Problem, g: GemmOp, h0: Heap, t: Extent, i: int, j: int, k: int, h1: Heap, h: Heap, a: Addr)
    requires Fresh(t, g) && t.Visits(i, j, k) && InC(p, i, j)
    requires a == Addr(g.A, [i, k]) || a == Addr(g.B, [k, j])
    requires UnderWay(p, g, h0, t, i, j, k, h1, h) && Untouched(t, g, h0, i, j, h1)
    ensures At(h, a) == At(h0, a)
  {
    hide Matrices, Part, Area.Visits, Span.Visits;
    if a == Addr(g.C, [i, j]) {
      assert [i, j][0] == i && [i, j][1] == j && [i, k][1] == k && [k, j][0] == k;
      var r := if a == Addr(g.A, [i, k]) then i else k;
      assert Unchanged(t, i, j, k, i, j);
      PartSkip(p, Matrices(p, g, h0), i, j, t.depths(i, j), 0, if k > 0 then k else 0);
      PartStarts(p, Matrices(p, g, h0), i, j, t.depths(i, j), if k > 0 then 0 else k);
      MatricesRead(p, g, h0);
    } else {
      assert FactorsKept(g, h0, i, j, k, h1);
    }
  }

  lemma PartStarts(p: Problem, mem: M.Mem, r: int, c: int, d: Span, n: int)
    requires n <= 0
    ensures Part(p, mem, r, c, d, n) == Read(mem, M.GC(r, c))
  {}

  lemma UnderWayNext(p: Problem, g: GemmOp, h0: Heap, t: Extent, i: int, j: int, k: int, k': int, h1: Heap,
          h: Heap, v: int)
    requires UnderWay(p, g, h0, t, i, j, k, h1, h)
    requires v == Part(p, Matrices(p, g, h0), i, j, t.depths(i, j), k').code
    ensures UnderWay(p, g, h0, t, i, j, k', h1, h[Addr(g.C, [i, j]) := v])
  {
    hide Matrices, Part;
    var cell := Addr(g.C, [i, j]);
    forall a
      ensures At(h[cell := v], a) ==
        if a == cell then Part(p, Matrices(p, g, h0), i, j, t.depths(i, j), k').code else At(h1, a)
    {
      assert a != cell ==> At(h, a) == At(h1, a);
    }
  }

  lemma UnderWaySkip(p: Problem, g: GemmOp, h0: Heap, t: Extent, i: int, j: int, k: int, k': int, h1: Heap, h: Heap)
    requires UnderWay(p, g, h0, t, i, j, k, h1, h)
    requires forall n :: k <= n < k' || k' <= n < k ==> n < 0 || !t.depths(i, j).Visits(n)
    ensures UnderWay(p, g, h0, t, i, j, k', h1, h)
  {
    hide Matrices, Part, Span.Visits;
    if k <= k' {
      PartSkip(p, Matrices(p, g, h0), i, j, t.depths(i, j), k, k');
    } else {
      PartSkip(p, Matrices(p, g, h0), i, j, t.depths(i, j), k', k);
    }
  }

  lemma NotBegun(p: Problem, g: GemmOp, h0: Heap, t: Extent, i: int, j: int, h1: Heap)
    requires InC(p, i, j) && Untouched(t, g, h0, i, j, h1)
    ensures UnderWay(p, g, h0, t, i, j, 0, h1, h1)
  {
    MatricesRead(p, g, h0);
    hide Matrices;
    assert At(h1, Addr(g.C, [i, j])) == At(h0, Addr(g.C, [i, j]));
  }

  /** A matched nest over a problem, with what the pass takes for granted. */
  ghost predicate Accepted(f: Meaning, x: Nest, s: Parts, p: Problem, t: Extent) {
    && Matched(x, s) && CastsKeep(f) && Commutes(f, ADDF) && Commutes(f, MULF)
    && p.o == ArithOf(f) && Inside(t, p)
  }

  /** And whose products are those of the initial memory. */
  ghost predicate Product(f: Meaning, x: Nest, s: Parts, p: Problem, t: Extent) {
    Accepted(f, x, s, p, t) && (Fresh(t, GemmOf(s)) || Ignores(f))
  }

  lemma {:induction false} LoopK(f: Meaning, x: Nest, s: Parts, p: Problem, t: Extent, env: Env, h0: Heap, i: int,
          j: int, k: int, h1: Heap, h: Heap)
    requires Product(f, x, s, p, t) && t.area.Visits(i, j) && t.depths(i, j).Reaches(k)
    requires t.depths(i, j).step <= 0 ==> k == t.depths(i, j).lo
    requires Untouched(t, GemmOf(s), h0, i, j, h1) && UnderWay(p, GemmOf(s), h0, t, i, j, k, h1, h)
    ensures var d := t.depths(i, j);
      UnderWay(p, GemmOf(s), h0, t, i, j, p.K, h1,
          Loop(f, x.K().iv, k, d.hi, d.step, x.K().body, EnvJ(f, x, env, i, j), h).heap)
    decreases t.depths(i, j).hi - k
  {
    hide UnderWay, Untouched, Fresh, Ignores, Fits, EnvJ, MulAdd, Matrices, Part;
    var d, g := t.depths(i, j), GemmOf(s);
    DepthsInside(t, p, i, j);
    if d.Over(k) {
      UnderWaySkip(p, g, h0, t, i, j, k, p.K, h1, h);
    } else {
      assert t.Visits(i, j, k) && InC(p, i, j);
      BodyStep(f, x, s, env, h, i, j, k);
      MulAddIsPart(f, p, g, h0, t, i, j, k, h1, h);
      UnderWayNext(p, g, h0, t, i, j, k, k + 1, h1, h, MulAdd(f, g, h, i, j, k));
      var h' := Run(f, x.K().body, EnvK(f, x, env, i, j, k), h).heap;
      NextVisit(d, k);
      UnderWaySkip(p, g, h0, t, i, j, k + 1, k + d.step, h1, h');
      LoopK(f, x, s, p, t, env, h0, i, j, k + d.step, h1, h');
    }
  }

  /** The body of the j loop runs the k loop. */
  lemma InnerRuns(f: Meaning, x: Nest, t: Extent, env: Env, i: int, j: int, h: Heap)
    requires x.Shaped() && Ranges(f, x, env, t)
    ensures var d := t.depths(i, j);
      Run(f, x.J().body, EnvI(f, x, env, i)[x.J().iv := j], h).heap ==
      Loop(f, x.K().iv, d.lo, d.hi, d.step, x.K().body, EnvJ(f, x, env, i, j), h).heap
  {
    hide Run;
    BlockRuns(f, x.J().body, x.nK, EnvI(f, x, env, i)[x.J().iv := j], h);
  }

  /** The body of the i loop runs the j loop. */
  lemma OuterRuns(f: Meaning, x: Nest, t: Extent, env: Env, i: int, h: Heap)
    requires x.Shaped() && Ranges(f, x, env, t)
    ensures var d := t.area.cols(i);
      Run(f, x.l.body, env[x.l.iv := i], h).heap ==
      Loop(f, x.J().iv, d.lo, d.hi, d.step, x.J().body, EnvI(f, x, env, i), h).heap
  {
    hide Run;
    BlockRuns(f, x.l.body, x.nJ, env[x.l.iv := i], h);
  }

  lemma FreshAt(t: Extent, g: GemmOp, i: int, j: int, k: int)
    requires Fresh(t, g) && t.Visits(i, j, k)
    ensures g.A == g.C ==> !t.area.Before(i, j, i, k)
    ensures g.B == g.C ==> !t.area.Before(i, j, k, j)
  {
    hide Area.Before, Extent.Visits;
    assert g.A == g.C ==> Unchanged(t, i, j, k, i, k);
    assert g.B == g.C ==> Unchanged(t, i, j, k, k, j);
  }

  lemma NotBefore(g: GemmOp, t: Extent, fin: (int, int) -> int, h0: Heap, i: int, j: int, h1: Heap, a: Addr)
    requires FilledTo(g.C, t.area, fin, h0, i, j, h1)
    requires IsElement(g.C, a) ==> !t.area.Before(i, j, a.at[0], a.at[1])
    ensures At(h1, a) == At(h0, a)
  {}

  lemma FilledUntouched(p: Problem, g: GemmOp, h0: Heap, t: Extent, i: int, j: int, h1: Heap)
    requires Inside(t, p) && t.area.Visits(i, j)
    requires FilledTo(g.C, t.area, Target(p, g, h0, t), h0, i, j, h1)
    ensures Untouched(t, g, h0, i, j, h1) && UnderWay(p, g, h0, t, i, j, 0, h1, h1)
  {
    assert Untouched(t, g, h0, i, j, h1) by {
      hide Target, Fresh, Unchanged, FilledTo, Span.Visits;
      NotBefore(g, t, Target(p, g, h0, t), h0, i, j, h1, Addr(g.C, [i, j]));
      forall k | Fresh(t, g) && t.depths(i, j).Visits(k)
        ensures FactorsKept(g, h0, i, j, k, h1)
      {
        FreshAt(t, g, i, j, k);
        NotBefore(g, t, Target(p, g, h0, t), h0, i, j, h1, Addr(g.A, [i, k]));
        NotBefore(g, t, Target(p, g, h0, t), h0, i, j, h1, Addr(g.B, [k, j]));
      }
    }
    hide FilledTo, Untouched, UnderWay;
    NotBegun(p, g, h0, t, i, j, h1);
  }

  /** C[i, j] is complete when its last product is in. */
  lemma ElementFilled(p: Problem, g: GemmOp, h0: Heap, t: Extent, i: int, j: int, h1: Heap, h: Heap)
    requires t.area.Visits(i, j) && FilledTo(g.C, t.area, Target(p, g, h0, t), h0, i, j, h1)
    requires UnderWay(p, g, h0, t, i, j, p.K, h1, h)
    ensures FilledTo(g.C, t.area, Target(p, g, h0, t), h0, i, j + t.area.cols(i).step, h)
  {
    hide Target, Part, Matrices, Area.Visits, FilledTo;
    TargetAt(p, g, h0, t, i, j);
    FilledNext(g.C, t.area, Target(p, g, h0, t), h0, i, j, h1, h);
  }

  /** The whole inner loop, from where C[i, j] has not been touched. */
  lemma ElementDone(f: Meaning, x: Nest, s: Parts, p: Problem, t: Extent, env: Env, h0: Heap, i: int, j: int, h1: Heap)
    requires Product(f, x, s, p, t) && t.area.Visits(i, j) && Ranges(f, x, env, t)
    requires FilledTo(GemmOf(s).C, t.area, Target(p, GemmOf(s), h0, t), h0, i, j, h1)
    ensures var j' := j + t.area.cols(i).step;
      FilledTo(GemmOf(s).C, t.area, Target(p, GemmOf(s), h0, t), h0, i, j',
               Run(f, x.J().body, EnvI(f, x, env, i)[x.J().iv := j], h1).heap)
  {
    assert x.Shaped();
    hide Ranges, Run, Loop, Fits, Nest.Ssa, Nest.Shaped, Target, FilledTo, Untouched, UnderWay, EnvI, EnvJ;
    var d, g := t.depths(i, j), GemmOf(s);
    FilledUntouched(p, g, h0, t, i, j, h1);
    DepthsInside(t, p, i, j);
    UnderWaySkip(p, g, h0, t, i, j, 0, d.lo, h1, h1);
    LoopK(f, x, s, p, t, env, h0, i, j, d.lo, h1, h1);
    InnerRuns(f, x, t, env, i, j, h1);
    ElementFilled(p, g, h0, t, i, j, h1, Run(f, x.J().body, EnvI(f, x, env, i)[x.J().iv := j], h1).heap);
  }

  lemma {:induction false} LoopJ(f: Meaning, x: Nest, s: Parts, p: Problem, t: Extent, env: Env, h0: Heap, i: int,
          j: int, h: Heap)
    requires Product(f, x, s, p, t) && Ranges(f, x, env, t) && t.area.rows.Visits(i) && t.area.cols(i).Reaches(j)
    requires FilledTo(GemmOf(s).C, t.area, Target(p, GemmOf(s), h0, t), h0, i, j, h)
    ensures var d, i' := t.area.cols(i), i + t.area.rows.step;
      FilledTo(GemmOf(s).C, t.area, Target(p, GemmOf(s), h0, t), h0, i', t.area.cols(i').lo,
               Loop(f, x.J().iv, j, d.hi, d.step, x.J().body, EnvI(f, x, env, i), h).heap)
    decreases t.area.cols(i).hi - j
  {
    hide FilledTo, Fits, Run, Straight, Ranges, Target, EnvI;
    var d := t.area.cols(i);
    if d.Over(j) {
      FilledRow(GemmOf(s).C, t.area, Target(p, GemmOf(s), h0, t), h0, i, j, h);
    } else {
      ElementDone(f, x, s, p, t, env, h0, i, j, h);
      NextVisit(d, j);
      LoopJ(f, x, s, p, t, env, h0, i, j + d.step, Run(f, x.J().body, EnvI(f, x, env, i)[x.J().iv := j], h).heap);
    }
  }

  lemma {:induction false} LoopI(f: Meaning, x: Nest, s: Parts, p: Problem, t: Extent, env: Env, h0: Heap, i: int,
          h: Heap)
    requires Product(f, x, s, p, t) && Ranges(f, x, env, t) && t.area.rows.Reaches(i)
    requires FilledTo(GemmOf(s).C, t.area, Target(p, GemmOf(s), h0, t), h0, i, t.area.cols(i).lo, h)
    ensures var d := t.area.rows;
      FilledAll(GemmOf(s).C, t.area, Target(p, GemmOf(s), h0, t), h0,
          Loop(f, x.l.iv, i, d.hi, d.step, x.l.body, env, h).heap)
    decreases t.area.rows.hi - i
  {
    hide FilledTo, FilledAll, Fits, Run, Straight, Ranges, Target, EnvI;
    var d := t.area.rows;
    if d.Over(i) {
      FilledEnd(GemmOf(s).C, t.area, Target(p, GemmOf(s), h0, t), h0, i, t.area.cols(i).lo, h);
    } else {
      OuterRuns(f, x, t, env, i, h);
      LoopJ(f, x, s, p, t, env, h0, i, t.area.cols(i).lo, h);
      NextVisit(d, i);
      LoopI(f, x, s, p, t, env, h0, i + d.step, Run(f, x.l.body, env[x.l.iv := i], h).heap);
    }
  }

  /** What a matched nest leaves in memory, whatever its bounds: the products it visits are added
      to the elements it visits, and nothing else changes. */
  lemma NestComputes(f: Meaning, x: Nest, s: Parts, p: Problem, t: Extent, env: Env, h: Heap)
    requires Product(f, x, s, p, t) && Ranges(f, x, env, t)
    ensures FilledAll(GemmOf(s).C, t.area, Target(p, GemmOf(s), h, t), h, Run(f, [x.l], env, h).heap)
  {
    hide FilledTo, FilledAll, Fits, Run, Straight, Target, EnvI;
    FilledStart(GemmOf(s).C, t.area, Target(p, GemmOf(s), h, t), h);
    LoopI(f, x, s, p, t, env, h, t.area.rows.lo, h);
    RunOne(f, x.l, env, h);
    var d := t.area.rows;
    assert RunOp(f, x.l, env, h).heap == Loop(f, x.l.iv, d.lo, d.hi, d.step, x.l.body, env, h).heap;
  }

  // ----- exactly when

  lemma RangesMeaning(f: Meaning, f': Meaning, x: Nest, env: Env, t: Extent)
    requires x.Shaped() && Ranges(f, x, env, t)
    requires AgreeButArithmetic(f, f')
    ensures Ranges(f', x, env, t)
  {
    hide NoiseEnv;
    forall i
      ensures EnvI(f', x, env, i) == EnvI(f, x, env, i)
    {
      NoiseMeaning(f, f', x.PreI(), env[x.l.iv := i]);
    }
    forall i, j
      ensures EnvJ(f', x, env, i, j) == EnvJ(f, x, env, i, j)
    {
      NoiseMeaning(f, f', x.PreJ(), EnvI(f, x, env, i)[x.J().iv := j]);
    }
  }

  /** The nest visits every product of every element. */
  ghost predicate Whole(t: Extent, p: Problem) {
    forall i, j, k :: InC(p, i, j) && 0 <= k < p.K ==> t.Visits(i, j, k)
  }

  /** Loops from 0 by 1 up to the sizes of the matrices. */
  lemma PlainBounds(t: Extent, p: Problem)
    requires p.M < 0x8000_0000 && p.N < 0x8000_0000 && p.K < 0x8000_0000
    requires t.area.rows == Span(0, p.M, 1) && (forall i :: t.area.cols(i) == Span(0, p.N, 1))
    requires forall i, j :: t.depths(i, j) == Span(0, p.K, 1)
    ensures Inside(t, p) && Whole(t, p)
  {}

  lemma {:induction false} PartIsDot(p: Problem, mem: M.Mem, r: int, c: int, d: Span, n: nat)
    requires forall k :: 0 <= k < n ==> d.Visits(k)
    ensures Part(p, mem, r, c, d, n) == Dot(p, mem, r, c, n)
  {
    if n > 0 { PartIsDot(p, mem, r, c, d, n - 1); }
  }

  /** Recognition is sound: a matched nest over whole matrices does what the GEMM operation does. */
  lemma RecognitionSound(f: Meaning, x: Nest, s: Parts, p: Problem, t: Extent, env: Env, h: Heap)
    requires Product(f, x, s, p, t) && Ranges(f, x, env, t) && !p.bias && !p.relu && Whole(t, p)
    ensures DoesGemm(p, GemmOf(s), h, Run(f, [x.l], env, h).heap)
  {
    hide Fits, Run, Straight, Ranges, Target;
    var g := GemmOf(s);
    NestComputes(f, x, s, p, t, env, h);
    var h' := Run(f, [x.l], env, h).heap;
    forall a
      ensures At(h', a) == if IsCellOfC(p, g, a) then Gemm(p, Matrices(p, g, h), a.at[0], a.at[1]).code else At(h, a)
    {
      if IsElement(g.C, a) { SoundAt(p, g, h, t, h', a); }
    }
  }

  lemma SoundAt(p: Problem, g: GemmOp, h: Heap, t: Extent, h': Heap, a: Addr)
    requires Inside(t, p) && Whole(t, p) && !p.bias && !p.relu && IsElement(g.C, a)
    requires At(h', a) == if t.area.Visits(a.at[0], a.at[1]) then Target(p, g, h, t)(a.at[0], a.at[1]) else At(h, a)
    ensures At(h', a) == if IsCellOfC(p, g, a) then Gemm(p, Matrices(p, g, h), a.at[0], a.at[1]).code else At(h, a)
  {
    var r, c := a.at[0], a.at[1];
    assert a == Addr(g.C, [r, c]);
    hide Matrices, Dot, Part, Area.Visits, Span.Visits;
    MatricesRead(p, g, h);
    if InC(p, r, c) {
      forall k | 0 <= k < p.K
        ensures t.area.Visits(r, c) && t.depths(r, c).Visits(k)
      {
        assert t.Visits(r, c, k);
      }
      PartIsDot(p, Matrices(p, g, h), r, c, t.depths(r, c), p.K);
      DotStart(p, Matrices(p, g, h), r, c);
    }
  }

  lemma DotStart(p: Problem, mem: M.Mem, r: int, c: int)
    ensures Dot(p, mem, r, c, 0) == Read(mem, M.GC(r, c))
  {}

  /** The meaning that counts the products added. */
  function Count(f: Meaning): Meaning {
    (k: nat, xs: seq<int>) => if k == ADDF && |xs| == 2 then xs[0] + xs[1] else if k == MULF then 1 else f(k, xs)
  }

  lemma {:induction false} DotCounts(f: Meaning, p: Problem, mem: M.Mem, r: int, c: int, n: nat)
    requires p.o == ArithOf(Count(f)) && Read(mem, M.GC(r, c)) == Elem(0)
    ensures Dot(p, mem, r, c, n).code == n
    decreases n
  {
    if n > 0 {
      DotCounts(f, p, mem, r, c, n - 1);
      AddCounts(f, Dot(p, mem, r, c, n - 1), Read(mem, M.GA(r, n - 1)), Read(mem, M.GB(n - 1, c)));
    }
  }

  lemma {:induction false} PartCounts(f: Meaning, p: Problem, mem: M.Mem, r: int, c: int, d: Span, n: nat)
    requires p.o == ArithOf(Count(f)) && Read(mem, M.GC(r, c)) == Elem(0)
    ensures Part(p, mem, r, c, d, n).code <= n
    ensures (exists k :: 0 <= k < n && !d.Visits(k)) ==> Part(p, mem, r, c, d, n).code < n
    decreases n
  {
    hide Span.Visits;
    if n > 0 {
      PartCounts(f, p, mem, r, c, d, n - 1);
      AddCounts(f, Part(p, mem, r, c, d, n - 1), Read(mem, M.GA(r, n - 1)), Read(mem, M.GB(n - 1, c)));
    }
  }

  lemma AddCounts(f: Meaning, v: Elem, x: Elem, y: Elem)
    ensures var o := ArithOf(Count(f)); o.add(v, o.mul(x, y)).code == v.code + 1
  {}

  lemma CountMeaning(f: Meaning)
    ensures AgreeButArithmetic(f, Count(f)) && Commutes(Count(f), ADDF) && Commutes(Count(f), MULF) && Ignores(Count(f))
  {}

  /** The nest does what the GEMM operation does, whatever the arithmetic and the memory. */
  ghost predicate AlwaysGemm(f0: Meaning, x: Nest, s: Parts, p: Problem, env: Env) {
    forall f: Meaning, h: Heap :: AgreeButArithmetic(f0, f) && Commutes(f, ADDF) && Commutes(f, MULF) ==>
      DoesGemm(p.(o := ArithOf(f)), GemmOf(s), h, Run(f, [x.l], env, h).heap)
  }

  lemma PartDiffers(f: Meaning, x: Nest, s: Parts, p: Problem, t: Extent, env: Env)
    requires Product(Count(f), x, s, p, t) && Ranges(Count(f), x, env, t) && !p.bias && !p.relu && !Whole(t, p)
    ensures !DoesGemm(p, GemmOf(s), map[], Run(Count(f), [x.l], env, map[]).heap)
  {
    hide Fits, Run, Straight, Dot, Part, Matrices, Ranges, Target, Area.Visits, Span.Visits;
    var g := GemmOf(s);
    NestComputes(Count(f), x, s, p, t, env, map[]);
    var r, c, k :| InC(p, r, c) && 0 <= k < p.K && !t.Visits(r, c, k);
    var a := Addr(g.C, [r, c]);
    MatricesRead(p, g, map[]);
    PartCounts(f, p, Matrices(p, g, map[]), r, c, t.depths(r, c), p.K);
    DotCounts(f, p, Matrices(p, g, map[]), r, c, p.K);
    TargetAt(p, g, map[], t, r, c);
    assert IsCellOfC(p, g, a) && IsElement(g.C, a);
    assert At(Run(Count(f), [x.l], env, map[]).heap, a) < p.K;
  }

  /** A nest that visits everything and reads only initial factors is always the GEMM. */
  lemma WholeIsGemm(f: Meaning, x: Nest, s: Parts, p: Problem, t: Extent, env: Env)
    requires Accepted(f, x, s, p, t) && Ranges(f, x, env, t) && !p.bias && !p.relu
    requires Whole(t, p) && Fresh(t, GemmOf(s))
    ensures AlwaysGemm(f, x, s, p, env)
  {
    hide Fits, Ranges, Run, Straight, Inside, Whole, Fresh, DoesGemm;
    forall f': Meaning, h: Heap | AgreeButArithmetic(f, f') && Commutes(f', ADDF) && Commutes(f', MULF)
      ensures DoesGemm(p.(o := ArithOf(f')), GemmOf(s), h, Run(f', [x.l], env, h).heap)
    {
      AcceptedMeaning(f, f', x, s, p, t);
      RangesMeaning(f, f', x, env, t);
      RecognitionSound(f', x, s, p.(o := ArithOf(f')), t, env, h);
    }
  }

  /** A nest that leaves something out is not, aliased or not. */
  lemma PartIsNotGemm(f: Meaning, x: Nest, s: Parts, p: Problem, t: Extent, env: Env)
    requires Accepted(f, x, s, p, t) && Ranges(f, x, env, t) && !p.bias && !p.relu && !Whole(t, p)
    ensures !AlwaysGemm(f, x, s, p, env)
  {
    hide Fits, Ranges, Run, Straight, Inside, Whole, Fresh, Ignores, DoesGemm;
    CountMeaning(f);
    AcceptedMeaning(f, Count(f), x, s, p, t);
    RangesMeaning(f, Count(f), x, env, t);
    PartDiffers(f, x, s, p.(o := ArithOf(Count(f))), t, env);
  }

  lemma AcceptedMeaning(f: Meaning, f': Meaning, x: Nest, s: Parts, p: Problem, t: Extent)
    requires Accepted(f, x, s, p, t) && AgreeButArithmetic(f, f') && Commutes(f', ADDF) && Commutes(f', MULF)
    ensures var p' := p.(o := ArithOf(f')); Accepted(f', x, s, p', t) && (Whole(t, p) <==> Whole(t, p'))
  {
    hide Matched, Extent.Visits, Area.Visits;
  }

  /** Memory that holds the GEMM of the recognised operands holds in C what the nest leaves there. */
  lemma NestIsGemm(f: Meaning, x: Nest, s: Parts, p: Problem, t: Extent, env: Env, h: Heap, final: M.Mem)
    requires Product(f, x, s, p, t) && Ranges(f, x, env, t) && !p.bias && !p.relu && Whole(t, p)
    requires IsGemmOf(p, Matrices(p, GemmOf(s), h), final)
    ensures var h' := Run(f, [x.l], env, h).heap;
      && (forall r, c :: InC(p, r, c) ==> Element(h', GemmOf(s).C, [r, c]) == Read(final, M.GC(r, c)))
      && (forall a :: !IsCellOfC(p, GemmOf(s), a) ==> At(h', a) == At(h, a))
  {
    hide Fits, Run, Straight, Dot, Matrices, Ranges, Gemm;
    RecognitionSound(f, x, s, p, t, env, h);
    var h' := Run(f, [x.l], env, h).heap;
    forall r, c | InC(p, r, c)
      ensures Element(h', GemmOf(s).C, [r, c]) == Read(final, M.GC(r, c))
    {
      assert IsCellOfC(p, GemmOf(s), Addr(GemmOf(s).C, [r, c]));
    }
  }

  /** Every level of the ladder that suits the problem, under every schedule, leaves in C what the
      nest leaves there, and the nest touches nothing else. */
  lemma RecognitionComposes(f: Meaning, x: Nest, s: Parts, p: Problem, t: Extent, env: Env, h: Heap, level: Rung,
                            states: seq<M.State>, moves: seq<M.Move>)
    requires Product(f, x, s, p, t) && Ranges(f, x, env, t) && !p.bias && !p.relu && Whole(t, p)
    requires GemmOf(s).C != GemmOf(s).A && GemmOf(s).C != GemmOf(s).B
    requires level.WellShaped() && level.Suits(p)
    requires M.IsRun(level.Kernel(p), p.o, Matrices(p, GemmOf(s), h), states, moves)
    requires M.Done(level.Kernel(p), states[|moves|])
    ensures var h' := Run(f, [x.l], env, h).heap;
      && (forall r, c :: InC(p, r, c) ==>
            Element(h', GemmOf(s).C, [r, c]) == Read(states[|moves|].mem, M.GC(r, c)))
      && (forall a :: !IsCellOfC(p, GemmOf(s), a) ==> At(h', a) == At(h, a))
  {
    hide Product, Ranges, Run, IsGemmOf, Matrices, Whole;
    EveryRunComputesGemm(level, p, Matrices(p, GemmOf(s), h), states, moves);
    NestIsGemm(f, x, s, p, t, env, h, states[|moves|].mem);
  }
}
