/** The matcher that finds an elementwise consumer of a GEMM. */
module EpilogueMatcher {
  import opened Wrappers
  import opened LoopIR
  import opened Nests
  import opened EpilogueFusion

  /** No class the consumer must not have, and at most one add, maximum and store. */
  ghost predicate Supported(body: seq<Op>) {
    && Of(body, MulOp) == [] && Of(body, OtherOp) == []
    && |Of(body, AddOp)| <= 1 && |Of(body, MaxOp)| <= 1 && |Of(body, StoreOp)| <= 1
  }

  /** Sorts the body and stops at the first operation that is not supported. */
  method Collect(body: seq<Op>) returns (ok: bool, loads: seq<Op>, add: Option<Op>, relu: Option<Op>, store: Option<Op>)
    ensures ok <==> Supported(body)
    ensures ok ==>
      && loads == Of(body, LoadOp) && Listed(add) == Of(body, AddOp)
      && Listed(relu) == Of(body, MaxOp) && Listed(store) == Of(body, StoreOp)
  {
    hide Of, ClassOf, Noise;
    loads, add, relu, store := [], None, None, None;
    OfNothing(body);
    for i := 0 to |body|
      invariant Supported(body[..i]) && loads == Of(body[..i], LoadOp)
      invariant Listed(add) == Of(body[..i], AddOp) && Listed(relu) == Of(body[..i], MaxOp)
        && Listed(store) == Of(body[..i], StoreOp)
    {
      var op := body[i];
      CollectedNext(body, i);
      ClassIs(op);
      NoiseIsQuiet(op);
      OfPrefixes(body, i + 1);
      if Noise(op) {
      } else if op.Load? {
        loads := loads + [op];
      } else if Kind(op, ADDF) {
        if add.Some? { return false, loads, add, relu, store; }
        add := Some(op);
      } else if Kind(op, MAXIMUMF) {
        if relu.Some? { return false, loads, add, relu, store; }
        relu := Some(op);
      } else if op.Store? {
        if store.Some? { return false, loads, add, relu, store; }
        store := Some(op);
      } else {
        return false, loads, add, relu, store;
      }
    }
    assert body[..|body|] == body;
    ok := true;
  }

  lemma OfNothing(body: seq<Op>)
    ensures forall c :: Of(body[..0], c) == []
  {}

  lemma OfPrefixes(body: seq<Op>, n: nat)
    requires n <= |body|
    ensures forall c :: |Of(body[..n], c)| <= |Of(body, c)|
  {
    forall c: Class ensures |Of(body[..n], c)| <= |Of(body, c)| { OfPrefix(body, n, c); }
  }

  /** The constant a value is defined by, if `isZero` accepts it. */
  method FindZero(defs: seq<Op>, z: Var) returns (zero: Option<Op>)
    ensures zero.Some? ==> zero.value in defs && IsZero(zero.value) && zero.value.dst == z
    ensures zero.None? ==> forall op :: op in defs && IsZero(op) ==> op.dst != z
  {
    for i := 0 to |defs|
      invariant forall op :: op in defs[..i] && IsZero(op) ==> op.dst != z
    {
      if IsZero(defs[i]) && defs[i].dst == z { return Some(defs[i]); }
      assert defs[..i + 1] == defs[..i] + [defs[i]];
    }
    assert defs[..|defs|] == defs;
    return None;
  }

  /** The zero that the maximum compares the sum with, in either operand order. */
  method ZeroOperand(defs: seq<Op>, relu: Op, sum: Var) returns (zero: Option<Op>)
    requires relu.Pure? && |relu.args| == 2
    ensures zero.Some? ==> zero.value in defs && IsZero(zero.value) && Operands(relu, sum, zero.value.dst)
    ensures zero.None? ==> forall op :: op in defs && IsZero(op) ==> !Operands(relu, sum, op.dst)
  {
    assert relu.args == [relu.args[0], relu.args[1]];
    if relu.args[0] == sum {
      zero := FindZero(defs, relu.args[1]);
      if zero.Some? { return zero; }
    }
    if relu.args[1] == sum {
      zero := FindZero(defs, relu.args[0]);
      return zero;
    }
    return None;
  }

  predicate IsMatrixLoad(path: seq<Op>, ivI: Var, ivJ: Var, load: Op) {
    load.Load? && Indexed(path, load.idx, ivI, ivJ)
  }

  predicate IsBiasLoad(path: seq<Op>, ivJ: Var, load: Op) {
    load.Load? && |load.idx| == 1 && Root(path, load.idx[0]) == Root(path, ivJ)
  }

  /** The loads of C and of the bias, told apart by their indices. */
  method SplitLoads(path: seq<Op>, ivI: Var, ivJ: Var, loads: seq<Op>) returns (loadC: Option<Op>, loadBias: Option<Op>)
    ensures loadC.Some? ==> loadC.value in loads && IsMatrixLoad(path, ivI, ivJ, loadC.value)
    ensures loadBias.Some? ==> loadBias.value in loads && IsBiasLoad(path, ivJ, loadBias.value)
    ensures loadC.None? ==> forall op :: op in loads ==> !IsMatrixLoad(path, ivI, ivJ, op)
    ensures loadBias.None? ==> forall op :: op in loads ==> !IsBiasLoad(path, ivJ, op)
  {
    hide Root;
    loadC, loadBias := None, None;
    for i := 0 to |loads|
      invariant loadC.Some? ==> loadC.value in loads && IsMatrixLoad(path, ivI, ivJ, loadC.value)
      invariant loadBias.Some? ==> loadBias.value in loads && IsBiasLoad(path, ivJ, loadBias.value)
      invariant loadC.None? ==> forall op :: op in loads[..i] ==> !IsMatrixLoad(path, ivI, ivJ, op)
      invariant loadBias.None? ==> forall op :: op in loads[..i] ==> !IsBiasLoad(path, ivJ, op)
    {
      assert loads[..i + 1] == loads[..i] + [loads[i]];
      if IsMatrixLoad(path, ivI, ivJ, loads[i]) {
        loadC := Some(loads[i]);
      } else if IsBiasLoad(path, ivJ, loads[i]) {
        loadBias := Some(loads[i]);
      }
    }
    assert loads[..|loads|] == loads;
  }

  /** Sorts the operations of the consumer and checks the dataflow and the indices. */
  method MatchParts(outer: seq<Op>, l: Op, nJ: nat, g: GemmOp) returns (r: Option<Parts>)
    requires l.For? && OnlyLoopAt(l.body, nJ) && Straight(l.body[nJ].body)
    ensures r.Some? ==> Fits(outer, Consumer(l, nJ), g, r.value)
    ensures r.None? ==> forall s :: !Fits(outer, Consumer(l, nJ), g, s)
  {
    ghost var x := Consumer(l, nJ);
    var body, ivI, ivJ := l.body[nJ].body, l.iv, l.body[nJ].iv;
    var path := l.body[..nJ] + body;
    hide Of, Indexed, Root, Straight, OnlyLoopAt;
    var ok, loads, add, relu, store := Collect(body);
    if !ok || |loads| != 2 || store.None? || add.None? || relu.None? { return None; }
    OfKinds(body, add.value, relu.value, store.value);
    if store.value.src != relu.value.dst { return None; }
    var zero := ZeroOperand(outer + path, relu.value, add.value.dst);
    if zero.None? { return None; }
    if store.value.m != g.C || !Indexed(path, store.value.idx, ivI, ivJ) { return None; }
    var loadC, loadBias := SplitLoads(path, ivI, ivJ, loads);
    forall s | Fits(outer, x, g, s)
      ensures loadC == Some(s.loadC) && loadBias == Some(s.loadBias)
    {
      SplitFinds(path, ivI, ivJ, loads, s.loadC, s.loadBias, loadC, loadBias);
    }
    if loadC.None? || loadBias.None? || loadC.value.m != g.C
      || !Operands(add.value, loadC.value.dst, loadBias.value.dst) { return None; }
    r := Some(Parts(loadC.value, loadBias.value, add.value, relu.value, store.value, zero.value));
    assert loadC.value != loadBias.value by { Different(path, ivI, ivJ, loadC.value, loadBias.value); }
  }

  lemma Different(path: seq<Op>, ivI: Var, ivJ: Var, x: Op, y: Op)
    requires IsMatrixLoad(path, ivI, ivJ, x) && IsBiasLoad(path, ivJ, y)
    ensures x != y
  {
    hide Root;
  }

  /** The split finds the loads of any match. */
  lemma SplitFinds(path: seq<Op>, ivI: Var, ivJ: Var, loads: seq<Op>, x: Op, y: Op, loadC: Option<Op>,
          loadBias: Option<Op>)
    requires TwoLoads(loads, x, y) && IsMatrixLoad(path, ivI, ivJ, x) && IsBiasLoad(path, ivJ, y)
    requires loadC.Some? ==> loadC.value in loads && IsMatrixLoad(path, ivI, ivJ, loadC.value)
    requires loadBias.Some? ==> loadBias.value in loads && IsBiasLoad(path, ivJ, loadBias.value)
    requires loadC.None? ==> forall op :: op in loads ==> !IsMatrixLoad(path, ivI, ivJ, op)
    requires loadBias.None? ==> forall op :: op in loads ==> !IsBiasLoad(path, ivJ, op)
    ensures loadC == Some(x) && loadBias == Some(y)
  {
    hide Root;
    OnlyTwo(loads, x, y);
  }

  lemma OfKinds(body: seq<Op>, add: Op, relu: Op, store: Op)
    requires Straight(body) && Of(body, AddOp) == [add] && Of(body, MaxOp) == [relu] && Of(body, StoreOp) == [store]
    ensures Kind(add, ADDF) && Kind(relu, MAXIMUMF) && store.Store? && |add.args| == 2 && |relu.args| == 2
    ensures forall op :: op in Of(body, LoadOp) ==> op.Load?
  {
    hide Of, ClassOf;
    OfIn(body, AddOp);
    OfIn(body, MaxOp);
    OfIn(body, StoreOp);
    OfIn(body, LoadOp);
    assert add in [add] && relu in [relu] && store in [store];
    ClassIs(add);
    ClassIs(relu);
    ClassIs(store);
    assert Arity(add) && Arity(relu);
    forall op | op in Of(body, LoadOp) ensures op.Load? { ClassIs(op); }
  }

  // ----- the pattern, spelled out

  /** Each of the five operations occurs once, with two different loads, and the rest is silent. */
  ghost predicate OnlyThese(body: seq<Op>, s: Parts) {
    && s.loadC != s.loadBias
    && var parts := {s.loadC, s.loadBias, s.add, s.relu, s.store};
    && (forall op :: op in parts ==> multiset(body)[op] == 1)
    && (forall op :: op in body && op !in parts ==> Silent(op))
  }

  /** Two nested loops, silent but for the inner body, which adds a bias indexed by the column to
      C[i, j], takes the maximum with a zero of either sign and stores that to C[i, j], with casts of
      the indices and the operands in any order. */
  ghost predicate IsConsumer(outer: seq<Op>, l: Op, nJ: nat, g: GemmOp, s: Parts) {
    && l.For? && LoneLoop(l.body, nJ)
    && var body, ivI, ivJ := l.body[nJ].body, l.iv, l.body[nJ].iv;
    var path := l.body[..nJ] + body;
    && s.loadC.Load? && s.loadBias.Load? && s.store.Store? && s.add.Pure? && s.relu.Pure? && s.zero.Pure?
    && s.loadC.m == g.C && CastPair(path, s.loadC.idx, ivI, ivJ)
    && |s.loadBias.idx| == 1 && CastOf(path, s.loadBias.idx[0], ivJ)
    && s.store.m == g.C && CastPair(path, s.store.idx, ivI, ivJ)
    && s.add.f == ADDF
    && (s.add.args == [s.loadC.dst, s.loadBias.dst] || s.add.args == [s.loadBias.dst, s.loadC.dst])
    && s.zero in outer + path && (s.zero.f == POS_ZERO || s.zero.f == NEG_ZERO)
    && s.relu.f == MAXIMUMF
    && (s.relu.args == [s.add.dst, s.zero.dst] || s.relu.args == [s.zero.dst, s.add.dst])
    && s.store.src == s.relu.dst
    && OnlyThese(body, s)
  }

  /** The body has the five operations, sorted. */
  ghost predicate Sorted(body: seq<Op>, s: Parts) {
    && Of(body, MulOp) == [] && Of(body, OtherOp) == []
    && Of(body, AddOp) == [s.add] && Of(body, MaxOp) == [s.relu] && Of(body, StoreOp) == [s.store]
    && TwoLoads(Of(body, LoadOp), s.loadC, s.loadBias)
  }

  ghost predicate Kinds(s: Parts) {
    s.loadC.Load? && s.loadBias.Load? && Kind(s.add, ADDF) && Kind(s.relu, MAXIMUMF) && s.store.Store?
  }

  lemma SortedExactly(body: seq<Op>, s: Parts)
    requires Kinds(s)
    ensures Sorted(body, s) <==> OnlyThese(body, s)
  {
    ClassIs(s.loadC);
    ClassIs(s.loadBias);
    ClassIs(s.add);
    ClassIs(s.relu);
    ClassIs(s.store);
    hide Of, ClassOf, Silent;
    forall op { SilentExactly(op); }
    LoadsThose(body, s);
    OfOne(body, AddOp, s.add);
    OfOne(body, MaxOp, s.relu);
    OfOne(body, StoreOp, s.store);
    OfNone(body, MulOp);
    OfNone(body, OtherOp);
  }

  lemma LoadsThose(body: seq<Op>, s: Parts)
    ensures TwoLoads(Of(body, LoadOp), s.loadC, s.loadBias) <==>
      && s.loadC != s.loadBias
      && (forall op :: op in {s.loadC, s.loadBias} ==> ClassOf(op) == LoadOp && multiset(body)[op] == 1)
      && (forall op :: op in body && ClassOf(op) == LoadOp ==> op in {s.loadC, s.loadBias})
  {
    hide Of, ClassOf;
    var those := {s.loadC, s.loadBias};
    if s.loadC != s.loadBias {
      assert |those| == 2;
      OfThose(body, LoadOp, those);
      assert s.loadC in those && s.loadBias in those;
    }
  }

  /** The consumer of SSA code, in the form that is matched and in the one spelled out. */
  lemma FitsExactly(outer: seq<Op>, l: Op, nJ: nat, g: GemmOp, s: Parts)
    requires l.For? && OnlyLoopAt(l.body, nJ) && Consumer(l, nJ).Ssa(outer)
    ensures Fits(outer, Consumer(l, nJ), g, s) <==> IsConsumer(outer, l, nJ, g, s)
  {
    var x := Consumer(l, nJ);
    var path, ivI, ivJ := x.Path(), l.iv, x.J().iv;
    NamesConcat(outer, path);
    StraightConcat(outer, path);
    assert ivI !in Defs(path) && ivJ !in Defs(path);
    hide Straight, Defs, Indexed, CastPair, CastOf, Root, Of, ClassOf, OnlyThese;
    LoneLoopExactly(l.body, nJ);
    hide OnlyLoopAt, LoneLoop, Silent, Noise;
    if Kinds(s) { SortedExactly(x.J().body, s); }
    if s.loadC.Load? { IndexedExactly(path, s.loadC.idx, ivI, ivJ); }
    if s.store.Store? { IndexedExactly(path, s.store.idx, ivI, ivJ); }
    if s.loadBias.Load? && |s.loadBias.idx| == 1 { RootExactly(path, s.loadBias.idx[0], ivJ); }
  }

  /** The consumer is accepted exactly when it is C[i, j] = max(C[i, j] + bias[j], 0) in some operand
      order and nothing else. */
  method MatchConsumer(outer: seq<Op>, l: Op, nJ: nat, g: GemmOp) returns (r: Option<Parts>)
    requires l.For? && OnlyLoopAt(l.body, nJ) && Straight(l.body[nJ].body)
    ensures r.Some? ==> Fits(outer, Consumer(l, nJ), g, r.value)
    ensures r.None? ==> forall s :: !Fits(outer, Consumer(l, nJ), g, s)
    ensures Consumer(l, nJ).Ssa(outer) ==>
      if r.Some? then IsConsumer(outer, l, nJ, g, r.value) else forall s :: !IsConsumer(outer, l, nJ, g, s)
  {
    r := MatchParts(outer, l, nJ, g);
    hide Fits, IsConsumer;
    if Consumer(l, nJ).Ssa(outer) {
      forall s: Parts { FitsExactly(outer, l, nJ, g, s); }
    }
  }
}
