/** The matcher that finds a matrix product among three nested loops. */
module MatMulMatcher {
  import opened Wrappers
  import opened LoopIR
  import opened Nests
  import opened MatMulRecognition

  /** The operations seen so far, sorted by class. */
  ghost predicate Collected(seen: seq<Op>, loads: seq<Op>, mul: Option<Op>, add: Option<Op>, store: Option<Op>) {
    && Of(seen, LoadOp) == loads && Of(seen, MulOp) == Listed(mul) && Of(seen, AddOp) == Listed(add)
    && Of(seen, StoreOp) == Listed(store) && Of(seen, MaxOp) == [] && Of(seen, OtherOp) == []
  }

  /** No way to match the body. */
  ghost predicate NoMatch(path: seq<Op>, body: seq<Op>, ivI: Var, ivJ: Var, ivK: Var) {
    forall s :: !Fits(path, body, ivI, ivJ, ivK, s)
  }

  /** One of a forbidden class, or two of a class there must be one of, rule every match out. */
  lemma TooMany(path: seq<Op>, body: seq<Op>, ivI: Var, ivJ: Var, ivK: Var, n: nat)
    requires n < |body|
    requires var c := ClassOf(body[n]);
      c == MaxOp || c == OtherOp || ((c == MulOp || c == AddOp || c == StoreOp) && Of(body[..n], c) != [])
    ensures NoMatch(path, body, ivI, ivJ, ivK)
  {
    var c := ClassOf(body[n]);
    OfNext(body, n, c);
    OfPrefix(body, n + 1, c);
    hide Of, Indexed, Operands;
  }

  predicate DistinctLoads(loads: seq<Op>) {
    && (forall i :: 0 <= i < |loads| ==> loads[i].Load?)
    && (forall i, j :: 0 <= i < j < |loads| ==> loads[i].dst != loads[j].dst)
  }

  predicate Finds(loads: seq<Op>, x: Var, found: Option<Op>) {
    if found.Some? then found.value in loads && found.value.Load? && found.value.dst == x
    else forall op :: op in loads && op.Load? ==> op.dst != x
  }

  /** Which load is which, from the operands of the add and the mul. */
  method Identify(loads: seq<Op>, c: Var, lhs: Var, rhs: Var) returns (loadA: Option<Op>, loadB: Option<Op>,
          loadC: Option<Op>)
    requires DistinctLoads(loads)
    ensures Finds(loads, c, loadC)
    ensures if lhs == c then loadA.None? else Finds(loads, lhs, loadA)
    ensures if rhs == c || rhs == lhs then loadB.None? else Finds(loads, rhs, loadB)
  {
    loadA, loadB, loadC := None, None, None;
    for t := 0 to |loads|
      invariant Finds(loads[..t], c, loadC)
      invariant if lhs == c then loadA.None? else Finds(loads[..t], lhs, loadA)
      invariant if rhs == c || rhs == lhs then loadB.None? else Finds(loads[..t], rhs, loadB)
    {
      assert loads[..t + 1] == loads[..t] + [loads[t]];
      if loads[t].dst == c {
        loadC := Some(loads[t]);
      } else if loads[t].dst == lhs {
        loadA := Some(loads[t]);
      } else if loads[t].dst == rhs {
        loadB := Some(loads[t]);
      }
    }
    assert loads[..|loads|] == loads;
  }

  /** The loads of a match are the ones found, with A and B in either order. */
  lemma FoundLoads(loads: seq<Op>, s: Parts, c: Var, lhs: Var, rhs: Var,
                   loadA: Option<Op>, loadB: Option<Op>, loadC: Option<Op>)
    requires DistinctLoads(loads) && ThreeLoads(loads, s.loadA, s.loadB, s.loadC) && Kinds(s)
    requires s.loadC.dst == c
      && ((s.loadA.dst == lhs && s.loadB.dst == rhs) || (s.loadA.dst == rhs && s.loadB.dst == lhs))
    requires Finds(loads, c, loadC)
    requires if lhs == c then loadA.None? else Finds(loads, lhs, loadA)
    requires if rhs == c || rhs == lhs then loadB.None? else Finds(loads, rhs, loadB)
    ensures loadC == Some(s.loadC)
    ensures (loadA == Some(s.loadA) && loadB == Some(s.loadB)) || (loadA == Some(s.loadB) && loadB == Some(s.loadA))
  {
    SameLoad(loads, s.loadA, s.loadB);
    SameLoad(loads, s.loadA, s.loadC);
    SameLoad(loads, s.loadB, s.loadC);
    if loadA.Some? { SameLoad(loads, loadA.value, s.loadA); SameLoad(loads, loadA.value, s.loadB); }
    if loadB.Some? { SameLoad(loads, loadB.value, s.loadA); SameLoad(loads, loadB.value, s.loadB); }
    if loadC.Some? { SameLoad(loads, loadC.value, s.loadC); }
  }

  lemma SameLoad(loads: seq<Op>, x: Op, y: Op)
    requires DistinctLoads(loads) && x in loads && y in loads && x.Load? && y.Load?
    ensures x.dst == y.dst ==> x == y
  {}

  /** Sorts the operations of the body by kind and leaves the dataflow to be checked. */
  method SortBody(path: seq<Op>, body: seq<Op>, ivI: Var, ivJ: Var, ivK: Var) returns (r: Option<Parts>)
    requires Straight(body)
    ensures r.Some? ==> Fits(path, body, ivI, ivJ, ivK, r.value)
    ensures r.None? ==> NoMatch(path, body, ivI, ivJ, ivK)
  {
    hide NoMatch, Fits, Of, Indexed, Noise, DistinctLoads, Straight, ClassOf;
    var loads, mul, add, store := [], None, None, None;
    NothingCollected(body);
    for i := 0 to |body|
      invariant Collected(body[..i], loads, mul, add, store) && DistinctLoads(loads)
      invariant forall op :: op in loads ==> op in body[..i]
      invariant (mul.Some? ==> mul.value in body) && (add.Some? ==> add.value in body)
    {
      var op := body[i];
      CollectedNext(body, i);
      ClassIs(op);
      if Noise(op) {
        NoiseIsQuiet(op);
      } else if op.Load? {
        LoadsStayDistinct(body, i, loads);
        loads := loads + [op];
      } else if Kind(op, MULF) {
        if mul.Some? { TooMany(path, body, ivI, ivJ, ivK, i); return None; }
        mul := Some(op);
      } else if Kind(op, ADDF) {
        if add.Some? { TooMany(path, body, ivI, ivJ, ivK, i); return None; }
        add := Some(op);
      } else if op.Store? {
        if store.Some? { TooMany(path, body, ivI, ivJ, ivK, i); return None; }
        store := Some(op);
      } else {
        NoiseIsQuiet(op);
        TooMany(path, body, ivI, ivJ, ivK, i);
        return None;
      }
      assert forall o :: o in body[..i] ==> o in body[..i + 1];
    }
    assert body[..|body|] == body;
    r := MatchDataflow(path, body, ivI, ivJ, ivK, loads, mul, add, store);
  }

  lemma LoadsStayDistinct(body: seq<Op>, i: nat, loads: seq<Op>)
    requires Straight(body) && i < |body| && body[i].Load? && DistinctLoads(loads)
    requires forall op :: op in loads ==> op in body[..i]
    ensures DistinctLoads(loads + [body[i]])
  {
    forall op | op in loads && op.Load?
      ensures op.dst != body[i].dst
    {
      assert op.dst in OpDefs(op) && body[i].dst in OpDefs(body[i]);
    }
  }

  lemma NothingCollected(body: seq<Op>)
    ensures Collected(body[..0], [], None, None, None) && DistinctLoads([])
  {
    assert body[..0] == [];
  }

  /** The operand of the add that is not the product. */
  function OtherOperand(add: Op, product: Var): Option<Var>
    requires add.Pure? && |add.args| == 2
  {
    if add.args[0] == product then Some(add.args[1])
    else if add.args[1] == product then Some(add.args[0])
    else None
  }

  /** What any match says about the collected operations. */
  lemma FitsDataflow(path: seq<Op>, body: seq<Op>, ivI: Var, ivJ: Var, ivK: Var, s: Parts)
    requires Straight(body) && Fits(path, body, ivI, ivJ, ivK, s)
    ensures OtherOperand(s.add, s.mul.dst) == Some(s.loadC.dst)
    ensures var l, r := s.mul.args[0], s.mul.args[1];
      (s.loadA.dst == l && s.loadB.dst == r) || (s.loadA.dst == r && s.loadB.dst == l)
  {
    PartsIn(path, body, ivI, ivJ, ivK, s);
    if s.mul.dst == s.loadC.dst { SameDst(body, s.mul, s.loadC); }
  }

  /** The index and memref checks on a candidate. */
  predicate Checks(path: seq<Op>, ivI: Var, ivJ: Var, ivK: Var, a: Op, b: Op, c: Op, store: Op) {
    && a.Load? && b.Load? && c.Load? && store.Store?
    && Indexed(path, c.idx, ivI, ivJ) && Indexed(path, a.idx, ivI, ivK) && Indexed(path, b.idx, ivK, ivJ)
    && Indexed(path, store.idx, ivI, ivJ) && store.m == c.m
  }

  // ----- the pattern, spelled out

  /** A[i, k], B[k, j], C[i, j] and again C[i, j], with casts of the indices. */
  ghost predicate Places(path: seq<Op>, ivI: Var, ivJ: Var, ivK: Var, a: Op, b: Op, c: Op, store: Op) {
    && a.Load? && b.Load? && c.Load? && store.Store?
    && CastPair(path, c.idx, ivI, ivJ) && CastPair(path, a.idx, ivI, ivK) && CastPair(path, b.idx, ivK, ivJ)
    && CastPair(path, store.idx, ivI, ivJ) && store.m == c.m
  }

  /** Each of the six operations occurs once, with three different loads, and the rest is silent. */
  ghost predicate OnlyThese(body: seq<Op>, s: Parts) {
    && s.loadA != s.loadB && s.loadA != s.loadC && s.loadB != s.loadC
    && var parts := {s.loadA, s.loadB, s.loadC, s.mul, s.add, s.store};
    && (forall op :: op in parts ==> multiset(body)[op] == 1)
    && (forall op :: op in body && op !in parts ==> Silent(op))
  }

  /** The body loads from three places, multiplies, adds and stores, once each and with the operands
      in any order, and does nothing else. */
  ghost predicate IsMultiplyAdd(path: seq<Op>, body: seq<Op>, ivI: Var, ivJ: Var, ivK: Var, s: Parts) {
    && Places(path, ivI, ivJ, ivK, s.loadA, s.loadB, s.loadC, s.store)
    && s.mul.Pure? && s.mul.f == MULF && s.add.Pure? && s.add.f == ADDF
    && (s.mul.args == [s.loadA.dst, s.loadB.dst] || s.mul.args == [s.loadB.dst, s.loadA.dst])
    && (s.add.args == [s.loadC.dst, s.mul.dst] || s.add.args == [s.mul.dst, s.loadC.dst])
    && s.store.src == s.add.dst
    && OnlyThese(body, s)
  }

  /** SSA code in which the induction variables are not defined. */
  ghost predicate SsaPath(path: seq<Op>, ivI: Var, ivJ: Var, ivK: Var) {
    Straight(path) && {ivI, ivJ, ivK} !! Defs(path)
  }

  lemma ChecksExactly(path: seq<Op>, ivI: Var, ivJ: Var, ivK: Var, a: Op, b: Op, c: Op, store: Op)
    requires SsaPath(path, ivI, ivJ, ivK)
    ensures Checks(path, ivI, ivJ, ivK, a, b, c, store) <==> Places(path, ivI, ivJ, ivK, a, b, c, store)
  {
    if a.Load? && b.Load? && c.Load? && store.Store? {
      assert ivI !in Defs(path) && ivJ !in Defs(path) && ivK !in Defs(path);
      hide Straight, Defs, Indexed, CastPair;
      IndexedExactly(path, c.idx, ivI, ivJ);
      IndexedExactly(path, a.idx, ivI, ivK);
      IndexedExactly(path, b.idx, ivK, ivJ);
      IndexedExactly(path, store.idx, ivI, ivJ);
    }
  }

  /** The sorted form of a body says the same as the spelled out one. */
  lemma FitsExactly(path: seq<Op>, body: seq<Op>, ivI: Var, ivJ: Var, ivK: Var, s: Parts)
    requires SsaPath(path, ivI, ivJ, ivK)
    ensures Fits(path, body, ivI, ivJ, ivK, s) <==> IsMultiplyAdd(path, body, ivI, ivJ, ivK, s)
  {
    ChecksExactly(path, ivI, ivJ, ivK, s.loadA, s.loadB, s.loadC, s.store);
    hide SsaPath, Places, Indexed, Of, ClassOf, Silent;
    if Fits(path, body, ivI, ivJ, ivK, s) { FitsSpelled(body, s); }
    if IsMultiplyAdd(path, body, ivI, ivJ, ivK, s) { SpelledFits(body, s); }
  }

  /** The body has the six operations, sorted. */
  ghost predicate Sorted(body: seq<Op>, s: Parts) {
    && Kinds(s) && Of(body, MaxOp) == [] && Of(body, OtherOp) == []
    && Of(body, MulOp) == [s.mul] && Of(body, AddOp) == [s.add] && Of(body, StoreOp) == [s.store]
    && ThreeLoads(Of(body, LoadOp), s.loadA, s.loadB, s.loadC)
  }

  lemma FitsSpelled(body: seq<Op>, s: Parts)
    requires Sorted(body, s)
    ensures OnlyThese(body, s)
  {
    hide Of, ClassOf, Silent;
    LoadsThose(body, s);
    OfOne(body, MulOp, s.mul);
    OfOne(body, AddOp, s.add);
    OfOne(body, StoreOp, s.store);
    OfNone(body, MaxOp);
    OfNone(body, OtherOp);
    forall op | op in body && op !in {s.loadA, s.loadB, s.loadC, s.mul, s.add, s.store}
      ensures Silent(op)
    {
      SilentExactly(op);
    }
  }

  lemma SpelledFits(body: seq<Op>, s: Parts)
    requires OnlyThese(body, s) && Kinds(s)
    ensures Sorted(body, s)
  {
    hide Of, ClassOf, Silent;
    ClassIs(s.loadA);
    ClassIs(s.loadB);
    ClassIs(s.loadC);
    ClassIs(s.mul);
    ClassIs(s.add);
    ClassIs(s.store);
    forall op | op in body && op !in {s.loadA, s.loadB, s.loadC, s.mul, s.add, s.store}
      ensures ClassOf(op) == Quiet
    {
      SilentExactly(op);
    }
    LoadsThose(body, s);
    OfOne(body, MulOp, s.mul);
    OfOne(body, AddOp, s.add);
    OfOne(body, StoreOp, s.store);
    OfNone(body, MaxOp);
    OfNone(body, OtherOp);
  }

  lemma LoadsThose(body: seq<Op>, s: Parts)
    requires s.loadA != s.loadB && s.loadA != s.loadC && s.loadB != s.loadC
    ensures ThreeLoads(Of(body, LoadOp), s.loadA, s.loadB, s.loadC) <==>
      && (forall op :: op in {s.loadA, s.loadB, s.loadC} ==> ClassOf(op) == LoadOp && multiset(body)[op] == 1)
      && (forall op :: op in body && ClassOf(op) == LoadOp ==> op in {s.loadA, s.loadB, s.loadC})
  {
    hide Of, ClassOf;
    var those := {s.loadA, s.loadB, s.loadC};
    assert |those| == 3;
    OfThose(body, LoadOp, those);
    assert s.loadA in those && s.loadB in those && s.loadC in those;
  }

  /** The index checks, with A and B tried in both orders. */
  method MatchIndices(path: seq<Op>, ivI: Var, ivJ: Var, ivK: Var, a0: Op, b0: Op, c: Op,
          store: Op) returns (r: Option<(Op, Op)>)
    requires a0.Load? && b0.Load? && c.Load? && store.Store?
    ensures r.Some? ==>
      && (r.value == (a0, b0) || r.value == (b0, a0))
      && Checks(path, ivI, ivJ, ivK, r.value.0, r.value.1, c, store)
    ensures r.None? ==> !Checks(path, ivI, ivJ, ivK, a0, b0, c, store) && !Checks(path, ivI, ivJ, ivK, b0, a0, c, store)
    ensures SsaPath(path, ivI, ivJ, ivK) ==>
      if r.Some? then Places(path, ivI, ivJ, ivK, r.value.0, r.value.1, c, store)
      else !Places(path, ivI, ivJ, ivK, a0, b0, c, store) && !Places(path, ivI, ivJ, ivK, b0, a0, c, store)
  {
    if SsaPath(path, ivI, ivJ, ivK) {
      ChecksExactly(path, ivI, ivJ, ivK, a0, b0, c, store);
      ChecksExactly(path, ivI, ivJ, ivK, b0, a0, c, store);
    }
    hide SsaPath, Places, Indexed;
    var a, b := a0, b0;
    if !Indexed(path, c.idx, ivI, ivJ) { return None; }
    if !Indexed(path, a.idx, ivI, ivK) || !Indexed(path, b.idx, ivK, ivJ) {
      a, b := b, a;
      if !Indexed(path, a.idx, ivI, ivK) || !Indexed(path, b.idx, ivK, ivJ) { return None; }
    }
    if !Indexed(path, store.idx, ivI, ivJ) || store.m != c.m { return None; }
    return Some((a, b));
  }

  /** What a match says about the collected operations. */
  ghost predicate Agrees(path: seq<Op>, ivI: Var, ivJ: Var, ivK: Var, s: Parts, loads: seq<Op>,
                         mul: Option<Op>, add: Option<Op>, store: Option<Op>)
  {
    && mul == Some(s.mul) && add == Some(s.add) && store == Some(s.store) && Kinds(s)
    && ThreeLoads(loads, s.loadA, s.loadB, s.loadC)
    && |s.add.args| == 2 && |s.mul.args| == 2 && s.store.src == s.add.dst
    && OtherOperand(s.add, s.mul.dst) == Some(s.loadC.dst)
    && ((s.loadA.dst == s.mul.args[0] && s.loadB.dst == s.mul.args[1])
      || (s.loadA.dst == s.mul.args[1] && s.loadB.dst == s.mul.args[0]))
    && Checks(path, ivI, ivJ, ivK, s.loadA, s.loadB, s.loadC, s.store)
  }

  lemma FitsAgrees(path: seq<Op>, body: seq<Op>, ivI: Var, ivJ: Var, ivK: Var, s: Parts, loads: seq<Op>,
                   mul: Option<Op>, add: Option<Op>, store: Option<Op>)
    requires Straight(body) && Collected(body, loads, mul, add, store)
    requires Fits(path, body, ivI, ivJ, ivK, s)
    ensures Agrees(path, ivI, ivJ, ivK, s, loads, mul, add, store)
  {
    FitsDataflow(path, body, ivI, ivJ, ivK, s);
    FitsStore(path, body, ivI, ivJ, ivK, s);
  }

  /** The loads that Identify finds are those of any match. */
  lemma AgreesLoads(path: seq<Op>, ivI: Var, ivJ: Var, ivK: Var, s: Parts, loads: seq<Op>, mul: Op, add: Op, store: Op,
                    loadA: Option<Op>, loadB: Option<Op>, loadC: Option<Op>)
    requires Agrees(path, ivI, ivJ, ivK, s, loads, Some(mul), Some(add), Some(store)) && DistinctLoads(loads)
    requires Finds(loads, s.loadC.dst, loadC)
    requires var lhs, rhs, c := mul.args[0], mul.args[1], s.loadC.dst;
      && (if lhs == c then loadA.None? else Finds(loads, lhs, loadA))
      && (if rhs == c || rhs == lhs then loadB.None? else Finds(loads, rhs, loadB))
    ensures loadA.Some? && loadB.Some? && loadC.Some?
    ensures var a, b, c := loadA.value, loadB.value, loadC.value;
      Checks(path, ivI, ivJ, ivK, a, b, c, store) || Checks(path, ivI, ivJ, ivK, b, a, c, store)
  {
    hide Indexed, Finds, DistinctLoads, OtherOperand;
    FoundLoads(loads, s, s.loadC.dst, mul.args[0], mul.args[1], loadA, loadB, loadC);
  }

  method MatchDataflow(path: seq<Op>, body: seq<Op>, ivI: Var, ivJ: Var, ivK: Var,
                       loads: seq<Op>, mul: Option<Op>, add: Option<Op>, store: Option<Op>) returns (r: Option<Parts>)
    requires Straight(body) && Collected(body, loads, mul, add, store) && DistinctLoads(loads)
    requires (mul.Some? ==> mul.value in body) && (add.Some? ==> add.value in body)
    ensures r.Some? ==> Fits(path, body, ivI, ivJ, ivK, r.value)
    ensures r.None? ==> NoMatch(path, body, ivI, ivJ, ivK)
  {
    forall s | Fits(path, body, ivI, ivJ, ivK, s)
      ensures Agrees(path, ivI, ivJ, ivK, s, loads, mul, add, store)
    {
      FitsAgrees(path, body, ivI, ivJ, ivK, s, loads, mul, add, store);
    }
    hide Fits, Straight, Finds, DistinctLoads, Checks, Collected;
    if |loads| != 3 || store.None? || mul.None? || add.None? { return None; }
    CollectedKinds(body, loads, mul, add, store);
    ArityOf(body, mul.value);
    ArityOf(body, add.value);
    if store.value.src != add.value.dst { return None; }
    var other := OtherOperand(add.value, mul.value.dst);
    if other.None? { return None; }
    var lhs, rhs := mul.value.args[0], mul.value.args[1];
    var loadA, loadB, loadC := Identify(loads, other.value, lhs, rhs);
    ghost var known := loadA.Some? && loadB.Some? && loadC.Some?;
    forall s | Fits(path, body, ivI, ivJ, ivK, s)
      ensures known && (Checks(path, ivI, ivJ, ivK, loadA.value, loadB.value, loadC.value, store.value)
                     || Checks(path, ivI, ivJ, ivK, loadB.value, loadA.value, loadC.value, store.value))
    {
      AgreesLoads(path, ivI, ivJ, ivK, s, loads, mul.value, add.value, store.value, loadA, loadB, loadC);
    }
    hide Agrees;
    if loadA.None? || loadB.None? || loadC.None? { return None; }
    FindsLoads(loads, lhs, rhs, other.value, loadA.value, loadB.value, loadC.value);
    var ab := MatchIndices(path, ivI, ivJ, ivK, loadA.value, loadB.value, loadC.value, store.value);
    if ab.None? { return None; }
    var s := Parts(ab.value.0, ab.value.1, loadC.value, mul.value, add.value, store.value);
    MakesFit(path, body, ivI, ivJ, ivK, s, loads);
    return Some(s);
  }

  lemma CollectedKinds(body: seq<Op>, loads: seq<Op>, mul: Option<Op>, add: Option<Op>, store: Option<Op>)
    requires Collected(body, loads, mul, add, store)
    ensures (mul.Some? ==> Kind(mul.value, MULF)) && (add.Some? ==> Kind(add.value, ADDF))
      && (store.Some? ==> store.value.Store?)
  {
    hide Of, ClassOf;
    OfIn(body, MulOp);
    OfIn(body, AddOp);
    OfIn(body, StoreOp);
    assert mul.Some? ==> mul.value in Listed(mul);
    assert add.Some? ==> add.value in Listed(add);
    assert store.Some? ==> store.value in Listed(store);
    if mul.Some? { ClassIs(mul.value); }
    if add.Some? { ClassIs(add.value); }
    if store.Some? { ClassIs(store.value); }
  }

  lemma ArityOf(body: seq<Op>, op: Op)
    requires Straight(body) && op in body && (Kind(op, MULF) || Kind(op, ADDF))
    ensures |op.args| == 2
  {
    assert Arity(op);
  }

  lemma FitsStore(path: seq<Op>, body: seq<Op>, ivI: Var, ivJ: Var, ivK: Var, s: Parts)
    requires Fits(path, body, ivI, ivJ, ivK, s)
    ensures Kinds(s) && s.store.src == s.add.dst && Checks(path, ivI, ivJ, ivK, s.loadA, s.loadB, s.loadC, s.store)
  {
    hide Indexed;
  }

  lemma FindsLoads(loads: seq<Op>, lhs: Var, rhs: Var, other: Var, a: Op, b: Op, c: Op)
    requires Finds(loads, lhs, Some(a)) && Finds(loads, rhs, Some(b)) && Finds(loads, other, Some(c))
    requires lhs != other && rhs != other && rhs != lhs && |loads| == 3
    ensures a.Load? && b.Load? && c.Load? && a.dst == lhs && b.dst == rhs && c.dst == other
    ensures ThreeLoads(loads, a, b, c) && ThreeLoads(loads, b, a, c)
  {}

  lemma MakesFit(path: seq<Op>, body: seq<Op>, ivI: Var, ivJ: Var, ivK: Var, s: Parts, loads: seq<Op>)
    requires Kinds(s) && Collected(body, loads, Some(s.mul), Some(s.add), Some(s.store))
    requires ThreeLoads(loads, s.loadA, s.loadB, s.loadC)
    requires s.store.src == s.add.dst && |s.add.args| == 2 && |s.mul.args| == 2
    requires OtherOperand(s.add, s.mul.dst) == Some(s.loadC.dst)
    requires (s.loadA.dst == s.mul.args[0] && s.loadB.dst == s.mul.args[1])
      || (s.loadA.dst == s.mul.args[1] && s.loadB.dst == s.mul.args[0])
    requires Checks(path, ivI, ivJ, ivK, s.loadA, s.loadB, s.loadC, s.store)
    ensures Fits(path, body, ivI, ivJ, ivK, s)
  {
    hide Of, Indexed;
    assert s.add.args == [s.add.args[0], s.add.args[1]] && s.mul.args == [s.mul.args[0], s.mul.args[1]];
  }

  lemma MatchExactly(path: seq<Op>, body: seq<Op>, ivI: Var, ivJ: Var, ivK: Var)
    requires SsaPath(path, ivI, ivJ, ivK)
    ensures forall s :: Fits(path, body, ivI, ivJ, ivK, s) <==> IsMultiplyAdd(path, body, ivI, ivJ, ivK, s)
    ensures NoMatch(path, body, ivI, ivJ, ivK) <==> forall s :: !IsMultiplyAdd(path, body, ivI, ivJ, ivK, s)
  {
    hide SsaPath, Fits, IsMultiplyAdd;
    forall s: Parts { FitsExactly(path, body, ivI, ivJ, ivK, s); }
  }

  /** The match of the innermost body: in SSA code, exactly a multiply-add of the three matrices. */
  method MatchBody(path: seq<Op>, body: seq<Op>, ivI: Var, ivJ: Var, ivK: Var) returns (r: Option<Parts>)
    requires Straight(body)
    ensures r.Some? ==> Fits(path, body, ivI, ivJ, ivK, r.value)
    ensures r.None? ==> NoMatch(path, body, ivI, ivJ, ivK)
    ensures SsaPath(path, ivI, ivJ, ivK) ==>
      if r.Some? then IsMultiplyAdd(path, body, ivI, ivJ, ivK, r.value)
      else forall s :: !IsMultiplyAdd(path, body, ivI, ivJ, ivK, s)
  {
    r := SortBody(path, body, ivI, ivJ, ivK);
    if SsaPath(path, ivI, ivJ, ivK) { MatchExactly(path, body, ivI, ivJ, ivK); }
  }

  // ----- the pattern

  /** The nest and the parts of a match, if the loop is one. */
  ghost predicate Accepts(l: Op, x: Nest, s: Parts) {
    && l.For? && x.l == l && x.Shaped()
    && Fits(x.Path(), x.K().body, l.iv, x.J().iv, x.K().iv, s)
  }

  /** The loop holds only a loop that holds only a loop, apart from silent operations, and the
      innermost body multiplies and adds. */
  ghost predicate IsProduct(l: Op, x: Nest, s: Parts) {
    && l.For? && x.l == l && LoneLoop(l.body, x.nJ) && LoneLoop(l.body[x.nJ].body, x.nK)
    && var loopJ := l.body[x.nJ];
    var loopK := loopJ.body[x.nK];
    IsMultiplyAdd(l.body[..x.nJ] + loopJ.body[..x.nK] + loopK.body, loopK.body, l.iv, loopJ.iv, loopK.iv, s)
  }

  /** Every candidate nest in the loop is in SSA form. */
  ghost predicate AllSsa(l: Op) {
    forall x: Nest :: x.l == l && x.Shaped() ==> x.Ssa()
  }

  lemma AcceptsExactly(l: Op, x: Nest, s: Parts)
    requires AllSsa(l)
    ensures Accepts(l, x, s) <==> IsProduct(l, x, s)
  {
    hide Noise, Silent, Fits, IsMultiplyAdd, Straight;
    forall op { SilentExactly(op); }
    if l.For? && x.l == l && x.Shaped() {
      assert x.Ssa();
      assert SsaPath(x.Path(), l.iv, x.J().iv, x.K().iv);
      FitsExactly(x.Path(), x.K().body, l.iv, x.J().iv, x.K().iv, s);
    }
  }

  /** A loop is rewritten exactly when it is a product nest. */
  method Recognize(l: Op) returns (r: Option<(Nest, Parts)>)
    requires l.For?
    requires forall x: Nest :: x.l == l && x.Shaped() ==> Straight(x.K().body)
    ensures r.Some? ==> Accepts(l, r.value.0, r.value.1)
    ensures r.None? ==> forall x, s :: !Accepts(l, x, s)
    ensures AllSsa(l) ==>
      if r.Some? then IsProduct(l, r.value.0, r.value.1) else forall x, s :: !IsProduct(l, x, s)
  {
    if AllSsa(l) {
      forall x, s { AcceptsExactly(l, x, s); }
    }
    hide AllSsa, IsProduct;
    var nJ := SingleInnerLoop(l.body);
    if nJ.None? { return None; }
    var loopJ := l.body[nJ.value];
    var nK := SingleInnerLoop(loopJ.body);
    forall x: Nest | x.l == l && x.Shaped()
      ensures x.nJ == nJ.value && nK == Some(x.nK)
    {
      OneLoop(l.body, x.nJ, nJ.value);
      if nK.Some? { OneLoop(loopJ.body, x.nK, nK.value); }
    }
    if nK.None? { return None; }
    var loopK := loopJ.body[nK.value];
    var x := Nest(l, nJ.value, nK.value);
    var s := MatchBody(l.body[..nJ.value] + loopJ.body[..nK.value] + loopK.body, loopK.body, l.iv, loopJ.iv, loopK.iv);
    if s.None? { return None; }
    return Some((x, s.value));
  }

  lemma OneLoop(block: seq<Op>, n: nat, m: nat)
    requires OnlyLoopAt(block, n) && OnlyLoopAt(block, m)
    ensures n == m
  {}
}
