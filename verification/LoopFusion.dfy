/** Fusing adjacent loops whose bodies do not conflict across iterations. */
module LoopFusion {
  import opened Wrappers
  import opened LoopIR

  /** A memory effect of some load or store in a loop, at any depth. */
  datatype Effect = Effect(write: bool, m: Var, idx: seq<Var>)

  function Effects(ops: seq<Op>): seq<Effect>
    decreases ops, 0
  {
    if ops == [] then [] else OpEffects(ops[0]) + Effects(ops[1..])
  }

  function OpEffects(op: Op): seq<Effect>
    decreases op, 0
  {
    match op
    case Pure(_, _, _) => []
    case Load(_, m, idx) => [Effect(false, m, idx)]
    case Store(_, m, idx) => [Effect(true, m, idx)]
    case For(_, _, _, _, body) => Effects(body)
  }

  predicate Conflict(e1: Effect, e2: Effect) {
    e1.m == e2.m && (e1.write || e2.write)
  }

  /** Position by position the indices are the two induction variables or the same value. */
  predicate PerfectlyAligned(e1: Effect, e2: Effect, iv1: Var, iv2: Var) {
    && |e1.idx| == |e2.idx|
    && forall d :: 0 <= d < |e1.idx| ==> (e1.idx[d] == iv1 && e2.idx[d] == iv2) || e1.idx[d] == e2.idx[d]
  }

  predicate Hazard(e1: Effect, e2: Effect, iv1: Var, iv2: Var) {
    Conflict(e1, e2) && !PerfectlyAligned(e1, e2, iv1, iv2)
  }

  ghost predicate MemoryHazards(l1: Op, l2: Op)
    requires l1.For? && l2.For?
  {
    exists e1, e2 :: e1 in Effects(l1.body) && e2 in Effects(l2.body) && Hazard(e1, e2, l1.iv, l2.iv)
  }

  /** Two accesses of one memref, at least one a store, whose indices differ when the second loop's
      induction variable is written as the first's. */
  ghost predicate Misaligned(l1: Op, l2: Op)
    requires l1.For? && l2.For?
  {
    exists a, b :: Within(a, l1.body) && Within(b, l2.body) && Clash(a, b, l1.iv, l2.iv)
  }

  predicate Clash(a: Op, b: Op, iv1: Var, iv2: Var) {
    && (a.Load? || a.Store?) && (b.Load? || b.Store?) && (a.Store? || b.Store?)
    && a.m == b.m && a.idx != RenameAll(b.idx, iv2, iv1)
  }

  /** The access that has an effect. */
  function AccessOf(op: Op): Option<Effect> {
    match op
    case Load(_, m, idx) => Some(Effect(false, m, idx))
    case Store(_, m, idx) => Some(Effect(true, m, idx))
    case _ => None
  }

  /** The effects of code are its loads and stores, at any depth. */
  lemma {:induction false} EffectsExactly(ops: seq<Op>, e: Effect)
    ensures e in Effects(ops) <==> exists op :: Within(op, ops) && AccessOf(op) == Some(e)
    decreases ops
  {
    EffectsAt(ops, e);
    forall i | 0 <= i < |ops| && ops[i].For? { EffectsExactly(ops[i].body, e); }
    if i :| 0 <= i < |ops| && e in OpEffects(ops[i]) {
      if ops[i].For? {
        var op :| Within(op, ops[i].body) && AccessOf(op) == Some(e);
        assert Within(op, ops);
      } else {
        assert Within(ops[i], ops) && AccessOf(ops[i]) == Some(e);
      }
    }
    if op :| Within(op, ops) && AccessOf(op) == Some(e) {
      var i :| 0 <= i < |ops| && (ops[i] == op || (ops[i].For? && Within(op, ops[i].body)));
      assert e in OpEffects(ops[i]);
    }
  }

  lemma {:induction false} EffectsAt(ops: seq<Op>, e: Effect)
    ensures e in Effects(ops) <==> exists i :: 0 <= i < |ops| && e in OpEffects(ops[i])
    decreases |ops|
  {
    if ops != [] {
      EffectsAt(ops[1..], e);
      if i :| 0 <= i < |ops[1..]| && e in OpEffects(ops[1..][i]) { assert e in OpEffects(ops[i + 1]); }
      if i :| 0 <= i < |ops| && e in OpEffects(ops[i]) {
        if i > 0 { assert ops[i] == ops[1..][i - 1]; }
      }
    }
  }

  /** Alignment position by position is equality after renaming, when neither access uses the other
      loop's induction variable. */
  lemma AlignedExactly(e1: Effect, e2: Effect, iv1: Var, iv2: Var)
    requires iv1 !in e2.idx && iv2 !in e1.idx
    ensures PerfectlyAligned(e1, e2, iv1, iv2) <==> e1.idx == RenameAll(e2.idx, iv2, iv1)
  {
    var r := RenameAll(e2.idx, iv2, iv1);
    assert |r| == |e2.idx| && forall d :: 0 <= d < |r| ==> r[d] == Rename(e2.idx[d], iv2, iv1);
  }

  /** The hazard test in terms of the operations of the two loops. */
  lemma HazardsExactly(l1: Op, l2: Op)
    requires l1.For? && l2.For? && l1.iv !in Uses(l2.body) && l2.iv !in Uses(l1.body)
    ensures MemoryHazards(l1, l2) <==> Misaligned(l1, l2)
  {
    hide Effects, Within, PerfectlyAligned;
    forall e1, e2 | e1 in Effects(l1.body) && e2 in Effects(l2.body)
      ensures PerfectlyAligned(e1, e2, l1.iv, l2.iv) <==> e1.idx == RenameAll(e2.idx, l2.iv, l1.iv)
    {
      if l1.iv in e2.idx { UsedIndex(l2.body, e2, l1.iv); }
      if l2.iv in e1.idx { UsedIndex(l1.body, e1, l2.iv); }
      AlignedExactly(e1, e2, l1.iv, l2.iv);
    }
    if MemoryHazards(l1, l2) {
      var e1, e2 :| e1 in Effects(l1.body) && e2 in Effects(l2.body) && Hazard(e1, e2, l1.iv, l2.iv);
      EffectsExactly(l1.body, e1);
      EffectsExactly(l2.body, e2);
      var a :| Within(a, l1.body) && AccessOf(a) == Some(e1);
      var b :| Within(b, l2.body) && AccessOf(b) == Some(e2);
      assert Clash(a, b, l1.iv, l2.iv);
    }
    if Misaligned(l1, l2) {
      var a, b :| Within(a, l1.body) && Within(b, l2.body) && Clash(a, b, l1.iv, l2.iv);
      var e1, e2 := AccessOf(a).value, AccessOf(b).value;
      EffectsExactly(l1.body, e1);
      EffectsExactly(l2.body, e2);
      assert Hazard(e1, e2, l1.iv, l2.iv);
    }
  }

  method HasMemoryHazards(l1: Op, l2: Op) returns (found: bool)
    requires l1.For? && l2.For?
    ensures found <==> MemoryHazards(l1, l2)
    ensures l1.iv !in Uses(l2.body) && l2.iv !in Uses(l1.body) ==> (found <==> Misaligned(l1, l2))
  {
    if l1.iv !in Uses(l2.body) && l2.iv !in Uses(l1.body) { HazardsExactly(l1, l2); }
    var effects1, effects2 := Effects(l1.body), Effects(l2.body);
    for i := 0 to |effects1|
      invariant forall i', e2 :: 0 <= i' < i && e2 in effects2 ==> !Hazard(effects1[i'], e2, l1.iv, l2.iv)
    {
      for j := 0 to |effects2|
        invariant forall j' :: 0 <= j' < j ==> !Hazard(effects1[i], effects2[j'], l1.iv, l2.iv)
      {
        if Hazard(effects1[i], effects2[j], l1.iv, l2.iv) {
          return true;
        }
      }
    }
    return false;
  }

  /** SSA facts of two adjacent loops: no name of one is in scope in the other. */
  ghost predicate Scoped(l1: Op, l2: Op)
    requires l1.For? && l2.For?
  {
    && l1.iv != l2.iv
    && l1.iv !in Defs(l1.body) + Defs(l2.body) + Uses(l2.body)
    && l2.iv !in Defs(l2.body)
    && Defs(l1.body) !! Uses(l2.body)
  }

  /** What the hazard test takes for granted: an access of the first loop that conflicts with one
      of the second is indexed by the induction variable in some position. */
  ghost predicate Moving(l1: Op, l2: Op)
    requires l1.For? && l2.For?
  {
    forall e1, e2 :: e1 in Effects(l1.body) && e2 in Effects(l2.body) && Conflict(e1, e2) ==> l1.iv in e1.idx
  }

  /** The pass's test together with what it takes for granted. */
  ghost predicate Separable(l1: Op, l2: Op)
    requires l1.For? && l2.For?
  {
    Scoped(l1, l2) && Moving(l1, l2) && !MemoryHazards(l1, l2)
  }

  /** Some index position of both accesses is its loop's induction variable. */
  predicate Pinned(e1: Effect, e2: Effect, iv1: Var, iv2: Var) {
    exists d :: 0 <= d < |e1.idx| && d < |e2.idx| && e1.idx[d] == iv1 && e2.idx[d] == iv2
  }

  lemma {:induction false} UsedIndex(ops: seq<Op>, e: Effect, x: Var)
    requires e in Effects(ops) && x in e.idx
    ensures x in Uses(ops)
    decreases ops
  {
    if e in OpEffects(ops[0]) {
      if ops[0].For? { UsedIndex(ops[0].body, e, x); }
    } else {
      UsedIndex(ops[1..], e, x);
    }
  }

  /** Alignment turns a moving index of the first access into one of both. */
  lemma ConflictsPinned(l1: Op, l2: Op, e1: Effect, e2: Effect)
    requires l1.For? && l2.For? && Separable(l1, l2)
    requires e1 in Effects(l1.body) && e2 in Effects(l2.body) && Conflict(e1, e2)
    ensures Pinned(e1, e2, l1.iv, l2.iv)
  {
    assert !Hazard(e1, e2, l1.iv, l2.iv);
    var d :| 0 <= d < |e1.idx| && e1.idx[d] == l1.iv;
    if e2.idx[d] == l1.iv { UsedIndex(l2.body, e2, l1.iv); }
  }

  predicate SameBounds(l1: Op, l2: Op) {
    l1.For? && l2.For? && l1.lo == l2.lo && l1.hi == l2.hi && l1.step == l2.step
  }

  /** The spliced loop: the second body after the first, over the first induction variable. */
  function Fused(l1: Op, l2: Op): Op
    requires l1.For? && l2.For?
  {
    l1.(body := l1.body + RenameUses(l2.body, l2.iv, l1.iv))
  }

  // ----- from static effects to the addresses a run touches

  /** Address a is one that effect e can touch in iteration i of the loop over iv. */
  predicate Explains(e: Effect, iv: Var, i: int, a: Addr) {
    && e.m == a.m && |e.idx| == |a.at|
    && forall d :: 0 <= d < |e.idx| && e.idx[d] == iv ==> a.at[d] == i
  }

  ghost predicate Explained(effects: seq<Effect>, iv: Var, i: int, r: Result) {
    && (forall a :: a in r.stored ==> exists e :: e in effects && e.write && Explains(e, iv, i, a))
    && (forall a :: a in r.loaded ==> exists e :: e in effects && !e.write && Explains(e, iv, i, a))
  }

  lemma ExplainedBoth(p: seq<Effect>, q: seq<Effect>, iv: Var, i: int, r: Result, s: Result, t: Result)
    requires Explained(p, iv, i, r) && Explained(q, iv, i, s)
    requires t.loaded == r.loaded + s.loaded && t.stored == r.stored + s.stored
    ensures Explained(p + q, iv, i, t)
  {
    forall e | e in p || e in q
      ensures e in p + q
    {}
  }

  lemma {:induction false} RunExplained(f: Meaning, ops: seq<Op>, iv: Var, i: int, env: Env, h: Heap)
    requires iv !in Defs(ops) && Val(env, iv) == i
    ensures Explained(Effects(ops), iv, i, Run(f, ops, env, h)) && Val(Run(f, ops, env, h).env, iv) == i
    decreases ops, 0
  {
    if ops != [] {
      OpExplained(f, ops[0], iv, i, env, h);
      var r := RunOp(f, ops[0], env, h);
      RunExplained(f, ops[1..], iv, i, r.env, r.heap);
      ExplainedBoth(OpEffects(ops[0]), Effects(ops[1..]), iv, i, r, Run(f, ops[1..], r.env, r.heap),
          Run(f, ops, env, h));
    }
  }

  lemma {:induction false} OpExplained(f: Meaning, op: Op, iv: Var, i: int, env: Env, h: Heap)
    requires iv !in OpDefs(op) && Val(env, iv) == i
    ensures Explained(OpEffects(op), iv, i, RunOp(f, op, env, h)) && Val(RunOp(f, op, env, h).env, iv) == i
    decreases op, 0
  {
    match op
    case Pure(_, _, _) =>
    case Load(_, m, idx) => assert OpEffects(op)[0] == Effect(false, m, idx)
      && Explains(Effect(false, m, idx), iv, i, Addr(m, Vals(env, idx)));
    case Store(_, m, idx) => assert OpEffects(op)[0] == Effect(true, m, idx)
      && Explains(Effect(true, m, idx), iv, i, Addr(m, Vals(env, idx)));
    case For(jv, lo, hi, step, body) => LoopExplained(f, jv, Val(env, lo), Val(env, hi), Val(env, step), body, iv, i,
      env, h);
  }

  lemma {:induction false} LoopExplained(f: Meaning, jv: Var, j: int, hi: int, step: int, body: seq<Op>, iv: Var,
          i: int, env: Env, h: Heap)
    requires iv !in Defs(body) && iv != jv && Val(env, iv) == i
    ensures Explained(Effects(body), iv, i, Loop(f, jv, j, hi, step, body, env, h))
    decreases body, 1 + if hi > j then hi - j else 0
  {
    if j < hi && step > 0 {
      RunExplained(f, body, iv, i, env[jv := j], h);
      LoopExplained(f, jv, j + step, hi, step, body, iv, i, env, Run(f, body, env[jv := j], h).heap);
    }
  }

  // ----- bodies at different iterations commute

  predicate Apart(r: Result, s: Result) {
    r.stored !! (s.loaded + s.stored) && s.stored !! (r.loaded + r.stored)
  }

  lemma BodiesApart(f: Meaning, l1: Op, l2: Op, j: int, i: int, env: Env, h: Heap)
    requires l1.For? && l2.For? && Separable(l1, l2) && i != j && l1.iv !in Defs(l1.body)
    ensures Apart(Run(f, l1.body, env[l1.iv := j], h), Run(f, l2.body, env[l2.iv := i], h))
  {
    var r, s := Run(f, l1.body, env[l1.iv := j], h), Run(f, l2.body, env[l2.iv := i], h);
    RunExplained(f, l1.body, l1.iv, j, env[l1.iv := j], h);
    RunExplained(f, l2.body, l2.iv, i, env[l2.iv := i], h);
    forall a | a in r.loaded + r.stored && a in s.loaded + s.stored
      ensures a !in r.stored && a !in s.stored
    {
      TouchesApart(l1, l2, j, i, r, s, a);
    }
  }

  /** The access that touched address a; a write if a was written. */
  lemma Toucher(effects: seq<Effect>, iv: Var, i: int, r: Result, a: Addr) returns (e: Effect)
    requires Explained(effects, iv, i, r) && a in r.loaded + r.stored
    ensures e in effects && Explains(e, iv, i, a) && (a in r.stored ==> e.write)
  {
    if a in r.stored {
      e :| e in effects && e.write && Explains(e, iv, i, a);
    } else {
      e :| e in effects && !e.write && Explains(e, iv, i, a);
    }
  }

  lemma TouchesApart(l1: Op, l2: Op, j: int, i: int, r: Result, s: Result, a: Addr)
    requires l1.For? && l2.For? && Separable(l1, l2) && i != j
    requires Explained(Effects(l1.body), l1.iv, j, r) && Explained(Effects(l2.body), l2.iv, i, s)
    requires a in r.loaded + r.stored && a in s.loaded + s.stored
    ensures a !in r.stored && a !in s.stored
  {
    hide Effects, Separable;
    var e1 := Toucher(Effects(l1.body), l1.iv, j, r, a);
    var e2 := Toucher(Effects(l2.body), l2.iv, i, s, a);
    if Conflict(e1, e2) { ConflictsPinned(l1, l2, e1, e2); }
  }

  /** Two pieces of code that touch nothing the other writes commute. */
  lemma Commute(f: Meaning, p: seq<Op>, ep: Env, q: seq<Op>, eq: Env, h: Heap)
    requires Apart(Run(f, p, ep, h), Run(f, q, eq, h))
    ensures Same(Run(f, q, eq, Run(f, p, ep, h).heap).heap, Run(f, p, ep, Run(f, q, eq, h).heap).heap)
  {
    var r, s := Run(f, p, ep, h), Run(f, q, eq, h);
    RunFrames(f, p, ep, h);
    RunFrames(f, q, eq, h);
    RunLocal(f, q, eq, h, r.heap);
    RunLocal(f, p, ep, h, s.heap);
    var pq, qp := Run(f, q, eq, r.heap), Run(f, p, ep, s.heap);
    forall a
      ensures At(pq.heap, a) == At(qp.heap, a)
    {
      if a in r.stored {
        assert a in r.loaded + r.stored && a !in s.stored;
      } else if a in s.stored {
        assert a in s.loaded + s.stored && a !in r.stored;
      }
    }
  }

  function Body(f: Meaning, l: Op, i: int, env: Env, h: Heap): Heap
    requires l.For?
  {
    Run(f, l.body, env[l.iv := i], h).heap
  }

  /** Memory after the iterations of l from i on. */
  function From(f: Meaning, l: Op, i: int, hi: int, step: int, env: Env, h: Heap): Heap
    requires l.For?
  {
    Loop(f, l.iv, i, hi, step, l.body, env, h).heap
  }

  /** Body 2 at iteration i moves past all later iterations of loop 1. */
  lemma {:induction false} PushPast(f: Meaning, l1: Op, l2: Op, i: int, j: int, hi: int, step: int, env: Env, h: Heap)
    requires l1.For? && l2.For? && Separable(l1, l2) && i < j
    ensures Same(From(f, l1, j, hi, step, env, Body(f, l2, i, env, h)),
      Body(f, l2, i, env, From(f, l1, j, hi, step, env, h)))
    decreases hi - j
  {
    if j < hi && step > 0 {
      BodiesApart(f, l1, l2, j, i, env, h);
      Commute(f, l1.body, env[l1.iv := j], l2.body, env[l2.iv := i], h);
      var g := Body(f, l1, j, env, h);
      LoopSame(f, l1.iv, j + step, hi, step, l1.body, env,
               Body(f, l1, j, env, Body(f, l2, i, env, h)), Body(f, l2, i, env, g));
      PushPast(f, l1, l2, i, j + step, hi, step, env, g);
    }
  }

  /** One iteration of the fused loop is one of each. */
  lemma FusedBody(f: Meaning, l1: Op, l2: Op, i: int, env: Env, h: Heap)
    requires l1.For? && l2.For? && Scoped(l1, l2)
    ensures Body(f, Fused(l1, l2), i, env, h) == Body(f, l2, i, env, Body(f, l1, i, env, h))
  {
    var e := env[l1.iv := i];
    var r := Run(f, l1.body, e, h);
    RunConcat(f, l1.body, RenameUses(l2.body, l2.iv, l1.iv), e, h);
    forall x | x in Uses(l2.body)
      ensures Val(env[l2.iv := i], x) == Val(r.env, Rename(x, l2.iv, l1.iv))
    {
      EnvKept(f, l1.body, e, h, Rename(x, l2.iv, l1.iv));
    }
    RunRenamed(f, l2.body, l2.iv, l1.iv, r.env, env[l2.iv := i], r.heap, {});
  }

  lemma {:induction false} FusedLoop(f: Meaning, l1: Op, l2: Op, i: int, hi: int, step: int, env: Env, h: Heap)
    requires l1.For? && l2.For? && Separable(l1, l2)
    ensures Same(From(f, Fused(l1, l2), i, hi, step, env, h),
      From(f, l2, i, hi, step, env, From(f, l1, i, hi, step, env, h)))
    decreases hi - i
  {
    if i < hi && step > 0 {
      var g := Body(f, l1, i, env, h);
      var k := Body(f, l2, i, env, g);
      FusedBody(f, l1, l2, i, env, h);
      FusedLoop(f, l1, l2, i + step, hi, step, env, k);
      PushPast(f, l1, l2, i, i + step, hi, step, env, g);
      LoopSame(f, l2.iv, i + step, hi, step, l2.body, env,
               From(f, l1, i + step, hi, step, env, k), Body(f, l2, i, env, From(f, l1, i + step, hi, step, env, g)));
    }
  }

  /** Two pieces of code with the same meaning: equal names and equal memory contents. */
  ghost predicate SameMeaning(f: Meaning, p: seq<Op>, q: seq<Op>) {
    forall env: Env, h: Heap, h': Heap :: Same(h, h') ==> EqualRuns(Run(f, p, env, h), Run(f, q, env, h'))
  }

  ghost predicate EqualRuns(r: Result, s: Result) {
    r.env == s.env && Same(r.heap, s.heap)
  }

  lemma RunFor(f: Meaning, l: Op, env: Env, h: Heap)
    requires l.For?
    ensures RunOp(f, l, env, h).env == env
    ensures RunOp(f, l, env, h).heap == From(f, l, Val(env, l.lo), Val(env, l.hi), Val(env, l.step), env, h)
  {}

  /** Loop fusion preserves meaning, for every trip count. */
  lemma FusionPreservesMeaning(f: Meaning, l1: Op, l2: Op)
    requires SameBounds(l1, l2) && Separable(l1, l2)
    ensures SameMeaning(f, [l1, l2], [Fused(l1, l2)])
  {
    forall env: Env, h: Heap, h': Heap | Same(h, h')
      ensures EqualRuns(Run(f, [l1, l2], env, h), Run(f, [Fused(l1, l2)], env, h'))
    {
      hide Run, RunOp, Loop;
      var lo, hi, step := Val(env, l1.lo), Val(env, l1.hi), Val(env, l1.step);
      var l := Fused(l1, l2);
      var g := From(f, l1, lo, hi, step, env, h);
      FusedLoop(f, l1, l2, lo, hi, step, env, h);
      LoopSame(f, l.iv, lo, hi, step, l.body, env, h, h');
      assert [l1] + [l2] == [l1, l2];
      RunConcat(f, [l1], [l2], env, h);
      RunOne(f, l1, env, h);
      RunOne(f, l2, env, g);
      RunOne(f, l, env, h');
      RunFor(f, l1, env, h);
      RunFor(f, l2, env, g);
      RunFor(f, l, env, h');
    }
  }

  // ----- the walk over one block, and over nested blocks

  ghost predicate Fuses(l1: Op, l2: Op) {
    SameBounds(l1, l2) && !MemoryHazards(l1, l2)
  }

  /** One left-to-right pass: a fused loop is not looked at again. */
  ghost function FuseSeq(ops: seq<Op>): seq<Op> {
    if |ops| < 2 then ops
    else if Fuses(ops[0], ops[1]) then [Fused(ops[0], ops[1])] + FuseSeq(ops[2..])
    else [ops[0]] + FuseSeq(ops[1..])
  }

  lemma FuseStep(rest: seq<Op>)
    requires rest != []
    ensures |rest| > 1 && Fuses(rest[0], rest[1]) ==> FuseSeq(rest) == [Fused(rest[0], rest[1])] + FuseSeq(rest[2..])
    ensures !(|rest| > 1 && Fuses(rest[0], rest[1])) ==> FuseSeq(rest) == [rest[0]] + FuseSeq(rest[1..])
  {
    hide Fuses;
    if |rest| == 1 { assert rest == [rest[0]] && rest[1..] == []; }
  }

  /** Two operations become one loop exactly when they are loops with the same bounds and no accesses
      that clash. */
  lemma PairFuses(l1: Op, l2: Op)
    requires l1.For? && l2.For? ==> l1.iv !in Uses(l2.body) && l2.iv !in Uses(l1.body)
    ensures FuseSeq([l1, l2]) ==
      if l1.For? && l2.For? && l1.lo == l2.lo && l1.hi == l2.hi && l1.step == l2.step && !Misaligned(l1, l2)
      then [l1.(body := l1.body + RenameUses(l2.body, l2.iv, l1.iv))] else [l1, l2]
  {
    FuseStep([l1, l2]);
    assert [l1, l2][1..] == [l2] && [l1, l2][2..] == [];
    if l1.For? && l2.For? { HazardsExactly(l1, l2); }
  }

  lemma MoveOver(done: seq<Op>, op: Op, todo: seq<Op>)
    ensures done + ([op] + todo) == (done + [op]) + todo
  {}

  method FuseBlock(ops: seq<Op>) returns (block: seq<Op>)
    ensures block == FuseSeq(ops)
  {
    hide FuseSeq, MemoryHazards, Fused;
    block := ops;
    var it := 0;
    ghost var done, rest := [], ops;
    FuseEmpty();
    while it < |block|
      invariant block == done + rest && it == |done|
      invariant done + FuseSeq(rest) == FuseSeq(ops)
      decreases |rest|
    {
      FuseStep(rest);
      assert block[it] == rest[0] && (it + 1 < |block| ==> block[it + 1] == rest[1]);
      if it + 1 < |block| && SameBounds(block[it], block[it + 1]) {
        var hazards := HasMemoryHazards(block[it], block[it + 1]);
        if !hazards {
          block := block[..it] + [Fused(block[it], block[it + 1])] + block[it + 2..];
          MoveOver(done, Fused(rest[0], rest[1]), FuseSeq(rest[2..]));
          done, rest := done + [Fused(rest[0], rest[1])], rest[2..];
          it := it + 1;
          continue;
        }
      }
      MoveOver(done, rest[0], FuseSeq(rest[1..]));
      done, rest := done + [rest[0]], rest[1..];
      it := it + 1;
    }
  }

  lemma FuseEmpty()
    ensures FuseSeq([]) == [] && forall ops: seq<Op> :: [] + FuseSeq(ops) == FuseSeq(ops)
  {}

  /** Every pair the pass would fuse is separable. */
  ghost predicate PairsSeparable(ops: seq<Op>) {
    forall i, j :: 0 <= i < j < |ops| && j == i + 1 && Fuses(ops[i], ops[j]) ==> Separable(ops[i], ops[j])
  }

  lemma SameMeaningConcat(f: Meaning, p: seq<Op>, p': seq<Op>, q: seq<Op>, q': seq<Op>)
    requires SameMeaning(f, p, p') && SameMeaning(f, q, q')
    ensures SameMeaning(f, p + q, p' + q')
  {
    forall env: Env, h: Heap, h': Heap | Same(h, h')
      ensures EqualRuns(Run(f, p + q, env, h), Run(f, p' + q', env, h'))
    {
      hide Run;
      RunConcat(f, p, q, env, h);
      RunConcat(f, p', q', env, h');
      assert EqualRuns(Run(f, p, env, h), Run(f, p', env, h'));
    }
  }

  lemma SameMeaningSelf(f: Meaning, p: seq<Op>)
    ensures SameMeaning(f, p, p)
  {
    forall env: Env, h: Heap, h': Heap | Same(h, h')
      ensures EqualRuns(Run(f, p, env, h), Run(f, p, env, h'))
    {
      RunSame(f, p, env, h, h');
    }
  }

  lemma SameMeaningTrans(f: Meaning, p: seq<Op>, q: seq<Op>, r: seq<Op>)
    requires SameMeaning(f, p, q) && SameMeaning(f, q, r)
    ensures SameMeaning(f, p, r)
  {
    forall env: Env, h: Heap, h': Heap | Same(h, h')
      ensures EqualRuns(Run(f, p, env, h), Run(f, r, env, h'))
    {
      hide Run;
      assert EqualRuns(Run(f, p, env, h), Run(f, q, env, h'));
      assert EqualRuns(Run(f, q, env, h'), Run(f, r, env, h'));
    }
  }

  lemma {:induction false} BlockPreserved(f: Meaning, ops: seq<Op>)
    requires PairsSeparable(ops)
    ensures SameMeaning(f, ops, FuseSeq(ops))
    decreases |ops|
  {
    hide SameMeaning;
    if |ops| < 2 {
      SameMeaningSelf(f, ops);
    } else if Fuses(ops[0], ops[1]) {
      FusionPreservesMeaning(f, ops[0], ops[1]);
      BlockPreserved(f, ops[2..]);
      assert ops == [ops[0], ops[1]] + ops[2..];
      SameMeaningConcat(f, [ops[0], ops[1]], [Fused(ops[0], ops[1])], ops[2..], FuseSeq(ops[2..]));
    } else {
      SameMeaningSelf(f, [ops[0]]);
      BlockPreserved(f, ops[1..]);
      assert ops == [ops[0]] + ops[1..];
      SameMeaningConcat(f, [ops[0]], [ops[0]], ops[1..], FuseSeq(ops[1..]));
    }
  }

  /** Blocks are visited innermost first. */
  ghost function FuseWalk(ops: seq<Op>): seq<Op>
    decreases ops, 1
  {
    FuseSeq(FuseInside(ops))
  }

  ghost function FuseInside(ops: seq<Op>): seq<Op>
    decreases ops, 0
  {
    if ops == [] then []
    else [if ops[0].For? then ops[0].(body := FuseWalk(ops[0].body)) else ops[0]] + FuseInside(ops[1..])
  }

  /** Every pair the whole walk fuses is separable when the walk reaches it. */
  ghost predicate WalkSeparable(ops: seq<Op>)
    decreases ops, 1
  {
    PairsSeparable(FuseInside(ops)) && InsideSeparable(ops)
  }

  ghost predicate InsideSeparable(ops: seq<Op>)
    decreases ops, 0
  {
    ops != [] ==> (ops[0].For? ==> WalkSeparable(ops[0].body)) && InsideSeparable(ops[1..])
  }

  lemma {:induction false} LoopBodies(f: Meaning, iv: Var, i: int, hi: int, step: int, p: seq<Op>, q: seq<Op>,
          env: Env, h: Heap, h': Heap)
    requires SameMeaning(f, p, q) && Same(h, h')
    ensures Same(Loop(f, iv, i, hi, step, p, env, h).heap, Loop(f, iv, i, hi, step, q, env, h').heap)
    decreases hi - i
  {
    if i < hi && step > 0 {
      assert EqualRuns(Run(f, p, env[iv := i], h), Run(f, q, env[iv := i], h'));
      LoopBodies(f, iv, i + step, hi, step, p, q, env, Run(f, p, env[iv := i], h).heap,
          Run(f, q, env[iv := i], h').heap);
    }
  }

  lemma LoopCongruence(f: Meaning, l: Op, q: seq<Op>)
    requires l.For? && SameMeaning(f, l.body, q)
    ensures SameMeaning(f, [l], [l.(body := q)])
  {
    forall env: Env, h: Heap, h': Heap | Same(h, h')
      ensures EqualRuns(Run(f, [l], env, h), Run(f, [l.(body := q)], env, h'))
    {
      hide Run, RunOp, Loop;
      RunOne(f, l, env, h);
      RunOne(f, l.(body := q), env, h');
      RunFor(f, l, env, h);
      RunFor(f, l.(body := q), env, h');
      LoopBodies(f, l.iv, Val(env, l.lo), Val(env, l.hi), Val(env, l.step), l.body, q, env, h, h');
    }
  }

  /** The pass as a whole preserves meaning. */
  lemma {:induction false} WalkPreservesMeaning(f: Meaning, ops: seq<Op>)
    requires WalkSeparable(ops)
    ensures SameMeaning(f, ops, FuseWalk(ops))
    decreases ops, 1
  {
    hide SameMeaning;
    InsidePreserved(f, ops);
    BlockPreserved(f, FuseInside(ops));
    SameMeaningTrans(f, ops, FuseInside(ops), FuseWalk(ops));
  }

  lemma {:induction false} InsidePreserved(f: Meaning, ops: seq<Op>)
    requires InsideSeparable(ops)
    ensures SameMeaning(f, ops, FuseInside(ops))
    decreases ops, 0
  {
    hide SameMeaning;
    if ops == [] {
      SameMeaningSelf(f, ops);
    } else {
      var op := ops[0];
      assert ops == [op] + ops[1..];
      InsidePreserved(f, ops[1..]);
      if op.For? {
        WalkPreservesMeaning(f, op.body);
        LoopCongruence(f, op, FuseWalk(op.body));
        SameMeaningConcat(f, [op], [op.(body := FuseWalk(op.body))], ops[1..], FuseInside(ops[1..]));
      } else {
        SameMeaningSelf(f, [op]);
        SameMeaningConcat(f, [op], [op], ops[1..], FuseInside(ops[1..]));
      }
    }
  }

  // ----- a condition on the program as written

  /** What the test takes for granted of a program before the pass: adjacent loops with equal bounds, at
      any depth, have names of their own, and their conflicting accesses move. */
  ghost predicate SourceSeparable(ops: seq<Op>)
    decreases ops
  {
    && (forall i, j :: 0 <= i < j < |ops| && j == i + 1 && SameBounds(ops[i], ops[j]) ==> OwnNames(ops[i], ops[j]))
    && (forall i :: 0 <= i < |ops| && ops[i].For? ==> SourceSeparable(ops[i].body))
  }

  ghost predicate OwnNames(l1: Op, l2: Op)
    requires l1.For? && l2.For?
  {
    Scoped(l1, l2) && Moving(l1, l2) && Defs(l1.body) !! Defs(l2.body)
  }

  /** The same access, but for index names in `names`. */
  ghost predicate Recast(names: set<Var>, e: Effect, e': Effect) {
    && e'.write == e.write && e'.m == e.m && |e'.idx| == |e.idx|
    && forall d :: 0 <= d < |e.idx| ==> e'.idx[d] == e.idx[d] || (e.idx[d] in names && e'.idx[d] in names)
  }

  /** What fusing inside some code can do to its names and accesses. */
  ghost predicate Recasts(ops: seq<Op>, r: seq<Op>) {
    && Defs(r) <= Defs(ops) && Uses(r) <= Uses(ops) + Defs(ops)
    && forall e' :: e' in Effects(r) ==> exists e :: e in Effects(ops) && Recast(Defs(ops), e, e')
  }

  lemma {:induction false} EffectsConcat(p: seq<Op>, q: seq<Op>)
    ensures Effects(p + q) == Effects(p) + Effects(q)
    decreases |p|
  {
    if p == [] {
      assert p + q == q;
    } else {
      assert (p + q)[1..] == p[1..] + q;
      EffectsConcat(p[1..], q);
    }
  }

  lemma RecastsSelf(ops: seq<Op>)
    ensures Recasts(ops, ops)
  {
    forall e | e in Effects(ops)
      ensures Recast(Defs(ops), e, e)
    {}
  }

  lemma RecastsConcat(p: seq<Op>, p': seq<Op>, q: seq<Op>, q': seq<Op>)
    requires Recasts(p, p') && Recasts(q, q')
    ensures Recasts(p + q, p' + q')
  {
    hide Defs, Uses, Effects;
    NamesConcat(p, q);
    NamesConcat(p', q');
    EffectsConcat(p, q);
    EffectsConcat(p', q');
    forall e' | e' in Effects(p' + q')
      ensures exists e :: e in Effects(p + q) && Recast(Defs(p + q), e, e')
    {
      if e' in Effects(p') {
        var e :| e in Effects(p) && Recast(Defs(p), e, e');
        assert e in Effects(p + q) && Recast(Defs(p + q), e, e');
      } else {
        var e :| e in Effects(q) && Recast(Defs(q), e, e');
        assert e in Effects(p + q) && Recast(Defs(p + q), e, e');
      }
    }
  }

  lemma RecastsTrans(p: seq<Op>, q: seq<Op>, r: seq<Op>)
    requires Recasts(p, q) && Recasts(q, r)
    ensures Recasts(p, r)
  {
    hide Defs, Uses, Effects;
    forall e2 | e2 in Effects(r)
      ensures exists e :: e in Effects(p) && Recast(Defs(p), e, e2)
    {
      var e1 :| e1 in Effects(q) && Recast(Defs(q), e1, e2);
      var e :| e in Effects(p) && Recast(Defs(p), e, e1);
      assert Recast(Defs(p), e, e2);
    }
  }

  lemma SingleNames(l: Op)
    requires l.For?
    ensures Defs([l]) == {l.iv} + Defs(l.body) && Uses([l]) == {l.lo, l.hi, l.step} + Uses(l.body)
    ensures Effects([l]) == Effects(l.body)
  {
    assert [l][1..] == [];
  }

  lemma RecastsLoop(l: Op, body: seq<Op>)
    requires l.For? && Recasts(l.body, body)
    ensures Recasts([l], [l.(body := body)])
  {
    hide Defs, Uses, Effects;
    SingleNames(l);
    SingleNames(l.(body := body));
    forall e' | e' in Effects(body)
      ensures exists e :: e in Effects(l.body) && Recast(Defs([l]), e, e')
    {
      var e :| e in Effects(l.body) && Recast(Defs(l.body), e, e');
      assert Recast(Defs([l]), e, e');
    }
  }

  /** Renaming one name to another. */
  lemma {:induction false} RenameRecasts(ops: seq<Op>, from: Var, to: Var)
    ensures var r := RenameUses(ops, from, to);
      && Defs(r) == Defs(ops) && Uses(r) <= Uses(ops) + {to}
      && forall e' :: e' in Effects(r) ==> exists e :: e in Effects(ops) && Recast({from, to}, e, e')
    decreases ops, 0
  {
    if ops != [] {
      var rest := ops[1..];
      assert RenameUses(ops, from, to)[1..] == RenameUses(rest, from, to);
      RenameRecasts(rest, from, to);
      RenameOpRecasts(ops[0], from, to);
      assert Effects(RenameUses(ops, from, to)) ==
        OpEffects(RenameOp(ops[0], from, to)) + Effects(RenameUses(rest, from, to));
      forall e' | e' in Effects(RenameUses(ops, from, to))
        ensures exists e :: e in Effects(ops) && Recast({from, to}, e, e')
      {
        if e' in OpEffects(RenameOp(ops[0], from, to)) {
          var e :| e in OpEffects(ops[0]) && Recast({from, to}, e, e');
          assert e in Effects(ops);
        } else {
          var e :| e in Effects(rest) && Recast({from, to}, e, e');
          assert e in Effects(ops);
        }
      }
    }
  }

  lemma {:induction false} RenameOpRecasts(op: Op, from: Var, to: Var)
    ensures var r := RenameOp(op, from, to);
      && OpDefs(r) == OpDefs(op) && OpUses(r) <= OpUses(op) + {to}
      && forall e' :: e' in OpEffects(r) ==> exists e :: e in OpEffects(op) && Recast({from, to}, e, e')
    decreases op, 0
  {
    match op
    case Pure(_, _, _) =>
    case Load(_, m, idx) => assert Effect(false, m, idx) in OpEffects(op)
      && Recast({from, to}, Effect(false, m, idx), Effect(false, m, RenameAll(idx, from, to)));
    case Store(_, m, idx) => assert Effect(true, m, idx) in OpEffects(op)
      && Recast({from, to}, Effect(true, m, idx), Effect(true, m, RenameAll(idx, from, to)));
    case For(_, _, _, _, body) => RenameRecasts(body, from, to);
  }

  lemma RecastsFused(l1: Op, l2: Op)
    requires l1.For? && l2.For?
    ensures Recasts([l1] + [l2], [Fused(l1, l2)])
  {
    var more := RenameUses(l2.body, l2.iv, l1.iv);
    RenameRecasts(l2.body, l2.iv, l1.iv);
    hide Defs, Uses, Effects, RenameUses;
    SingleNames(l1);
    SingleNames(l2);
    SingleNames(Fused(l1, l2));
    NamesConcat([l1], [l2]);
    NamesConcat(l1.body, more);
    EffectsConcat([l1], [l2]);
    EffectsConcat(l1.body, more);
    var names := Defs([l1] + [l2]);
    forall e' | e' in Effects([Fused(l1, l2)])
      ensures exists e :: e in Effects([l1] + [l2]) && Recast(names, e, e')
    {
      if e' in Effects(l1.body) {
        assert Recast(names, e', e');
      } else {
        var e :| e in Effects(l2.body) && Recast({l2.iv, l1.iv}, e, e');
        assert Recast(names, e, e');
      }
    }
  }

  lemma {:induction false} FuseSeqRecasts(ops: seq<Op>)
    ensures Recasts(ops, FuseSeq(ops))
    decreases |ops|
  {
    hide Recasts, Fuses, Fused;
    if |ops| < 2 {
      RecastsSelf(ops);
    } else if Fuses(ops[0], ops[1]) {
      assert ops == [ops[0]] + [ops[1]] + ops[2..];
      FusesLoops(ops[0], ops[1]);
      RecastsFused(ops[0], ops[1]);
      FuseSeqRecasts(ops[2..]);
      RecastsConcat([ops[0]] + [ops[1]], [Fused(ops[0], ops[1])], ops[2..], FuseSeq(ops[2..]));
    } else {
      assert ops == [ops[0]] + ops[1..];
      RecastsSelf([ops[0]]);
      FuseSeqRecasts(ops[1..]);
      RecastsConcat([ops[0]], [ops[0]], ops[1..], FuseSeq(ops[1..]));
    }
  }

  lemma FusesLoops(l1: Op, l2: Op)
    requires Fuses(l1, l2)
    ensures l1.For? && l2.For?
  {}

  lemma {:induction false} FuseWalkRecasts(ops: seq<Op>)
    ensures Recasts(ops, FuseWalk(ops))
    decreases ops, 1
  {
    hide Recasts;
    FuseInsideRecasts(ops);
    FuseSeqRecasts(FuseInside(ops));
    RecastsTrans(ops, FuseInside(ops), FuseWalk(ops));
  }

  lemma {:induction false} FuseInsideRecasts(ops: seq<Op>)
    ensures Recasts(ops, FuseInside(ops))
    decreases ops, 0
  {
    hide Recasts;
    if ops == [] {
      RecastsSelf(ops);
    } else {
      assert ops == [ops[0]] + ops[1..];
      var op := FuseBodyOf(ops[0]);
      if ops[0].For? {
        FuseWalkRecasts(ops[0].body);
        RecastsLoop(ops[0], FuseWalk(ops[0].body));
      } else {
        RecastsSelf([ops[0]]);
      }
      FuseInsideRecasts(ops[1..]);
      RecastsConcat([ops[0]], [op], ops[1..], FuseInside(ops[1..]));
    }
  }

  ghost function FuseBodyOf(op: Op): Op {
    if op.For? then op.(body := FuseWalk(op.body)) else op
  }

  lemma {:induction false} FuseInsideAt(ops: seq<Op>, i: nat)
    requires i < |ops|
    ensures |FuseInside(ops)| == |ops| && FuseInside(ops)[i] == FuseBodyOf(ops[i])
    decreases |ops|
  {
    if i > 0 { FuseInsideAt(ops[1..], i - 1); } else if |ops| > 1 { FuseInsideAt(ops[1..], 0); }
  }

  /** The pass: the blocks inside a block first, then the walk over it. */
  method FuseAll(ops: seq<Op>) returns (block: seq<Op>)
    ensures block == FuseWalk(ops)
    decreases ops
  {
    hide FuseSeq, FuseInside;
    FuseInsideSize(ops);
    block := [];
    for n := 0 to |ops|
      invariant block == FuseInside(ops)[..n]
    {
      FuseInsideAt(ops, n);
      if ops[n].For? {
        var body := FuseAll(ops[n].body);
        block := block + [ops[n].(body := body)];
      } else {
        block := block + [ops[n]];
      }
    }
    assert FuseInside(ops)[..|ops|] == FuseInside(ops);
    block := FuseBlock(block);
  }

  lemma FuseInsideSize(ops: seq<Op>)
    ensures |FuseInside(ops)| == |ops|
  {
    if ops != [] { FuseInsideAt(ops, 0); } else { FuseInsideNone(); }
  }

  /** Two loops without loops in them become one exactly as PairFuses says, inside a loop too. */
  lemma NestedPairFuses(l: Op, l1: Op, l2: Op)
    requires l.For? && l1.For? && l2.For? && l.body == [l1, l2]
    requires (forall op :: op in l1.body ==> !op.For?) && (forall op :: op in l2.body ==> !op.For?)
    requires l1.iv !in Uses(l2.body) && l2.iv !in Uses(l1.body)
    ensures FuseWalk([l]) ==
      if l1.lo == l2.lo && l1.hi == l2.hi && l1.step == l2.step && !Misaligned(l1, l2)
      then [l.(body := [l1.(body := l1.body + RenameUses(l2.body, l2.iv, l1.iv))])] else [l]
  {
    NothingToFuse(l1.body);
    NothingToFuse(l2.body);
    PairFuses(l1, l2);
    hide FuseSeq, Misaligned, RenameUses;
    InsideTwo(l1, l2);
    InsideOne(l);
    FuseStep([l.(body := FuseWalk(l.body))]);
    assert [l.(body := FuseWalk(l.body))][1..] == [];
    FuseEmpty();
  }

  lemma InsideOne(l: Op)
    ensures FuseInside([l]) == [FuseBodyOf(l)]
  {
    assert [l][1..] == [];
  }

  lemma InsideTwo(l1: Op, l2: Op)
    ensures FuseInside([l1, l2]) == [FuseBodyOf(l1), FuseBodyOf(l2)]
  {
    assert [l1, l2][1..] == [l2];
    InsideOne(l2);
  }

  /** A block without loops stays as it is. */
  lemma {:induction false} NothingToFuse(ops: seq<Op>)
    requires forall op :: op in ops ==> !op.For?
    ensures FuseInside(ops) == ops && FuseSeq(ops) == ops && FuseWalk(ops) == ops
    decreases |ops|
  {
    if ops != [] { NothingToFuse(ops[1..]); }
  }

  /** Loops that could be fused as written can be fused after the pass has been through their bodies. */
  lemma RecastSeparable(l1: Op, l2: Op, body1: seq<Op>, body2: seq<Op>)
    requires l1.For? && l2.For? && OwnNames(l1, l2) && Recasts(l1.body, body1) && Recasts(l2.body, body2)
    requires Fuses(l1.(body := body1), l2.(body := body2))
    ensures Separable(l1.(body := body1), l2.(body := body2))
  {
    hide Defs, Uses, Effects;
    forall e1', e2' | e1' in Effects(body1) && e2' in Effects(body2) && Conflict(e1', e2')
      ensures l1.iv in e1'.idx
    {
      var e1 :| e1 in Effects(l1.body) && Recast(Defs(l1.body), e1, e1');
      var e2 :| e2 in Effects(l2.body) && Recast(Defs(l2.body), e2, e2');
      assert Conflict(e1, e2);
      var d :| 0 <= d < |e1.idx| && e1.idx[d] == l1.iv;
      assert e1'.idx[d] == l1.iv;
    }
  }

  lemma {:induction false} SourceIsSeparable(ops: seq<Op>)
    requires SourceSeparable(ops)
    ensures WalkSeparable(ops)
    decreases ops, 1
  {
    hide OwnNames, MemoryHazards, Separable, FuseInside;
    var r := FuseInside(ops);
    if ops != [] { FuseInsideAt(ops, 0); }
    forall i, j | 0 <= i < j < |r| && j == i + 1 && Fuses(r[i], r[j])
      ensures Separable(r[i], r[j])
    {
      if |ops| == 0 { FuseInsideNone(); }
      FuseInsideAt(ops, i);
      FuseInsideAt(ops, j);
      FusesLoops(r[i], r[j]);
      BoundsKept(ops[i], ops[j]);
      FuseWalkRecasts(ops[i].body);
      FuseWalkRecasts(ops[j].body);
      RecastSeparable(ops[i], ops[j], FuseWalk(ops[i].body), FuseWalk(ops[j].body));
    }
    InsideIsSeparable(ops, 0);
  }

  lemma FuseInsideNone()
    ensures FuseInside([]) == []
  {}

  lemma BoundsKept(l1: Op, l2: Op)
    requires Fuses(FuseBodyOf(l1), FuseBodyOf(l2))
    ensures SameBounds(l1, l2)
  {}

  lemma {:induction false} InsideIsSeparable(ops: seq<Op>, n: nat)
    requires n <= |ops| && forall i :: 0 <= i < |ops| && ops[i].For? ==> SourceSeparable(ops[i].body)
    ensures InsideSeparable(ops[n..])
    decreases ops, 0, |ops| - n
  {
    hide WalkSeparable, SourceSeparable;
    if n < |ops| {
      if ops[n].For? { SourceIsSeparable(ops[n].body); }
      InsideIsSeparable(ops, n + 1);
      assert ops[n..][1..] == ops[n + 1..];
    } else {
      assert ops[n..] == [];
    }
  }

  /** The pass preserves the meaning of every program that meets the condition before it. */
  lemma PassPreservesMeaning(f: Meaning, ops: seq<Op>)
    requires SourceSeparable(ops)
    ensures SameMeaning(f, ops, FuseWalk(ops))
  {
    SourceIsSeparable(ops);
    WalkPreservesMeaning(f, ops);
  }

  // ----- where the test is too weak

  const SCALAR: Var := 10
  const ARRAY: Var := 11
  const PRODUCER := For(3, 0, 1, 2, [Store(3, SCALAR, [])])
  const CONSUMER := For(4, 0, 1, 2, [Load(5, SCALAR, []), Store(5, ARRAY, [4])])

  /** Accesses without indices count as aligned, so a loop that leaves its last value in a scalar
      is fused with a loop that reads it, and the reader then sees earlier values. */
  lemma FusesThroughScalar(f: Meaning)
    ensures Fuses(PRODUCER, CONSUMER) && Scoped(PRODUCER, CONSUMER) && !Moving(PRODUCER, CONSUMER)
    ensures !SameMeaning(f, [PRODUCER, CONSUMER], [Fused(PRODUCER, CONSUMER)])
  {
    ScalarPassesTest();
    var env: Env := map[0 := 0, 1 := 2, 2 := 1];
    var cell := Addr(ARRAY, [0]);
    ProducerLeavesLast(f, env);
    ConsumerReads(f, env, map[Addr(SCALAR, []) := 1]);
    FusedReadsFirst(f, env);
    var h: Heap := map[];
    hide Run, RunOp, Loop;
    assert [PRODUCER] + [CONSUMER] == [PRODUCER, CONSUMER];
    RunConcat(f, [PRODUCER], [CONSUMER], env, h);
    RunOne(f, PRODUCER, env, h);
    RunOne(f, CONSUMER, env, map[Addr(SCALAR, []) := 1]);
    RunOne(f, Fused(PRODUCER, CONSUMER), env, h);
    assert At(Run(f, [PRODUCER, CONSUMER], env, h).heap, cell) == 1;
    assert Same(h, h) && !EqualRuns(Run(f, [PRODUCER, CONSUMER], env, h), Run(f, [Fused(PRODUCER, CONSUMER)], env, h));
  }

  lemma ScalarPassesTest()
    ensures Fuses(PRODUCER, CONSUMER) && Scoped(PRODUCER, CONSUMER) && !Moving(PRODUCER, CONSUMER)
  {
    var p, c := PRODUCER.body, CONSUMER.body;
    assert p[1..] == [] && c[1..] == [Store(5, ARRAY, [4])] && c[1..][1..] == [];
    assert Effects(p) == [Effect(true, SCALAR, [])];
    assert Effects(c[1..]) == [Effect(true, ARRAY, [4])];
    assert Effects(c) == [Effect(false, SCALAR, []), Effect(true, ARRAY, [4])];
    assert Defs(p) == {} && Defs(c[1..]) == {} && Defs(c) == {5};
    assert Uses(c[1..]) == {5, 4} && Uses(c) == {5, 4};
    assert Effects(p)[0] in Effects(p) && Effects(c)[0] in Effects(c) && Conflict(Effects(p)[0], Effects(c)[0]);
  }

  lemma RunTwo(f: Meaning, x: Op, y: Op, env: Env, h: Heap)
    ensures var r := RunOp(f, x, env, h); Run(f, [x, y], env, h).heap == RunOp(f, y, r.env, r.heap).heap
  {
    assert [x, y][1..] == [y];
    var r := RunOp(f, x, env, h);
    RunOne(f, y, r.env, r.heap);
  }

  /** A loop from 0 to 2 by 1 runs its body twice. */
  lemma TwoIterations(f: Meaning, l: Op, env: Env, h: Heap)
    requires l.For? && Val(env, l.lo) == 0 && Val(env, l.hi) == 2 && Val(env, l.step) == 1
    ensures RunOp(f, l, env, h).heap == Body(f, l, 1, env, Body(f, l, 0, env, h))
  {
    var g := Body(f, l, 0, env, h);
    assert Loop(f, l.iv, 2, 2, 1, l.body, env, Body(f, l, 1, env, g)).heap == Body(f, l, 1, env, g);
    assert Loop(f, l.iv, 1, 2, 1, l.body, env, g).heap == Body(f, l, 1, env, g);
  }

  lemma ProducerLeavesLast(f: Meaning, env: Env)
    requires env == map[0 := 0, 1 := 2, 2 := 1]
    ensures RunOp(f, PRODUCER, env, map[]).heap == map[Addr(SCALAR, []) := 1]
  {
    TwoIterations(f, PRODUCER, env, map[]);
    RunOne(f, Store(3, SCALAR, []), env[3 := 0], map[]);
    RunOne(f, Store(3, SCALAR, []), env[3 := 1], map[Addr(SCALAR, []) := 0]);
    assert Vals(env[3 := 0], []) == [] && Vals(env[3 := 1], []) == [];
  }

  lemma ConsumerStep(f: Meaning, env: Env, i: int, h: Heap)
    ensures Body(f, CONSUMER, i, env, h) == h[Addr(ARRAY, [i]) := At(h, Addr(SCALAR, []))]
  {
    var e := env[4 := i];
    RunTwo(f, Load(5, SCALAR, []), Store(5, ARRAY, [4]), e, h);
    assert Vals(e, []) == [];
    assert Vals(e[5 := At(h, Addr(SCALAR, []))], [4]) == [i];
  }

  lemma ConsumerReads(f: Meaning, env: Env, h: Heap)
    requires env == map[0 := 0, 1 := 2, 2 := 1] && h == map[Addr(SCALAR, []) := 1]
    ensures At(RunOp(f, CONSUMER, env, h).heap, Addr(ARRAY, [0])) == 1
  {
    TwoIterations(f, CONSUMER, env, h);
    ConsumerStep(f, env, 0, h);
    ConsumerStep(f, env, 1, h[Addr(ARRAY, [0]) := 1]);
    assert [0][0] != [1][0];
  }

  lemma FusedReadsFirst(f: Meaning, env: Env)
    requires env == map[0 := 0, 1 := 2, 2 := 1]
    ensures At(RunOp(f, Fused(PRODUCER, CONSUMER), env, map[]).heap, Addr(ARRAY, [0])) == 0
  {
    ScalarPassesTest();
    var l := Fused(PRODUCER, CONSUMER);
    TwoIterations(f, l, env, map[]);
    forall i, h
      ensures Body(f, l, i, env, h) == h[Addr(SCALAR, []) := i][Addr(ARRAY, [i]) := i]
    {
      FusedBody(f, PRODUCER, CONSUMER, i, env, h);
      RunOne(f, Store(3, SCALAR, []), env[3 := i], h);
      assert Vals(env[3 := i], []) == [];
      ConsumerStep(f, env, i, h[Addr(SCALAR, []) := i]);
    }
    assert [0][0] != [1][0];
  }
}
