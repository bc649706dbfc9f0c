/** What the GEMM matchers share: the operations they recognise, straight-line SSA code, and the
    single loop of a block. */
module Nests {
  import opened Arithmetic
  import opened Wrappers
  import opened LoopIR
  import opened Elements
  import opened GemmSpec
  import M = Machine

  // Codes of the pure operations.  Codes from 8 to 99 are operations the matchers do not know,
  // and codes from 100 on are other constants.
  const INDEX_CAST: nat := 0
  const DIM: nat := 1
  const POISON: nat := 2
  const MULF: nat := 3
  const ADDF: nat := 4
  const MAXIMUMF: nat := 5
  const POS_ZERO: nat := 6
  const NEG_ZERO: nat := 7

  /** No two of the codes are the same, and none is that of another constant. */
  lemma CodesDiffer()
    ensures var codes := [INDEX_CAST, DIM, POISON, MULF, ADDF, MAXIMUMF, POS_ZERO, NEG_ZERO];
      && (forall i, j :: 0 <= i < j < |codes| ==> codes[i] != codes[j])
      && (forall i :: 0 <= i < |codes| ==> codes[i] < 100)
  {}

  predicate IsConstant(k: nat) { k == POS_ZERO || k == NEG_ZERO || k >= 100 }

  /** Structural noise: index casts, constants, dimensions and poison. */
  predicate Noise(op: Op) {
    op.Pure? && (op.f == INDEX_CAST || op.f == DIM || op.f == POISON || IsConstant(op.f))
  }

  predicate Kind(op: Op, k: nat) { op.Pure? && op.f == k }

  /** Straight-line SSA code whose operations have the operands their kind demands. */
  ghost predicate Straight(ops: seq<Op>) {
    && (forall op :: op in ops ==> !op.For? && Arity(op))
    && (forall i, j :: 0 <= i < j < |ops| ==> OpDefs(ops[i]) !! OpDefs(ops[j]))
    && (forall i, j :: 0 <= i <= j < |ops| ==> OpUses(ops[i]) !! OpDefs(ops[j]))
  }

  predicate Arity(op: Op) {
    op.Pure? ==>
      && (op.f == INDEX_CAST ==> |op.args| == 1)
      && (op.f == MULF || op.f == ADDF || op.f == MAXIMUMF ==> |op.args| == 2)
      && (IsConstant(op.f) ==> op.args == [])
  }

  lemma StraightPart(ops: seq<Op>, lo: nat, hi: nat)
    requires Straight(ops) && lo <= hi <= |ops|
    ensures Straight(ops[lo..hi])
    ensures forall i :: 0 <= i < lo ==> OpDefs(ops[i]) !! Defs(ops[lo..hi]) && OpUses(ops[i]) !! Defs(ops[lo..hi])
    ensures forall i :: hi <= i < |ops| ==> OpDefs(ops[i]) !! Defs(ops[lo..hi])
  {
    hide OpDefs, OpUses, Defs;
    var part := ops[lo..hi];
    assert forall i :: 0 <= i < |part| ==> part[i] == ops[lo + i];
    assert forall op :: op in part ==> op in ops;
    NamesAt(part);
  }

  lemma StraightTail(ops: seq<Op>)
    requires Straight(ops) && ops != []
    ensures Straight(ops[1..]) && Straight(ops[..|ops| - 1])
    ensures OpDefs(ops[0]) !! Defs(ops[1..]) && OpUses(ops[0]) !! Defs(ops)
    ensures OpDefs(ops[|ops| - 1]) !! Defs(ops[..|ops| - 1])
  {
    StraightPart(ops, 1, |ops|);
    StraightPart(ops, 0, |ops| - 1);
    assert ops[1..|ops|] == ops[1..] && ops[0..|ops| - 1] == ops[..|ops| - 1];
    hide Straight, OpUses, OpDefs;
  }

  lemma StraightKinds(ops: seq<Op>)
    requires Straight(ops)
    ensures forall i :: 0 <= i < |ops| ==> !ops[i].For?
  {
    assert forall i :: 0 <= i < |ops| ==> ops[i] in ops;
  }

  /** Two operations of SSA code that define the same name are the same. */
  lemma SameDst(ops: seq<Op>, x: Op, y: Op)
    requires Straight(ops) && x in ops && y in ops && !x.Store? && !y.Store? && x.dst == y.dst
    ensures x == y
  {
    assert x.dst in OpDefs(x) && y.dst in OpDefs(y);
  }

  /** What an operation says about the names around it, once every name has its value. */
  ghost predicate Holds(f: Meaning, op: Op, env: Env, h: Heap) {
    match op
    case Pure(d, k, args) => Val(env, d) == f(k, Vals(env, args))
    case Load(d, m, idx) => Val(env, d) == At(h, Addr(m, Vals(env, idx)))
    case _ => true
  }

  /** After a store there are only pure operations. */
  ghost predicate StoreLast(ops: seq<Op>) {
    forall i, j :: 0 <= i < j < |ops| && ops[i].Store? ==> ops[j].Pure?
  }

  function After(h: Heap, store: Op, env: Env): Heap
    requires store.Store?
  {
    h[Addr(store.m, Vals(env, store.idx)) := Val(env, store.src)]
  }

  /** In SSA code every operation's equation holds in the final environment, and the one store
      can be read off it. */
  lemma {:induction false} Equations(f: Meaning, ops: seq<Op>, env: Env, h: Heap)
    requires Straight(ops) && StoreLast(ops)
    ensures var r := Run(f, ops, env, h);
      && (forall op :: op in ops ==> Holds(f, op, r.env, h))
      && (forall op :: op in ops && op.Store? ==> r.heap == After(h, op, r.env))
      && ((forall op :: op in ops ==> !op.Store?) ==> r.heap == h)
    decreases |ops|
  {
    if ops != [] {
      var op, rest := ops[0], ops[1..];
      StraightTail(ops);
      var s := RunOp(f, op, env, h);
      var r := Run(f, rest, s.env, s.heap);
      Equations(f, rest, s.env, s.heap);
      forall x | x in OpUses(op)
        ensures Val(r.env, x) == Val(env, x)
      {
        EnvKept(f, ops, env, h, x);
      }
      forall x | x in OpDefs(op)
        ensures Val(r.env, x) == Val(s.env, x)
      {
        EnvKept(f, rest, s.env, s.heap, x);
      }
      HeadHolds(f, op, env, s, r.env, h);
      assert op in ops && forall o :: o in ops ==> o == op || o in rest;
      if op.Store? {
        assert forall i :: 0 <= i < |rest| ==> rest[i] == ops[i + 1];
      }
    }
  }

  lemma HeadHolds(f: Meaning, op: Op, env: Env, s: Result, env': Env, h: Heap)
    requires !op.For? && s == RunOp(f, op, env, h)
    requires forall x :: x in OpUses(op) ==> Val(env', x) == Val(env, x)
    requires forall x :: x in OpDefs(op) ==> Val(env', x) == Val(s.env, x)
    ensures Holds(f, op, env', h)
    ensures s.heap == if op.Store? then After(h, op, env') else h
  {
    match op
    case Pure(d, k, args) => assert Vals(env', args) == Vals(env, args);
    case Load(d, m, idx) => assert Vals(env', idx) == Vals(env, idx);
    case Store(x, m, idx) => assert Vals(env', idx) == Vals(env, idx);
  }

  // ----- index casts

  /** Where a chain of index casts leads, through the definitions in `ops`. */
  function Root(ops: seq<Op>, x: Var): Var
    decreases |ops|
  {
    if ops == [] then x
    else
      var last, before := ops[|ops| - 1], ops[..|ops| - 1];
      if Kind(last, INDEX_CAST) && last.dst == x && |last.args| == 1 then Root(before, last.args[0])
      else Root(before, x)
  }

  lemma {:induction false} RootConcat(p: seq<Op>, q: seq<Op>, x: Var)
    ensures Root(p + q, x) == Root(p, Root(q, x))
    decreases |q|
  {
    if q == [] {
      assert p + q == p;
    } else {
      assert (p + q)[..|p + q| - 1] == p + q[..|q| - 1];
      var last := q[|q| - 1];
      var cast := Kind(last, INDEX_CAST) && last.dst == x && |last.args| == 1;
      RootConcat(p, q[..|q| - 1], if cast then last.args[0] else x);
    }
  }

  /** A root that differs from its name is used, and the name is defined. */
  lemma {:induction false} RootMoves(ops: seq<Op>, x: Var)
    requires Root(ops, x) != x
    ensures x in Defs(ops) && Root(ops, x) in Uses(ops)
    decreases |ops|
  {
    var last, before := ops[|ops| - 1], ops[..|ops| - 1];
    assert ops == before + [last];
    NamesConcat(before, [last]);
    assert [last][1..] == [];
    if Kind(last, INDEX_CAST) && last.dst == x && |last.args| == 1 {
      if Root(before, last.args[0]) != last.args[0] { RootMoves(before, last.args[0]); }
    } else {
      RootMoves(before, x);
    }
  }

  /** An index cast keeps every index that fits in 31 bits. */
  ghost predicate CastsKeep(f: Meaning) {
    forall x :: 0 <= x < 0x8000_0000 ==> f(INDEX_CAST, [x]) == x
  }

  /** A name has the value of its root. */
  lemma {:induction false} RootValue(f: Meaning, ops: seq<Op>, env: Env, h: Heap, x: Var)
    requires Straight(ops) && CastsKeep(f)
    requires Root(ops, x) !in Defs(ops) && 0 <= Val(env, Root(ops, x)) < 0x8000_0000
    ensures Val(Run(f, ops, env, h).env, x) == Val(env, Root(ops, x))
    decreases |ops|
  {
    if ops != [] {
      var last, before := ops[|ops| - 1], ops[..|ops| - 1];
      assert ops == before + [last];
      NamesConcat(before, [last]);
      assert [last][1..] == [];
      StraightTail(ops);
      RunConcat(f, before, [last], env, h);
      var r := Run(f, before, env, h);
      RunOne(f, last, r.env, r.heap);
      assert last in ops && Arity(last);
      if Kind(last, INDEX_CAST) && last.dst == x {
        RootValue(f, before, env, h, last.args[0]);
        assert Vals(r.env, last.args) == [Val(r.env, last.args[0])];
      } else {
        RootValue(f, before, env, h, x);
        if x in OpDefs(last) && Root(before, x) != x { RootMoves(before, x); }
      }
    }
  }

  predicate Indexed(path: seq<Op>, idx: seq<Var>, x: Var, y: Var) {
    |idx| == 2 && Root(path, idx[0]) == Root(path, x) && Root(path, idx[1]) == Root(path, y)
  }

  // ----- what a root is, without following it

  /** A list of names each of which an operation of `ops` casts from the next. */
  ghost predicate CastChain(ops: seq<Op>, chain: seq<Var>) {
    |chain| > 0 && forall i :: 0 <= i < |chain| - 1 ==> Pure(chain[i], INDEX_CAST, [chain[i + 1]]) in ops
  }

  /** y is x, or some number of index casts in `ops` lead from x to y. */
  ghost predicate CastOf(ops: seq<Op>, y: Var, x: Var) {
    exists chain :: CastChain(ops, chain) && chain[0] == y && chain[|chain| - 1] == x
  }

  /** One index cast does not change the root. */
  lemma {:induction false} RootStep(ops: seq<Op>, y: Var, z: Var)
    requires Straight(ops) && Pure(y, INDEX_CAST, [z]) in ops
    ensures Root(ops, y) == Root(ops, z)
    decreases |ops|
  {
    var cast := Pure(y, INDEX_CAST, [z]);
    var last, before := ops[|ops| - 1], ops[..|ops| - 1];
    StraightTail(ops);
    assert OpDefs(cast) == {y} && z in OpUses(cast);
    if cast in before {
      var i :| 0 <= i < |before| && before[i] == cast;
      assert OpDefs(ops[i]) !! OpDefs(last) && OpUses(ops[i]) !! OpDefs(last);
      RootStep(before, y, z);
    } else {
      assert last == cast && OpUses(last) !! OpDefs(last);
    }
  }

  lemma {:induction false} RootIsCast(ops: seq<Op>, y: Var)
    ensures CastOf(ops, y, Root(ops, y))
    decreases |ops|
  {
    if ops == [] {
      assert CastChain(ops, [y]);
    } else {
      var last, before := ops[|ops| - 1], ops[..|ops| - 1];
      var cast := Kind(last, INDEX_CAST) && last.dst == y && |last.args| == 1;
      var z := if cast then last.args[0] else y;
      RootIsCast(before, z);
      var chain :| CastChain(before, chain) && chain[0] == z && chain[|chain| - 1] == Root(before, z);
      if cast {
        assert last == Pure(y, INDEX_CAST, [z]);
        assert CastChain(ops, [y] + chain);
      } else {
        assert CastChain(ops, chain);
      }
    }
  }

  lemma {:induction false} ChainRoot(ops: seq<Op>, chain: seq<Var>)
    requires Straight(ops) && CastChain(ops, chain)
    ensures Root(ops, chain[0]) == Root(ops, chain[|chain| - 1])
    decreases |chain|
  {
    if |chain| > 1 {
      var rest := chain[1..];
      assert CastChain(ops, rest);
      hide Root, Straight;
      RootStep(ops, chain[0], chain[1]);
      ChainRoot(ops, rest);
    }
  }

  /** A name has root x exactly when index casts lead to it from x, for x not defined in the code. */
  lemma RootExactly(ops: seq<Op>, y: Var, x: Var)
    requires Straight(ops) && x !in Defs(ops)
    ensures Root(ops, x) == x
    ensures Root(ops, y) == x <==> CastOf(ops, y, x)
  {
    if Root(ops, x) != x { RootMoves(ops, x); }
    hide Root, Straight, Defs;
    RootIsCast(ops, y);
    if chain :| CastChain(ops, chain) && chain[0] == y && chain[|chain| - 1] == x {
      ChainRoot(ops, chain);
    }
  }

  /** Two indices that are casts of x and y. */
  ghost predicate CastPair(ops: seq<Op>, idx: seq<Var>, x: Var, y: Var) {
    |idx| == 2 && CastOf(ops, idx[0], x) && CastOf(ops, idx[1], y)
  }

  lemma IndexedExactly(path: seq<Op>, idx: seq<Var>, x: Var, y: Var)
    requires Straight(path) && x !in Defs(path) && y !in Defs(path)
    ensures Indexed(path, idx, x, y) <==> CastPair(path, idx, x, y)
  {
    hide Root, Straight, Defs, CastOf;
    if |idx| == 2 {
      RootExactly(path, idx[0], x);
      RootExactly(path, idx[1], y);
    }
  }

  /** Both operand orders of a two-operand operation. */
  predicate Operands(op: Op, x: Var, y: Var) {
    op.Pure? && (op.args == [x, y] || op.args == [y, x])
  }

  function Memref(access: Op): Var {
    if access.Load? || access.Store? then access.m else 0
  }

  lemma ValsPair(env: Env, idx: seq<Var>)
    requires |idx| == 2
    ensures Vals(env, idx) == [Val(env, idx[0]), Val(env, idx[1])]
  {}

  lemma TwoOperands(f: Meaning, op: Op, x: Var, y: Var, env: Env)
    requires op.Pure? && Operands(op, x, y) && Commutes(f, op.f)
    ensures f(op.f, Vals(env, op.args)) == f(op.f, [Val(env, x), Val(env, y)])
  {
    assert Vals(env, [x, y]) == [Val(env, x), Val(env, y)];
    assert Vals(env, [y, x]) == [Val(env, y), Val(env, x)];
  }

  /** How the matchers sort operations. */
  datatype Class = Quiet | LoadOp | MulOp | AddOp | MaxOp | StoreOp | OtherOp

  function ClassOf(op: Op): Class {
    if Noise(op) then Quiet
    else if op.Load? then LoadOp
    else if op.Store? then StoreOp
    else if Kind(op, MULF) then MulOp
    else if Kind(op, ADDF) then AddOp
    else if Kind(op, MAXIMUMF) then MaxOp
    else OtherOp
  }

  /** The operations of a class, in order. */
  function Of(ops: seq<Op>, c: Class): seq<Op> {
    if ops == [] then []
    else Of(ops[..|ops| - 1], c) + if ClassOf(ops[|ops| - 1]) == c then [ops[|ops| - 1]] else []
  }

  lemma {:induction false} OfIn(ops: seq<Op>, c: Class)
    ensures forall op :: op in Of(ops, c) <==> op in ops && ClassOf(op) == c
    decreases |ops|
  {
    if ops != [] {
      var before := ops[..|ops| - 1];
      OfIn(before, c);
      assert forall op :: op in ops <==> op in before || op == ops[|ops| - 1];
    }
  }

  lemma OfNext(ops: seq<Op>, n: nat, c: Class)
    requires n < |ops|
    ensures Of(ops[..n + 1], c) == Of(ops[..n], c) + if ClassOf(ops[n]) == c then [ops[n]] else []
  {
    assert ops[..n + 1][..n] == ops[..n];
  }

  lemma {:induction false} OfPrefix(ops: seq<Op>, n: nat, c: Class)
    requires n <= |ops|
    ensures |Of(ops[..n], c)| <= |Of(ops, c)|
    decreases |ops| - n
  {
    if n < |ops| {
      OfNext(ops, n, c);
      OfPrefix(ops, n + 1, c);
    } else {
      assert ops[..n] == ops;
    }
  }

  /** Two positions of a class make two operations of it. */
  lemma OfTwice(ops: seq<Op>, i: nat, j: nat, c: Class)
    requires i < j < |ops| && ClassOf(ops[i]) == c && ClassOf(ops[j]) == c
    ensures |Of(ops, c)| >= 2
  {
    OfNext(ops, j, c);
    OfPrefix(ops, j + 1, c);
    OfIn(ops[..j], c);
    assert ops[..j][i] in Of(ops[..j], c);
  }

  lemma ClassIs(op: Op)
    ensures ClassOf(op) == Quiet ==> op.Pure?
    ensures ClassOf(op) == LoadOp <==> op.Load?
    ensures ClassOf(op) == StoreOp <==> op.Store?
    ensures ClassOf(op) == MulOp <==> Kind(op, MULF)
    ensures ClassOf(op) == AddOp <==> Kind(op, ADDF)
    ensures ClassOf(op) == MaxOp <==> Kind(op, MAXIMUMF)
  {}

  // ----- what sorting says, operation by operation

  /** An index cast, a dimension, a poison value or a constant. */
  ghost predicate Silent(op: Op) {
    op.Pure? && (op.f in {INDEX_CAST, DIM, POISON, POS_ZERO, NEG_ZERO} || op.f >= 100)
  }

  /** The loop at position n of a block that is otherwise silent. */
  ghost predicate LoneLoop(block: seq<Op>, n: nat) {
    n < |block| && block[n].For? && forall i :: 0 <= i < |block| && i != n ==> Silent(block[i])
  }

  /** Every operation occurs among those of its class as often as in the code. */
  lemma {:induction false} OfCounts(ops: seq<Op>, c: Class, op: Op)
    ensures multiset(Of(ops, c))[op] == if ClassOf(op) == c then multiset(ops)[op] else 0
    decreases |ops|
  {
    hide ClassOf;
    if ops != [] {
      OfCounts(ops[..|ops| - 1], c, op);
      assert ops == ops[..|ops| - 1] + [ops[|ops| - 1]];
    }
  }

  /** The operations of a class are exactly those of a set when each of the set occurs once and no
      other operation is of the class. */
  lemma OfThose(ops: seq<Op>, c: Class, those: set<Op>)
    ensures |Of(ops, c)| == |those| && (forall op :: op in those ==> op in Of(ops, c)) <==>
      && (forall op :: op in those ==> ClassOf(op) == c && multiset(ops)[op] == 1)
      && (forall op :: op in ops && ClassOf(op) == c ==> op in those)
  {
    hide Of, ClassOf;
    var part := Of(ops, c);
    OfIn(ops, c);
    forall op { OfCounts(ops, c, op); }
    if |part| == |those| && forall op :: op in those ==> op in part {
      var rest := multiset(part) - multiset(those);
      assert multiset(part) == multiset(those) + rest;
      assert |rest| == 0;
      forall op | op in those
        ensures multiset(ops)[op] == 1
      {
        assert multiset(part)[op] == 1;
      }
      forall op | op in ops && ClassOf(op) == c
        ensures op in those
      {
        assert op in multiset(part);
      }
    }
    if (forall op :: op in those ==> ClassOf(op) == c && multiset(ops)[op] == 1)
      && (forall op :: op in ops && ClassOf(op) == c ==> op in those)
    {
      forall op
        ensures multiset(part)[op] == multiset(those)[op]
      {
        if op !in those { assert op in part ==> op in ops && ClassOf(op) == c; }
      }
      assert multiset(part) == multiset(those);
      assert |part| == |multiset(part)|;
    }
  }

  lemma OfOne(ops: seq<Op>, c: Class, op: Op)
    ensures Of(ops, c) == [op] <==>
      ClassOf(op) == c && multiset(ops)[op] == 1 && forall o :: o in ops && ClassOf(o) == c ==> o == op
  {
    hide Of, ClassOf;
    OfThose(ops, c, {op});
    assert op in {op};
    assert Of(ops, c) == [op] <==> |Of(ops, c)| == 1 && op in Of(ops, c);
  }

  lemma SilentExactly(op: Op)
    ensures Silent(op) <==> Noise(op)
    ensures Silent(op) <==> ClassOf(op) == Quiet
  {}

  lemma OfNone(ops: seq<Op>, c: Class)
    ensures Of(ops, c) == [] <==> forall o :: o in ops ==> ClassOf(o) != c
  {
    hide Of, ClassOf;
    OfIn(ops, c);
    if Of(ops, c) != [] { assert Of(ops, c)[0] in Of(ops, c); }
  }

  predicate Reads(op: Op, x: Var) {
    (op.Store? && op.src == x) || (op.Pure? && x in op.args)
  }

  lemma Dominates(body: seq<Op>, user: nat, def: nat)
    requires Straight(body) && user < |body| && def < |body|
    requires (body[def].Pure? || body[def].Load?) && Reads(body[user], body[def].dst)
    ensures def < user
  {
    var x := body[def].dst;
    assert x in OpUses(body[user]) && x in OpDefs(body[def]);
  }

  // ----- collecting

  function Listed(x: Option<Op>): seq<Op> {
    if x.Some? then [x.value] else []
  }

  /** Collecting one more operation. */
  lemma CollectedNext(body: seq<Op>, i: nat)
    requires i < |body|
    ensures forall c :: Of(body[..i + 1], c) == Of(body[..i], c) + if ClassOf(body[i]) == c then [body[i]] else []
  {
    forall c: Class
      ensures Of(body[..i + 1], c) == Of(body[..i], c) + if ClassOf(body[i]) == c then [body[i]] else []
    {
      OfNext(body, i, c);
    }
  }

  lemma NoiseIsQuiet(op: Op)
    ensures Noise(op) <==> ClassOf(op) == Quiet
  {}

  // ----- the only loop of a block

  ghost predicate OnlyLoopAt(block: seq<Op>, n: nat) {
    n < |block| && block[n].For? && forall i :: 0 <= i < |block| && i != n ==> Noise(block[i])
  }

  lemma LoneLoopExactly(block: seq<Op>, n: nat)
    ensures LoneLoop(block, n) <==> OnlyLoopAt(block, n)
  {
    hide Silent, Noise;
    forall op { SilentExactly(op); }
  }

  method SingleInnerLoop(block: seq<Op>) returns (r: Option<nat>)
    ensures r.Some? ==> OnlyLoopAt(block, r.value)
    ensures r.None? ==> forall n: nat :: !OnlyLoopAt(block, n)
  {
    r := None;
    for i := 0 to |block|
      invariant r.Some? ==> r.value < i && block[r.value].For?
      invariant r.Some? ==> forall j :: 0 <= j < i && j != r.value ==> Noise(block[j])
      invariant r.None? ==> forall j :: 0 <= j < i ==> Noise(block[j])
    {
      if block[i].For? {
        if r.Some? { return None; }
        r := Some(i);
      } else if !Noise(block[i]) {
        return None;
      }
    }
  }

  /** The names after some noise: it does not look at memory. */
  function NoiseEnv(f: Meaning, ops: seq<Op>, env: Env): Env {
    Run(f, ops, env, map[]).env
  }

  lemma {:induction false} NoiseRuns(f: Meaning, ops: seq<Op>, env: Env, h: Heap)
    requires forall op :: op in ops ==> Noise(op)
    ensures Run(f, ops, env, h).heap == h && Run(f, ops, env, h).env == NoiseEnv(f, ops, env)
    decreases |ops|
  {
    if ops != [] {
      assert Noise(ops[0]);
      var e := RunOp(f, ops[0], env, h).env;
      assert RunOp(f, ops[0], env, map[]) == Result(e, map[], {}, {});
      NoiseRuns(f, ops[1..], e, h);
    }
  }

  lemma StraightConcat(p: seq<Op>, q: seq<Op>)
    requires Straight(p + q)
    ensures Straight(p) && Straight(q) && Defs(p) !! Defs(q)
  {
    var pq := p + q;
    NamesAt(p);
    NamesAt(q);
    assert forall op :: op in p || op in q ==> op in pq;
    assert forall i :: 0 <= i < |p| ==> p[i] == pq[i];
    assert forall i :: 0 <= i < |q| ==> q[i] == pq[|p| + i];
    forall x | x in Defs(p)
      ensures x !in Defs(q)
    {
      var i :| 0 <= i < |p| && x in OpDefs(p[i]);
      forall j | 0 <= j < |q|
        ensures x !in OpDefs(q[j])
      {
        assert OpDefs(pq[i]) !! OpDefs(pq[|p| + j]);
      }
    }
  }

  /** Following a root back through the last part of a path. */
  lemma StageValue(f: Meaning, before: seq<Op>, ops: seq<Op>, env: Env, h: Heap, y: Var, iv: Var)
    requires Straight(before + ops) && CastsKeep(f) && iv !in Defs(before + ops) && Root(before + ops, y) == iv
    ensures Root(before, Root(ops, y)) == iv && Straight(before) && iv !in Defs(before)
    ensures Root(ops, y) != iv ==> iv in Uses(before)
    ensures 0 <= Val(env, Root(ops, y)) < 0x8000_0000 ==> Val(Run(f, ops, env, h).env, y) == Val(env, Root(ops, y))
  {
    hide Straight, Root, Defs, Uses, Run;
    var z := Root(ops, y);
    RootConcat(before, ops, y);
    StraightConcat(before, ops);
    NamesConcat(before, ops);
    if z != iv { RootMoves(before, z); }
    if 0 <= Val(env, z) < 0x8000_0000 { RootValue(f, ops, env, h, y); }
  }

  lemma RootNothing(y: Var)
    ensures Root([], y) == y
  {}

  lemma NoiseEnvIs(f: Meaning, ops: seq<Op>, env: Env)
    ensures Run(f, ops, env, map[]).env == NoiseEnv(f, ops, env)
  {}

  /** A name that is not defined by some code is its own root. */
  lemma BackAtIv(ops: seq<Op>, y: Var, other: Var, iv: Var)
    requires Root(ops, y) == iv && other !in Defs(ops) && other != iv
    ensures y != other
  {
    if Root(ops, other) != other { RootMoves(ops, other); }
  }

  /** A block with a single loop runs its noise and that loop. */
  lemma BlockRuns(f: Meaning, block: seq<Op>, n: nat, env: Env, h: Heap)
    requires OnlyLoopAt(block, n)
    ensures Run(f, block, env, h).heap == RunOp(f, block[n], NoiseEnv(f, block[..n], env), h).heap
  {
    var p, q := block[..n], block[n + 1..];
    assert block == p + ([block[n]] + q);
    var e := NoiseEnv(f, p, env);
    hide Run;
    NoiseRuns(f, p, env, h);
    RunConcat(f, p, [block[n]] + q, env, h);
    RunConcat(f, [block[n]], q, e, h);
    RunOne(f, block[n], e, h);
    var r := RunOp(f, block[n], e, h);
    NoiseRuns(f, q, r.env, r.heap);
  }

  // ----- what loops visit

  /** The values of an induction variable: lo, lo + step, ... below hi. */
  datatype Span = Span(lo: int, hi: int, step: int) {
    predicate Visits(i: int) { step > 0 && lo <= i < hi && (i - lo) % step == 0 }

    /** The loop counter can get to i. */
    predicate Reaches(i: int) { step > 0 ==> lo <= i && (i - lo) % step == 0 }

    /** The loop ends at i. */
    predicate Over(i: int) { step <= 0 || i >= hi }
  }

  lemma NextVisit(d: Span, i: int)
    requires d.Visits(i)
    ensures d.Reaches(i + d.step) && forall j :: i < j < i + d.step ==> !d.Visits(j)
  {
    SumMod(i - d.lo, d.step, d.step);
    forall j | i < j < i + d.step
      ensures !d.Visits(j)
    {
      if d.Visits(j) { MultipleGap(i - d.lo, j - d.lo, d.step); }
    }
  }

  /** The elements two nested loops visit: the inner bounds may depend on the outer variable. */
  datatype Area = Area(rows: Span, cols: int -> Span) {
    predicate Visits(r: int, c: int) { rows.Visits(r) && cols(r).Visits(c) }

    /** Visited before (i, j). */
    predicate Before(i: int, j: int, r: int, c: int) { Visits(r, c) && (r < i || (r == i && c < j)) }
  }

  predicate IsElement(m: Var, a: Addr) { a.m == m && |a.at| == 2 }

  /** Every element of m visited before (i, j) has its final value, and nothing else changed. */
  ghost predicate FilledTo(m: Var, area: Area, fin: (int, int) -> int, h0: Heap, i: int, j: int, h: Heap) {
    forall a :: At(h, a) ==
      if IsElement(m, a) && area.Before(i, j, a.at[0], a.at[1]) then fin(a.at[0], a.at[1]) else At(h0, a)
  }

  /** Every element of m that is visited has its final value, and nothing else changed. */
  ghost predicate FilledAll(m: Var, area: Area, fin: (int, int) -> int, h0: Heap, h: Heap) {
    forall a :: At(h, a) ==
      if IsElement(m, a) && area.Visits(a.at[0], a.at[1]) then fin(a.at[0], a.at[1]) else At(h0, a)
  }

  lemma FilledStart(m: Var, area: Area, fin: (int, int) -> int, h: Heap)
    ensures FilledTo(m, area, fin, h, area.rows.lo, area.cols(area.rows.lo).lo, h)
  {}

  /** After the visit of (i, j). */
  lemma FilledNext(m: Var, area: Area, fin: (int, int) -> int, h0: Heap, i: int, j: int, h: Heap, h': Heap)
    requires FilledTo(m, area, fin, h0, i, j, h) && area.Visits(i, j)
    requires forall a :: At(h', a) == if a == Addr(m, [i, j]) then fin(i, j) else At(h, a)
    ensures FilledTo(m, area, fin, h0, i, j + area.cols(i).step, h')
  {
    NextVisit(area.cols(i), j);
    var j' := j + area.cols(i).step;
    forall a
      ensures At(h', a) ==
        if IsElement(m, a) && area.Before(i, j', a.at[0], a.at[1]) then fin(a.at[0], a.at[1]) else At(h0, a)
    {
      assert IsElement(m, a) && a.at[0] == i && a.at[1] == j ==> a.at == [i, j];
      assert At(h, a) ==
        if IsElement(m, a) && area.Before(i, j, a.at[0], a.at[1]) then fin(a.at[0], a.at[1]) else At(h0, a);
    }
  }

  lemma FilledStore(m: Var, area: Area, fin: (int, int) -> int, h0: Heap, i: int, j: int, h: Heap, v: int)
    requires FilledTo(m, area, fin, h0, i, j, h) && area.Visits(i, j) && v == fin(i, j)
    ensures FilledTo(m, area, fin, h0, i, j + area.cols(i).step, h[Addr(m, [i, j]) := v])
  {
    hide FilledTo, Area.Visits;
    FilledNext(m, area, fin, h0, i, j, h, h[Addr(m, [i, j]) := v]);
  }

  /** After row i. */
  lemma FilledRow(m: Var, area: Area, fin: (int, int) -> int, h0: Heap, i: int, j: int, h: Heap)
    requires FilledTo(m, area, fin, h0, i, j, h) && area.rows.Visits(i) && area.cols(i).Over(j)
    ensures var i' := i + area.rows.step; FilledTo(m, area, fin, h0, i', area.cols(i').lo, h)
  {
    NextVisit(area.rows, i);
    var i' := i + area.rows.step;
    var j' := area.cols(i').lo;
    forall r, c
      ensures area.Before(i', j', r, c) <==> area.Before(i, j, r, c)
    {}
    forall a
      ensures At(h, a) ==
        if IsElement(m, a) && area.Before(i', j', a.at[0], a.at[1]) then fin(a.at[0], a.at[1]) else At(h0, a)
    {
      assert IsElement(m, a) ==> (area.Before(i', j', a.at[0], a.at[1]) <==> area.Before(i, j, a.at[0], a.at[1]));
    }
  }

  lemma FilledAt(m: Var, area: Area, fin: (int, int) -> int, h0: Heap, h: Heap, a: Addr)
    requires FilledAll(m, area, fin, h0, h)
    ensures At(h, a) ==
      if IsElement(m, a) && area.Visits(a.at[0], a.at[1]) then fin(a.at[0], a.at[1]) else At(h0, a)
  {}

  lemma FilledEnd(m: Var, area: Area, fin: (int, int) -> int, h0: Heap, i: int, j: int, h: Heap)
    requires FilledTo(m, area, fin, h0, i, j, h) && area.rows.Over(i)
    ensures FilledAll(m, area, fin, h0, h)
  {
    forall a
      ensures At(h, a) ==
        if IsElement(m, a) && area.Visits(a.at[0], a.at[1]) then fin(a.at[0], a.at[1]) else At(h0, a)
    {
      assert IsElement(m, a) ==> (area.Before(i, j, a.at[0], a.at[1]) <==> area.Visits(a.at[0], a.at[1]));
    }
  }

  // ----- changing the arithmetic

  predicate IsArithmetic(k: nat) { k == ADDF || k == MULF || k == MAXIMUMF }

  ghost predicate AgreeButArithmetic(f: Meaning, f': Meaning) {
    forall k, xs :: !IsArithmetic(k) ==> f'(k, xs) == f(k, xs)
  }

  /** Noise does not look at floating-point meaning. */
  lemma {:induction false} NoiseMeaning(f: Meaning, f': Meaning, ops: seq<Op>, env: Env)
    requires (forall op :: op in ops ==> Noise(op)) && AgreeButArithmetic(f, f')
    ensures NoiseEnv(f, ops, env) == NoiseEnv(f', ops, env)
    decreases |ops|
  {
    if ops != [] {
      assert Noise(ops[0]);
      var e := RunOp(f, ops[0], env, map[]).env;
      NoiseMeaning(f, f', ops[1..], e);
      assert RunOp(f, ops[0], env, map[]) == Result(e, map[], {}, {}) == RunOp(f', ops[0], env, map[]);
    }
  }

  // ----- the GEMM operation

  datatype GemmOp = GemmOp(A: Var, B: Var, C: Var, bias: Option<Var>, relu: bool)

  /** Floating-point operations of the IR as the arithmetic of the GEMM. */
  function ArithOf(f: Meaning): Arith {
    Arith((x: Elem, y: Elem) => Elem(f(ADDF, [x.code, y.code])),
          (x: Elem, y: Elem) => Elem(f(MULF, [x.code, y.code])),
          (x: Elem, y: Elem) => Elem(f(MAXIMUMF, [x.code, y.code])),
          Elem(f(POS_ZERO, [])))
  }

  ghost predicate Commutes(f: Meaning, k: nat) {
    forall x, y :: f(k, [x, y]) == f(k, [y, x])
  }

  function Element(h: Heap, m: Var, at: seq<int>): Elem { Elem(At(h, Addr(m, at))) }

  /** The global cells that the operands of g hold. */
  predicate HasCell(p: Problem, g: GemmOp, c: M.Cell) {
    match c
    case GA(i, j) => 0 <= i < p.M && 0 <= j < p.K
    case GB(i, j) => 0 <= i < p.K && 0 <= j < p.N
    case GC(i, j) => InC(p, i, j)
    case Bias(j) => 0 <= j < p.N && g.bias.Some?
    case _ => false
  }

  function CellIn(p: Problem, g: GemmOp, h: Heap, c: M.Cell): Elem {
    if !HasCell(p, g, c) then Elem(0)
    else match c
      case GA(i, j) => Element(h, g.A, [i, j])
      case GB(i, j) => Element(h, g.B, [i, j])
      case GC(i, j) => Element(h, g.C, [i, j])
      case Bias(j) => Element(h, g.bias.value, [j])
      case _ => Elem(0)
  }

  function Cells(p: Problem, g: GemmOp): set<M.Cell> {
    (set i: int, j: int | 0 <= i < p.M && 0 <= j < p.K :: M.GA(i, j)) +
    (set i: int, j: int | 0 <= i < p.K && 0 <= j < p.N :: M.GB(i, j)) +
    (set i: int, j: int | 0 <= i < p.M && 0 <= j < p.N :: M.GC(i, j)) +
    (set j: int | 0 <= j < p.N && g.bias.Some? :: M.Bias(j))
  }

  function Matrices(p: Problem, g: GemmOp, h: Heap): M.Mem {
    map c | c in Cells(p, g) :: CellIn(p, g, h, c)
  }

  lemma MatricesRead(p: Problem, g: GemmOp, h: Heap)
    ensures forall c :: Read(Matrices(p, g, h), c) == CellIn(p, g, h, c)
  {
    forall c
      ensures c in Cells(p, g) <==> HasCell(p, g, c)
    {}
    hide Cells;
  }

  predicate IsCellOfC(p: Problem, g: GemmOp, a: Addr) {
    a.m == g.C && |a.at| == 2 && InC(p, a.at[0], a.at[1])
  }

  /** What `g` does to the heap: the GEMM in C, and nothing else. */
  ghost predicate DoesGemm(p: Problem, g: GemmOp, h: Heap, h': Heap) {
    forall a :: At(h', a) ==
      if IsCellOfC(p, g, a) then Gemm(p, Matrices(p, g, h), a.at[0], a.at[1]).code else At(h, a)
  }

  /** In the matrices that is the GEMM every lowering computes, when C is not an operand too. */
  lemma DoesGemmIsGemm(p: Problem, g: GemmOp, h: Heap, h': Heap)
    requires g.C != g.A && g.C != g.B && DoesGemm(p, g, h, h')
    ensures IsGemmOf(p, Matrices(p, g, h), Matrices(p, g, h'))
  {
    hide Matrices, Gemm;
    MatricesRead(p, g, h);
    MatricesRead(p, g, h');
    forall c: M.Cell
      ensures CellIn(p, g, h', c) ==
        if c.GC? && InC(p, c.r, c.c) then Gemm(p, Matrices(p, g, h), c.r, c.c) else CellIn(p, g, h, c)
    {
      CellAfter(p, g, h, h', c);
    }
    hide CellIn;
  }

  lemma CellAfter(p: Problem, g: GemmOp, h: Heap, h': Heap, c: M.Cell)
    requires g.C != g.A && g.C != g.B && DoesGemm(p, g, h, h')
    ensures CellIn(p, g, h', c) ==
      if c.GC? && InC(p, c.r, c.c) then Gemm(p, Matrices(p, g, h), c.r, c.c) else CellIn(p, g, h, c)
  {
    hide Matrices, Gemm;
    match c
    case GC(i, j) => assert InC(p, i, j) ==> IsCellOfC(p, g, Addr(g.C, [i, j]));
    case GA(i, j) => assert !IsCellOfC(p, g, Addr(g.A, [i, j]));
    case GB(i, j) => assert !IsCellOfC(p, g, Addr(g.B, [i, j]));
    case Bias(j) => assert g.bias.Some? ==> !IsCellOfC(p, g, Addr(g.bias.value, [j]));
    case _ =>
  }
}
