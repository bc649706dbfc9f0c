/** A small loop IR in SSA form: pure operations, loads, stores and counted loops. */
module LoopIR {

  type Var = nat

  /** `For` has no results: it assigns its induction variable, and names defined in its body are
      not visible after it.  Memrefs are SSA values too, and distinct values do not alias. */
  datatype Op =
    | Pure(dst: Var, f: nat, args: seq<Var>)
    | Load(dst: Var, m: Var, idx: seq<Var>)
    | Store(src: Var, m: Var, idx: seq<Var>)
    | For(iv: Var, lo: Var, hi: Var, step: Var, body: seq<Op>)

  datatype Addr = Addr(m: Var, at: seq<int>)

  type Env = map<Var, int>
  type Heap = map<Addr, int>

  /** What pure operation f computes. */
  type Meaning = (nat, seq<int>) -> int

  function Val(env: Env, x: Var): int { if x in env then env[x] else 0 }
  function Vals(env: Env, xs: seq<Var>): seq<int> { seq(|xs|, i requires 0 <= i < |xs| => Val(env, xs[i])) }
  function At(h: Heap, a: Addr): int { if a in h then h[a] else 0 }

  /** The outcome of running code: names, heap, and the addresses it read and wrote. */
  datatype Result = Result(env: Env, heap: Heap, loaded: set<Addr>, stored: set<Addr>)

  function Run(f: Meaning, ops: seq<Op>, env: Env, h: Heap): Result
    decreases ops, 0
  {
    if ops == [] then Result(env, h, {}, {})
    else
      var r := RunOp(f, ops[0], env, h);
      var s := Run(f, ops[1..], r.env, r.heap);
      Result(s.env, s.heap, r.loaded + s.loaded, r.stored + s.stored)
  }

  function RunOp(f: Meaning, op: Op, env: Env, h: Heap): Result
    decreases op, 0
  {
    match op
    case Pure(d, k, args) => Result(env[d := f(k, Vals(env, args))], h, {}, {})
    case Load(d, m, idx) =>
      var a := Addr(m, Vals(env, idx));
      Result(env[d := At(h, a)], h, {a}, {})
    case Store(x, m, idx) =>
      var a := Addr(m, Vals(env, idx));
      Result(env, h[a := Val(env, x)], {}, {a})
    case For(iv, lo, hi, step, body) =>
      Loop(f, iv, Val(env, lo), Val(env, hi), Val(env, step), body, env, h).(env := env)
  }

  /** Iterations i, i + step, ... below hi.  A step that is not positive runs nothing. */
  function Loop(f: Meaning, iv: Var, i: int, hi: int, step: int, body: seq<Op>, env: Env, h: Heap): Result
    decreases body, 1 + if hi > i then hi - i else 0
  {
    if i >= hi || step <= 0 then Result(env, h, {}, {})
    else
      var r := Run(f, body, env[iv := i], h);
      var s := Loop(f, iv, i + step, hi, step, body, env, r.heap);
      Result(s.env, s.heap, r.loaded + s.loaded, r.stored + s.stored)
  }

  // ----- names

  /** Names an operation defines, at any depth. */
  function Defs(ops: seq<Op>): set<Var>
    decreases ops, 0
  {
    if ops == [] then {} else OpDefs(ops[0]) + Defs(ops[1..])
  }

  function OpDefs(op: Op): set<Var>
    decreases op, 0
  {
    match op
    case Pure(d, _, _) => {d}
    case Load(d, _, _) => {d}
    case Store(_, _, _) => {}
    case For(iv, _, _, _, body) => {iv} + Defs(body)
  }

  /** Names an operation mentions as operands, at any depth. */
  function Uses(ops: seq<Op>): set<Var>
    decreases ops, 0
  {
    if ops == [] then {} else OpUses(ops[0]) + Uses(ops[1..])
  }

  function OpUses(op: Op): set<Var>
    decreases op, 0
  {
    match op
    case Pure(_, _, args) => set x | x in args
    case Load(_, _, idx) => set x | x in idx
    case Store(x, _, idx) => {x} + set y | y in idx
    case For(_, lo, hi, step, body) => {lo, hi, step} + Uses(body)
  }

  function Rename(x: Var, from: Var, to: Var): Var { if x == from then to else x }

  function RenameAll(xs: seq<Var>, from: Var, to: Var): seq<Var> {
    seq(|xs|, i requires 0 <= i < |xs| => Rename(xs[i], from, to))
  }

  /** `replaceAllUsesWith`: operands are renamed, definitions are not. */
  function RenameUses(ops: seq<Op>, from: Var, to: Var): seq<Op>
    decreases ops, 0
  {
    if ops == [] then [] else [RenameOp(ops[0], from, to)] + RenameUses(ops[1..], from, to)
  }

  function RenameOp(op: Op, from: Var, to: Var): Op
    decreases op, 0
  {
    match op
    case Pure(d, k, args) => Pure(d, k, RenameAll(args, from, to))
    case Load(d, m, idx) => Load(d, m, RenameAll(idx, from, to))
    case Store(x, m, idx) => Store(Rename(x, from, to), m, RenameAll(idx, from, to))
    case For(iv, lo, hi, step, body) =>
      For(iv, Rename(lo, from, to), Rename(hi, from, to), Rename(step, from, to), RenameUses(body, from, to))
  }

  /** `e2` names under `x` what `e1` names under the renaming of `x`. */
  ghost predicate Agree(uses: set<Var>, from: Var, to: Var, e1: Env, e2: Env) {
    forall x :: x in uses ==> Val(e2, x) == Val(e1, Rename(x, from, to))
  }

  ghost predicate SameEffect(r1: Result, r2: Result) {
    r1.heap == r2.heap && r1.loaded == r2.loaded && r1.stored == r2.stored
  }

  /** Running renamed code in an environment that agrees does the same to memory, and leaves
      environments that still agree on any names not defined in between. */
  lemma {:induction false} RunRenamed(f: Meaning, ops: seq<Op>, from: Var, to: Var, e1: Env, e2: Env, h: Heap,
          more: set<Var>)
    requires from !in Defs(ops) && to !in Defs(ops) && Agree(Uses(ops) + more, from, to, e1, e2)
    ensures var r1, r2 := Run(f, RenameUses(ops, from, to), e1, h), Run(f, ops, e2, h);
      SameEffect(r1, r2) && Agree(more, from, to, r1.env, r2.env)
    decreases ops, 0
  {
    if ops != [] {
      var rest := ops[1..];
      assert RenameUses(ops, from, to)[1..] == RenameUses(rest, from, to);
      OpRenamed(f, ops[0], from, to, e1, e2, h, Uses(rest) + more);
      var r1, r2 := RunOp(f, RenameOp(ops[0], from, to), e1, h), RunOp(f, ops[0], e2, h);
      RunRenamed(f, rest, from, to, r1.env, r2.env, r1.heap, more);
    }
  }

  lemma ValsRenamed(xs: seq<Var>, from: Var, to: Var, e1: Env, e2: Env)
    requires forall x :: x in xs ==> Val(e2, x) == Val(e1, Rename(x, from, to))
    ensures Vals(e1, RenameAll(xs, from, to)) == Vals(e2, xs)
  {}

  lemma {:induction false} OpRenamed(f: Meaning, op: Op, from: Var, to: Var, e1: Env, e2: Env, h: Heap, more: set<Var>)
    requires from !in OpDefs(op) && to !in OpDefs(op) && Agree(OpUses(op) + more, from, to, e1, e2)
    ensures var r1, r2 := RunOp(f, RenameOp(op, from, to), e1, h), RunOp(f, op, e2, h);
      SameEffect(r1, r2) && Agree(more, from, to, r1.env, r2.env)
    decreases op, 0
  {
    match op
    case Pure(d, k, args) => ValsRenamed(args, from, to, e1, e2);
    case Load(d, m, idx) => ValsRenamed(idx, from, to, e1, e2);
    case Store(x, m, idx) => ValsRenamed(idx, from, to, e1, e2);
    case For(iv, lo, hi, step, body) =>
      assert lo in OpUses(op) && hi in OpUses(op) && step in OpUses(op);
      LoopRenamed(f, iv, Val(e2, lo), Val(e2, hi), Val(e2, step), body, from, to, e1, e2, h);
  }

  lemma {:induction false} LoopRenamed(f: Meaning, iv: Var, i: int, hi: int, step: int, body: seq<Op>, from: Var,
          to: Var, e1: Env, e2: Env, h: Heap)
    requires from !in Defs(body) && to !in Defs(body) && iv != from && iv != to && Agree(Uses(body), from, to, e1, e2)
    ensures SameEffect(Loop(f, iv, i, hi, step, RenameUses(body, from, to), e1, h),
      Loop(f, iv, i, hi, step, body, e2, h))
    decreases body, 1 + if hi > i then hi - i else 0
  {
    if i < hi && step > 0 {
      RunRenamed(f, body, from, to, e1[iv := i], e2[iv := i], h, {});
      var h' := Run(f, body, e2[iv := i], h).heap;
      LoopRenamed(f, iv, i + step, hi, step, body, from, to, e1, e2, h');
    }
  }

  lemma {:induction false} RenameSelf(ops: seq<Op>, x: Var)
    ensures RenameUses(ops, x, x) == ops
    decreases ops, 0
  {
    if ops != [] {
      RenameOpSelf(ops[0], x);
      RenameSelf(ops[1..], x);
    }
  }

  lemma {:induction false} RenameOpSelf(op: Op, x: Var)
    ensures RenameOp(op, x, x) == op
    decreases op, 0
  {
    if op.For? { RenameSelf(op.body, x); }
  }

  /** Code depends on its operands only. */
  lemma RunAgree(f: Meaning, ops: seq<Op>, e1: Env, e2: Env, h: Heap, more: set<Var>, unused: Var)
    requires unused !in Defs(ops) && forall x :: x in Uses(ops) + more ==> Val(e1, x) == Val(e2, x)
    ensures SameEffect(Run(f, ops, e1, h), Run(f, ops, e2, h))
    ensures forall x :: x in more ==> Val(Run(f, ops, e1, h).env, x) == Val(Run(f, ops, e2, h).env, x)
  {
    RenameSelf(ops, unused);
    assert Agree(Uses(ops) + more, unused, unused, e1, e2);
    RunRenamed(f, ops, unused, unused, e1, e2, h, more);
    assert forall x :: x in more ==> Rename(x, unused, unused) == x;
  }

  lemma {:induction false} RunConcat(f: Meaning, p: seq<Op>, q: seq<Op>, env: Env, h: Heap)
    ensures var r := Run(f, p, env, h);
      var s := Run(f, q, r.env, r.heap);
      Run(f, p + q, env, h) == Result(s.env, s.heap, r.loaded + s.loaded, r.stored + s.stored)
    decreases p
  {
    if p == [] {
      assert p + q == q;
    } else {
      assert (p + q)[1..] == p[1..] + q;
      var r := RunOp(f, p[0], env, h);
      RunConcat(f, p[1..], q, r.env, r.heap);
    }
  }

  lemma RunOne(f: Meaning, op: Op, env: Env, h: Heap)
    ensures Run(f, [op], env, h) == RunOp(f, op, env, h)
  {
    assert [op][1..] == [];
  }

  lemma {:induction false} EnvKept(f: Meaning, ops: seq<Op>, env: Env, h: Heap, x: Var)
    requires x !in Defs(ops)
    ensures Val(Run(f, ops, env, h).env, x) == Val(env, x)
    decreases ops
  {
    if ops != [] {
      var r := RunOp(f, ops[0], env, h);
      EnvKept(f, ops[1..], r.env, r.heap, x);
    }
  }

  /** Names of code are the names of its parts. */
  lemma {:induction false} NamesConcat(p: seq<Op>, q: seq<Op>)
    ensures Defs(p + q) == Defs(p) + Defs(q) && Uses(p + q) == Uses(p) + Uses(q)
    decreases |p|
  {
    if p == [] {
      assert p + q == q;
    } else {
      assert (p + q)[1..] == p[1..] + q;
      NamesConcat(p[1..], q);
    }
  }

  lemma {:induction false} NamesAt(ops: seq<Op>)
    ensures forall x :: x in Defs(ops) <==> exists i :: 0 <= i < |ops| && x in OpDefs(ops[i])
    ensures forall x :: x in Uses(ops) <==> exists i :: 0 <= i < |ops| && x in OpUses(ops[i])
    decreases |ops|
  {
    if ops != [] {
      NamesAt(ops[1..]);
      forall x ensures x in Defs(ops) <==> exists i :: 0 <= i < |ops| && x in OpDefs(ops[i]) {
        if x in Defs(ops[1..]) {
          var i :| 0 <= i < |ops[1..]| && x in OpDefs(ops[1..][i]);
          assert x in OpDefs(ops[i + 1]);
        }
        if i :| 0 <= i < |ops| && x in OpDefs(ops[i]) {
          if i > 0 { assert ops[i] == ops[1..][i - 1]; }
        }
      }
      forall x ensures x in Uses(ops) <==> exists i :: 0 <= i < |ops| && x in OpUses(ops[i]) {
        if x in Uses(ops[1..]) {
          var i :| 0 <= i < |ops[1..]| && x in OpUses(ops[1..][i]);
          assert x in OpUses(ops[i + 1]);
        }
        if i :| 0 <= i < |ops| && x in OpUses(ops[i]) {
          if i > 0 { assert ops[i] == ops[1..][i - 1]; }
        }
      }
    }
  }

  /** The operation is one of these, or inside one of their loops, at any depth. */
  predicate Within(op: Op, ops: seq<Op>)
    decreases ops
  {
    exists i :: 0 <= i < |ops| && (ops[i] == op || (ops[i].For? && Within(op, ops[i].body)))
  }

  predicate Defines(op: Op, x: Var) {
    match op
    case Pure(d, _, _) => d == x
    case Load(d, _, _) => d == x
    case Store(_, _, _) => false
    case For(iv, _, _, _, _) => iv == x
  }

  predicate Mentions(op: Op, x: Var) {
    match op
    case Pure(_, _, args) => x in args
    case Load(_, _, idx) => x in idx
    case Store(v, _, idx) => x == v || x in idx
    case For(_, lo, hi, step, _) => x == lo || x == hi || x == step
  }

  /** The names of code are those that some operation, at some depth, defines or mentions. */
  lemma {:induction false} NamesExactly(ops: seq<Op>, x: Var)
    ensures x in Defs(ops) <==> exists op :: Within(op, ops) && Defines(op, x)
    ensures x in Uses(ops) <==> exists op :: Within(op, ops) && Mentions(op, x)
    decreases ops
  {
    NamesAt(ops);
    forall i | 0 <= i < |ops| && ops[i].For? { NamesExactly(ops[i].body, x); }
    if i :| 0 <= i < |ops| && x in OpDefs(ops[i]) {
      if Defines(ops[i], x) {
        assert Within(ops[i], ops);
      } else {
        var op :| Within(op, ops[i].body) && Defines(op, x);
        assert Within(op, ops);
      }
    }
    if i :| 0 <= i < |ops| && x in OpUses(ops[i]) {
      if Mentions(ops[i], x) {
        assert Within(ops[i], ops);
      } else {
        var op :| Within(op, ops[i].body) && Mentions(op, x);
        assert Within(op, ops);
      }
    }
  }

  // ----- locality

  /** Two heaps with the same contents. */
  ghost predicate Same(h: Heap, h': Heap) {
    forall a :: At(h, a) == At(h', a)
  }

  ghost predicate SameOn(s: set<Addr>, h: Heap, h': Heap) {
    forall a :: a in s ==> At(h, a) == At(h', a)
  }

  /** `r` changed nothing outside what it wrote. */
  ghost predicate Framed(r: Result, h: Heap) {
    forall a :: a !in r.stored ==> At(r.heap, a) == At(h, a)
  }

  /** Two runs of the same code did the same thing: they agree wherever either touched memory. */
  ghost predicate SameRun(r: Result, r': Result) {
    && r.env == r'.env && r.loaded == r'.loaded && r.stored == r'.stored
    && SameOn(r.loaded + r.stored, r.heap, r'.heap)
  }

  /** Code changes only what it writes and depends only on the cells it touches. */
  lemma {:induction false} RunLocal(f: Meaning, ops: seq<Op>, env: Env, h: Heap, h': Heap)
    requires SameOn(Run(f, ops, env, h).loaded + Run(f, ops, env, h).stored, h, h')
    ensures SameRun(Run(f, ops, env, h), Run(f, ops, env, h'))
    ensures Framed(Run(f, ops, env, h), h) && Framed(Run(f, ops, env, h'), h')
    decreases ops, 0
  {
    if ops != [] {
      var r, r' := RunOp(f, ops[0], env, h), RunOp(f, ops[0], env, h');
      OpLocal(f, ops[0], env, h, h');
      var s := Run(f, ops[1..], r.env, r.heap);
      CarryOver(r, r', h, h', s.loaded + s.stored);
      RunLocal(f, ops[1..], r.env, r.heap, r'.heap);
      Chain(r, s, r', Run(f, ops[1..], r'.env, r'.heap));
    }
  }

  /** Heaps that agreed where the whole code touches them still agree where the rest does. */
  lemma CarryOver(r: Result, r': Result, h: Heap, h': Heap, rest: set<Addr>)
    requires SameRun(r, r') && Framed(r, h) && Framed(r', h') && SameOn(rest, h, h')
    ensures SameOn(rest, r.heap, r'.heap)
  {
    forall a | a in rest
      ensures At(r.heap, a) == At(r'.heap, a)
    {
      assert a in r.stored ==> a in r.loaded + r.stored;
    }
  }

  /** The second of two steps keeps the agreement of the first. */
  lemma Chain(r: Result, s: Result, r': Result, s': Result)
    requires SameRun(r, r') && SameRun(s, s') && Framed(s, r.heap) && Framed(s', r'.heap)
    ensures SameOn(r.loaded + s.loaded + (r.stored + s.stored), s.heap, s'.heap)
  {
    forall a | a in r.loaded + s.loaded + (r.stored + s.stored)
      ensures At(s.heap, a) == At(s'.heap, a)
    {
      if a in s.stored {
        assert a in s.loaded + s.stored;
      } else if a in s.loaded {
        assert a in s.loaded + s.stored;
      } else {
        assert a in r.loaded + r.stored;
      }
    }
  }

  lemma {:induction false} OpLocal(f: Meaning, op: Op, env: Env, h: Heap, h': Heap)
    requires SameOn(RunOp(f, op, env, h).loaded + RunOp(f, op, env, h).stored, h, h')
    ensures SameRun(RunOp(f, op, env, h), RunOp(f, op, env, h'))
    ensures Framed(RunOp(f, op, env, h), h) && Framed(RunOp(f, op, env, h'), h')
    decreases op, 0
  {
    match op
    case Pure(_, _, _) =>
    case Load(_, m, idx) => assert Addr(m, Vals(env, idx)) in RunOp(f, op, env, h).loaded + RunOp(f, op, env, h).stored;
    case Store(_, _, _) =>
    case For(iv, lo, hi, step, body) => LoopLocal(f, iv, Val(env, lo), Val(env, hi), Val(env, step), body, env, h, h');
  }

  lemma {:induction false} LoopLocal(f: Meaning, iv: Var, i: int, hi: int, step: int, body: seq<Op>, env: Env,
          h: Heap, h': Heap)
    requires var r := Loop(f, iv, i, hi, step, body, env, h); SameOn(r.loaded + r.stored, h, h')
    ensures SameRun(Loop(f, iv, i, hi, step, body, env, h), Loop(f, iv, i, hi, step, body, env, h'))
    ensures Framed(Loop(f, iv, i, hi, step, body, env, h), h) && Framed(Loop(f, iv, i, hi, step, body, env, h'), h')
    decreases body, 1 + if hi > i then hi - i else 0
  {
    if i < hi && step > 0 {
      var r, r' := Run(f, body, env[iv := i], h), Run(f, body, env[iv := i], h');
      var s := Loop(f, iv, i + step, hi, step, body, env, r.heap);
      RunLocal(f, body, env[iv := i], h, h');
      CarryOver(r, r', h, h', s.loaded + s.stored);
      LoopLocal(f, iv, i + step, hi, step, body, env, r.heap, r'.heap);
      Chain(r, s, r', Loop(f, iv, i + step, hi, step, body, env, r'.heap));
    }
  }

  lemma RunFrames(f: Meaning, ops: seq<Op>, env: Env, h: Heap)
    ensures Framed(Run(f, ops, env, h), h)
  {
    RunLocal(f, ops, env, h, h);
  }

  /** Equal heaps give equal heaps. */
  lemma RunSame(f: Meaning, ops: seq<Op>, env: Env, h: Heap, h': Heap)
    requires Same(h, h')
    ensures SameRun(Run(f, ops, env, h), Run(f, ops, env, h'))
      && Same(Run(f, ops, env, h).heap, Run(f, ops, env, h').heap)
  {
    RunLocal(f, ops, env, h, h');
    var r, r' := Run(f, ops, env, h), Run(f, ops, env, h');
    forall a ensures At(r.heap, a) == At(r'.heap, a) {
      assert a in r.stored ==> a in r.loaded + r.stored;
    }
  }

  lemma {:induction false} LoopSame(f: Meaning, iv: Var, i: int, hi: int, step: int, body: seq<Op>, env: Env, h: Heap,
          h': Heap)
    requires Same(h, h')
    ensures Same(Loop(f, iv, i, hi, step, body, env, h).heap, Loop(f, iv, i, hi, step, body, env, h').heap)
    decreases hi - i
  {
    if i < hi && step > 0 {
      RunSame(f, body, env[iv := i], h, h');
      LoopSame(f, iv, i + step, hi, step, body, env, Run(f, body, env[iv := i], h).heap,
          Run(f, body, env[iv := i], h').heap);
    }
  }
}
