/** Loop-invariant code motion: pure operations that depend on nothing in the loop move out. */
module Licm {
  import opened LoopIR

  /** A pure operation whose operands are neither the induction variable nor defined in the body. */
  predicate Invariant(op: Op, l: Op)
    requires l.For?
  {
    op.Pure? && forall x :: x in op.args ==> x != l.iv && x !in Defs(l.body)
  }

  /** Some operand is the induction variable, or is defined by an operation of the body at any depth. */
  ghost predicate DependsOn(op: Op, l: Op)
    requires l.For? && op.Pure?
  {
    exists x :: x in op.args && (x == l.iv || exists d :: Within(d, l.body) && Defines(d, x))
  }

  lemma InvariantExactly(op: Op, l: Op)
    requires l.For?
    ensures Invariant(op, l) <==> op.Pure? && !DependsOn(op, l)
  {
    hide Defs, Within, Defines;
    if op.Pure? {
      forall x | x in op.args { NamesExactly(l.body, x); }
    }
  }

  /** SSA form: names are defined once, before their uses, and bounds are defined outside. */
  ghost predicate Ssa(l: Op)
    requires l.For?
  {
    && l.iv !in Defs(l.body)
    && {l.lo, l.hi, l.step} !! Defs(l.body) + {l.iv}
    && (forall i, j :: 0 <= i < j < |l.body| ==> OpDefs(l.body[i]) !! OpDefs(l.body[j]))
    && (forall i, j :: 0 <= i < j < |l.body| ==> OpUses(l.body[i]) !! OpDefs(l.body[j]))
  }

  /** The loop without the operation at position n. */
  function Without(l: Op, n: nat): Op
    requires l.For? && n < |l.body|
  {
    l.(body := l.body[..n] + l.body[n + 1..])
  }

  /** What moving the operation at position n relies on. */
  ghost predicate Movable(l: Op, n: nat)
    requires l.For? && n < |l.body|
  {
    var p, op, q := l.body[..n], l.body[n], l.body[n + 1..];
    && Invariant(op, l)
    && Defs(l.body) == Defs(p) + {op.dst} + Defs(q)
    && op.dst !in Defs(p) + Defs(q) + Uses(p) + {l.iv, l.lo, l.hi, l.step}
  }

  lemma SplitAt(l: Op, n: nat)
    requires l.For? && n < |l.body|
    ensures var p, q := l.body[..n], l.body[n + 1..];
      && Defs(l.body) == Defs(p) + OpDefs(l.body[n]) + Defs(q)
      && Defs(Without(l, n).body) == Defs(p) + Defs(q)
      && l.body == p + [l.body[n]] + q
  {
    var p, q := l.body[..n], l.body[n + 1..];
    assert l.body == p + ([l.body[n]] + q);
    NamesConcat(p, [l.body[n]] + q);
    assert ([l.body[n]] + q)[1..] == q;
    NamesConcat(p, q);
  }

  lemma NotNamed(ops: seq<Op>, x: Var)
    ensures (forall i :: 0 <= i < |ops| ==> x !in OpDefs(ops[i])) ==> x !in Defs(ops)
    ensures (forall i :: 0 <= i < |ops| ==> x !in OpUses(ops[i])) ==> x !in Uses(ops)
  {
    hide OpDefs, OpUses;
    NamesAt(ops);
  }

  lemma InvariantMovable(l: Op, n: nat)
    requires l.For? && n < |l.body| && Ssa(l) && Invariant(l.body[n], l)
    ensures Movable(l, n)
  {
    var p, q, d := l.body[..n], l.body[n + 1..], l.body[n].dst;
    SplitAt(l, n);
    assert OpDefs(l.body[n]) == {d};
    hide Defs, Uses, OpDefs, OpUses;
    NotNamed(p, d);
    NotNamed(q, d);
    assert forall i :: 0 <= i < n ==> p[i] == l.body[i];
    assert forall i :: 0 <= i < |q| ==> q[i] == l.body[n + 1 + i];
  }

  lemma WithoutIsSsa(l: Op, n: nat)
    requires l.For? && n < |l.body| && Ssa(l)
    ensures Ssa(Without(l, n)) && Defs(Without(l, n).body) <= Defs(l.body)
  {
    hide Defs, OpDefs, OpUses;
    SplitAt(l, n);
    var b := Without(l, n).body;
    assert forall i :: 0 <= i < |b| ==> b[i] == if i < n then l.body[i] else l.body[i + 1];
  }

  /** The code in front of a pure operation does the same when the operation was done earlier,
      and both ways its result is the same afterwards. */
  lemma PrefixAgrees(f: Meaning, p: seq<Op>, op: Op, iv: Var, i: int, env: Env, h: Heap, more: set<Var>)
    requires op.Pure? && op.dst !in Defs(p) + Uses(p) + {iv}
    requires forall x :: x in op.args ==> x != iv && x !in Defs(p)
    ensures var r := Run(f, p, env[iv := i], h);
      var r' := Run(f, p, RunOp(f, op, env, h).env[iv := i], h);
      SameEffect(r, r') && forall x :: x in more ==> Val(RunOp(f, op, r.env, r.heap).env, x) == Val(r'.env, x)
  {
    var e, e' := env[iv := i], RunOp(f, op, env, h).env[iv := i];
    var r := Run(f, p, e, h);
    RunAgree(f, p, e, e', h, more - {op.dst}, op.dst);
    EnvKept(f, p, e', h, op.dst);
    forall x | x in op.args
      ensures Val(r.env, x) == Val(env, x)
    {
      EnvKept(f, p, e, h, x);
    }
    assert Vals(r.env, op.args) == Vals(env, op.args);
  }

  /** One iteration does the same with the operation already done outside. */
  lemma IterationWithout(f: Meaning, l: Op, n: nat, i: int, env: Env, h: Heap)
    requires l.For? && n < |l.body| && Movable(l, n)
    ensures var op := l.body[n];
      SameEffect(Run(f, l.body, env[l.iv := i], h), Run(f, Without(l, n).body, RunOp(f, op, env, h).env[l.iv := i], h))
  {
    var p, op, q := l.body[..n], l.body[n], l.body[n + 1..];
    PrefixAgrees(f, p, op, l.iv, i, env, h, Uses(q));
    Splice(f, p, op, q, env[l.iv := i], RunOp(f, op, env, h).env[l.iv := i], h);
    SplitAt(l, n);
  }

  lemma Splice(f: Meaning, p: seq<Op>, op: Op, q: seq<Op>, e: Env, e': Env, h: Heap)
    requires op.Pure? && op.dst !in Defs(q)
    requires var r, r' := Run(f, p, e, h), Run(f, p, e', h);
      SameEffect(r, r') && forall x :: x in Uses(q) ==> Val(RunOp(f, op, r.env, r.heap).env, x) == Val(r'.env, x)
    ensures SameEffect(Run(f, p + [op] + q, e, h), Run(f, p + q, e', h))
  {
    var r, r' := Run(f, p, e, h), Run(f, p, e', h);
    var s := RunOp(f, op, r.env, r.heap);
    RunAgree(f, q, s.env, r'.env, r.heap, {}, op.dst);
    RunOne(f, op, r.env, r.heap);
    hide Run, Defs, Uses;
    RunConcat(f, p, q, e', h);
    RunConcat(f, p + [op], q, e, h);
    RunConcat(f, p, [op], e, h);
  }

  lemma {:induction false} LoopWithout(f: Meaning, l: Op, n: nat, i: int, hi: int, step: int, env: Env, h: Heap)
    requires l.For? && n < |l.body| && Movable(l, n)
    ensures SameEffect(Loop(f, l.iv, i, hi, step, l.body, env, h),
                       Loop(f, l.iv, i, hi, step, Without(l, n).body, RunOp(f, l.body[n], env, h).env, h))
    decreases hi - i
  {
    if i < hi && step > 0 {
      IterationWithout(f, l, n, i, env, h);
      var h' := Run(f, l.body, env[l.iv := i], h).heap;
      assert RunOp(f, l.body[n], env, h').env == RunOp(f, l.body[n], env, h).env;
      LoopWithout(f, l, n, i + step, hi, step, env, h');
    }
  }

  /** Code with the same effect on memory that leaves equal names, except for those in `hidden`. */
  ghost predicate Equivalent(f: Meaning, hidden: set<Var>, p: seq<Op>, q: seq<Op>) {
    forall env: Env, h: Heap :: EqualExcept(hidden, Run(f, p, env, h), Run(f, q, env, h))
  }

  ghost predicate EqualExcept(hidden: set<Var>, r: Result, s: Result) {
    SameEffect(r, s) && forall x :: x !in hidden ==> Val(r.env, x) == Val(s.env, x)
  }

  /** Moving one invariant operation in front of the loop, whatever the trip count. */
  lemma HoistOne(f: Meaning, l: Op, n: nat)
    requires l.For? && n < |l.body| && Movable(l, n)
    ensures Equivalent(f, {l.body[n].dst}, [l], [l.body[n]] + [Without(l, n)])
  {
    var op, l' := l.body[n], Without(l, n);
    forall env: Env, h: Heap
      ensures EqualExcept({op.dst}, Run(f, [l], env, h), Run(f, [op] + [l'], env, h))
    {
      var e' := RunOp(f, op, env, h).env;
      LoopWithout(f, l, n, Val(env, l.lo), Val(env, l.hi), Val(env, l.step), env, h);
      hide Run, Loop, Defs, Uses;
      RunConcat(f, [op], [l'], env, h);
      RunOne(f, op, env, h);
      RunOne(f, l, env, h);
      RunOne(f, l', e', h);
    }
  }

  /** Replacing the end of a piece of code by equivalent code. */
  lemma ReplaceEnd(f: Meaning, hidden: set<Var>, all: seq<Op>, before: seq<Op>, p: seq<Op>, more: set<Var>, q: seq<Op>)
    requires Equivalent(f, hidden, all, before + p) && Equivalent(f, more, p, q)
    ensures Equivalent(f, hidden + more, all, before + q)
  {
    forall env: Env, h: Heap
      ensures EqualExcept(hidden + more, Run(f, all, env, h), Run(f, before + q, env, h))
    {
      hide Run;
      RunConcat(f, before, p, env, h);
      RunConcat(f, before, q, env, h);
      assert EqualExcept(hidden, Run(f, all, env, h), Run(f, before + p, env, h));
      var r := Run(f, before, env, h);
      assert EqualExcept(more, Run(f, p, r.env, r.heap), Run(f, q, r.env, r.heap));
    }
  }

  // ----- the pass

  /** Every hoisted operation comes after the operations that define its operands, and names are
      still defined once. */
  ghost predicate Ordered(hoisted: seq<Op>, l: Op)
    requires l.For?
  {
    forall n :: 0 <= n < |hoisted| ==>
      && hoisted[n].Pure? && OpUses(hoisted[n]) !! Defs(hoisted[n..]) + Defs(l.body) + {l.iv}
      && OpDefs(hoisted[n]) !! Defs(hoisted[n + 1..]) + Defs(l.body) + {l.iv}
  }

  lemma OrderedNext(hoisted: seq<Op>, l: Op, n: nat)
    requires l.For? && n < |l.body| && Ordered(hoisted, l) && Movable(l, n)
    ensures Ordered(hoisted + [l.body[n]], Without(l, n))
  {
    var op := l.body[n];
    SplitAt(l, n);
    var more := hoisted + [op];
    assert [op][1..] == [];
    forall m | 0 <= m < |more|
      ensures more[m].Pure? && OpUses(more[m]) !! Defs(more[m..]) + Defs(Without(l, n).body) + {l.iv}
      ensures OpDefs(more[m]) !! Defs(more[m + 1..]) + Defs(Without(l, n).body) + {l.iv}
    {
      if m < |hoisted| {
        assert more[m..] == hoisted[m..] + [op] && more[m + 1..] == hoisted[m + 1..] + [op];
        NamesConcat(hoisted[m..], [op]);
        NamesConcat(hoisted[m + 1..], [op]);
      } else {
        assert more[m..] == [op] && more[m + 1..] == [];
      }
    }
  }

  lemma HoistNext(f: Meaning, l0: Op, hoisted: seq<Op>, l: Op, n: nat)
    requires l0.For? && l.For? && n < |l.body| && Movable(l, n) && Defs(l.body) <= Defs(l0.body)
    requires Equivalent(f, Defs(l0.body), [l0], hoisted + [l])
    ensures Equivalent(f, Defs(l0.body), [l0], hoisted + [l.body[n]] + [Without(l, n)])
  {
    var op := l.body[n];
    HoistOne(f, l, n);
    hide Equivalent;
    ReplaceEnd(f, Defs(l0.body), [l0], hoisted, [l], {op.dst}, [op] + [Without(l, n)]);
    assert Defs(l0.body) + {op.dst} == Defs(l0.body);
    assert hoisted + ([op] + [Without(l, n)]) == hoisted + [op] + [Without(l, n)];
  }

  method IndexOf(ops: seq<Op>, op: Op) returns (n: nat)
    requires op in ops
    ensures n < |ops| && ops[n] == op
  {
    n := 0;
    while ops[n] != op
      invariant n < |ops| && op !in ops[..n]
      decreases |ops| - n
    {
      assert op in ops[n + 1..];
      n := n + 1;
    }
  }

  method Collect(l: Op) returns (toHoist: seq<Op>)
    requires l.For? && Ssa(l)
    ensures forall op :: op in toHoist <==> op in l.body && Invariant(op, l)
    ensures forall op :: op in toHoist <==> op in l.body && op.Pure? && !DependsOn(op, l)
    ensures forall i, j :: 0 <= i < j < |toHoist| ==> toHoist[i] != toHoist[j]
  {
    toHoist := [];
    for i := 0 to |l.body|
      invariant forall op :: op in toHoist <==> op in l.body[..i] && Invariant(op, l)
      invariant forall a, b :: 0 <= a < b < |toHoist| ==> toHoist[a] != toHoist[b]
    {
      if Invariant(l.body[i], l) {
        assert l.body[i].dst in OpDefs(l.body[i]);
        toHoist := toHoist + [l.body[i]];
      }
      assert l.body[..i + 1] == l.body[..i] + [l.body[i]];
    }
    assert l.body[..|l.body|] == l.body;
    hide Invariant, DependsOn;
    forall op: Op { InvariantExactly(op, l); }
  }

  /** What holds after any number of moves out of l0. */
  ghost predicate Moved(f: Meaning, l0: Op, hoisted: seq<Op>, l: Op)
    requires l0.For?
  {
    && l.For? && l == l0.(body := l.body)
    && Ssa(l) && Defs(l.body) <= Defs(l0.body)
    && multiset(hoisted) + multiset(l.body) == multiset(l0.body)
    && Ordered(hoisted, l)
    && Equivalent(f, Defs(l0.body), [l0], hoisted + [l])
  }

  lemma MoveKeeps(f: Meaning, l0: Op, hoisted: seq<Op>, l: Op, n: nat)
    requires l0.For? && Moved(f, l0, hoisted, l) && n < |l.body| && Invariant(l.body[n], l)
    ensures Moved(f, l0, hoisted + [l.body[n]], Without(l, n))
  {
    hide Equivalent, Ordered, Ssa, Movable, Defs, Invariant;
    InvariantMovable(l, n);
    WithoutIsSsa(l, n);
    OrderedNext(hoisted, l, n);
    HoistNext(f, l0, hoisted, l, n);
    SplitAt(l, n);
  }

  lemma NothingMoved(f: Meaning, l: Op)
    requires l.For? && Ssa(l)
    ensures Moved(f, l, [], l)
  {
    assert [] + [l] == [l];
  }

  /** The hoisting fixpoint of one loop.  Nothing is lost or duplicated, every pure operation left
      behind depends on the loop, and the program means the same. */
  method Hoist(l0: Op) returns (hoisted: seq<Op>, l: Op)
    requires l0.For? && Ssa(l0)
    ensures l.For? && forall f: Meaning :: Moved(f, l0, hoisted, l)
    ensures forall op :: op in l.body && op.Pure? ==> DependsOn(op, l)
  {
    hide Moved, Invariant, Ssa, DependsOn;
    hoisted, l := [], l0;
    forall f: Meaning ensures Moved(f, l0, [], l0) { NothingMoved(f, l0); }
    var changed := true;
    while changed
      invariant l.For? && Ssa(l) && forall f: Meaning :: Moved(f, l0, hoisted, l)
      invariant !changed ==> forall op :: op in l.body && op.Pure? ==> DependsOn(op, l)
      decreases |l.body|, changed
    {
      changed := false;
      var toHoist := Collect(l);
      ghost var was := l;
      for t := 0 to |toHoist|
        invariant l.For? && Ssa(l) && forall f: Meaning :: Moved(f, l0, hoisted, l)
        invariant forall u :: t <= u < |toHoist| ==> toHoist[u] in l.body && Invariant(toHoist[u], l)
        invariant changed <==> t > 0
        invariant if t == 0 then l == was else |l.body| < |was.body|
      {
        var n := IndexOf(l.body, toHoist[t]);
        forall f: Meaning
          ensures Moved(f, l0, hoisted + [l.body[n]], Without(l, n))
        {
          MoveKeeps(f, l0, hoisted, l, n);
        }
        WithoutIsSsa(l, n);
        WithoutBag(l, n);
        StillInvariant(l, n, toHoist, t);
        hoisted := hoisted + [l.body[n]];
        l := Without(l, n);
        changed := true;
      }
      assert !changed ==> toHoist == [];
    }
  }

  lemma WithoutBag(l: Op, n: nat)
    requires l.For? && n < |l.body|
    ensures multiset(Without(l, n).body) == multiset(l.body) - multiset{l.body[n]}
  {
    SplitAt(l, n);
  }

  lemma StillInvariant(l: Op, n: nat, toHoist: seq<Op>, t: nat)
    requires l.For? && n < |l.body| && t < |toHoist| && l.body[n] == toHoist[t]
    requires Defs(Without(l, n).body) <= Defs(l.body)
    requires multiset(Without(l, n).body) == multiset(l.body) - multiset{l.body[n]}
    requires forall i, j :: 0 <= i < j < |toHoist| ==> toHoist[i] != toHoist[j]
    requires forall u :: t <= u < |toHoist| ==> toHoist[u] in l.body && Invariant(toHoist[u], l)
    ensures forall u :: t < u < |toHoist| ==> toHoist[u] in Without(l, n).body && Invariant(toHoist[u], Without(l, n))
  {
    forall u | t < u < |toHoist|
      ensures toHoist[u] in Without(l, n).body
    {
      assert toHoist[t] != toHoist[u];
      assert toHoist[u] in multiset(l.body);
      assert toHoist[u] in multiset(Without(l, n).body);
    }
  }

  // ----- inside a program

  /** Hoisting inside a block whose later code does not see the loop's names. */
  lemma HoistInBlock(f: Meaning, l0: Op, hoisted: seq<Op>, l: Op, before: seq<Op>, after: seq<Op>, unused: Var)
    requires l0.For? && Moved(f, l0, hoisted, l)
    requires Defs(l0.body) !! Uses(after) && unused !in Defs(after)
    ensures Equivalent(f, Defs(l0.body), before + [l0] + after, before + (hoisted + [l]) + after)
  {
    var code := hoisted + [l];
    var hidden := Defs(l0.body);
    forall env: Env, h: Heap
      ensures EqualExcept(hidden, Run(f, before + [l0] + after, env, h), Run(f, before + code + after, env, h))
    {
      hide Run, Defs, Uses;
      var r := Run(f, before, env, h);
      var s, s' := Run(f, [l0], r.env, r.heap), Run(f, code, r.env, r.heap);
      assert EqualExcept(hidden, s, s');
      RunConcat(f, before, [l0], env, h);
      RunConcat(f, before, code, env, h);
      RunConcat(f, before + [l0], after, env, h);
      RunConcat(f, before + code, after, env, h);
      RunAgree(f, after, s.env, s'.env, s.heap, {}, unused);
      forall x | x !in hidden
        ensures Val(Run(f, after, s.env, s.heap).env, x) == Val(Run(f, after, s'.env, s'.heap).env, x)
      {
        RunAgree(f, after, s.env, s'.env, s.heap, {x}, unused);
      }
    }
  }

  lemma {:induction false} LoopBodies(f: Meaning, hidden: set<Var>, iv: Var, i: int, hi: int, step: int, p: seq<Op>,
          q: seq<Op>, env: Env, h: Heap)
    requires Equivalent(f, hidden, p, q)
    ensures SameEffect(Loop(f, iv, i, hi, step, p, env, h), Loop(f, iv, i, hi, step, q, env, h))
    decreases hi - i
  {
    if i < hi && step > 0 {
      assert EqualExcept(hidden, Run(f, p, env[iv := i], h), Run(f, q, env[iv := i], h));
      LoopBodies(f, hidden, iv, i + step, hi, step, p, q, env, Run(f, p, env[iv := i], h).heap);
    }
  }

  /** And so inside the body of an enclosing loop, where nothing is left to hide. */
  lemma HoistInLoop(f: Meaning, hidden: set<Var>, l: Op, body: seq<Op>)
    requires l.For? && Equivalent(f, hidden, l.body, body)
    ensures Equivalent(f, {}, [l], [l.(body := body)])
  {
    forall env: Env, h: Heap
      ensures EqualExcept({}, Run(f, [l], env, h), Run(f, [l.(body := body)], env, h))
    {
      hide Run, Loop, Defs, Uses;
      LoopBodies(f, hidden, l.iv, Val(env, l.lo), Val(env, l.hi), Val(env, l.step), l.body, body, env, h);
      RunOne(f, l, env, h);
      RunOne(f, l.(body := body), env, h);
    }
  }

  // ----- the whole pass

  /** SSA form at every depth: names are defined once, before their uses, and names of a loop are
      not used after it. */
  ghost predicate Program(ops: seq<Op>)
    decreases ops
  {
    && (forall i, j :: 0 <= i < j < |ops| ==> Follows(ops[i], ops[j]))
    && (forall i :: 0 <= i < |ops| && ops[i].For? ==>
          && ops[i].iv !in Defs(ops[i].body)
          && {ops[i].lo, ops[i].hi, ops[i].step} !! Defs(ops[i].body) + {ops[i].iv}
          && Program(ops[i].body))
  }

  ghost predicate Follows(op: Op, next: Op) {
    && OpDefs(op) !! OpDefs(next) && OpUses(op) !! OpDefs(next)
    && (op.For? ==> OpDefs(op) !! OpUses(next))
  }

  /** In every loop, at any depth, every pure operation depends on that loop. */
  ghost predicate Clean(ops: seq<Op>)
    decreases ops
  {
    forall i :: 0 <= i < |ops| && ops[i].For? ==>
      (forall op :: op in ops[i].body && op.Pure? ==> DependsOn(op, ops[i])) && Clean(ops[i].body)
  }

  /** Names of a block that are only visible inside its loops. */
  function Inner(ops: seq<Op>): set<Var> {
    if ops == [] then {}
    else Inner(ops[..|ops| - 1]) + if ops[|ops| - 1].For? then Defs(ops[|ops| - 1].body) else {}
  }

  /** The block in which `ops` ends up keeps its order and has no names of its own. */
  ghost predicate Tidy(ops: seq<Op>, r: seq<Op>) {
    && Defs(r) == Defs(ops) && Uses(r) <= Uses(ops)
    && (forall i, j :: 0 <= i < j < |r| ==> OpDefs(r[i]) !! OpDefs(r[j]) && OpUses(r[i]) !! OpDefs(r[j]))
  }

  lemma FreshName(s: set<Var>) returns (x: Var)
    ensures x !in s
    ensures forall y :: y in s ==> y < x
    decreases |s|
  {
    x := 0;
    if s != {} {
      var y :| y in s;
      x := FreshName(s - {y});
      if x <= y { x := y + 1; }
      assert forall z :: z in s ==> z == y || z in s - {y};
    }
  }

  /** Replacing the parts of a sequence. */
  lemma EquivalentConcat(f: Meaning, p: seq<Op>, p': seq<Op>, hidden: set<Var>, q: seq<Op>, q': seq<Op>, more: set<Var>)
    requires Equivalent(f, hidden, p, p') && Equivalent(f, more, q, q') && Uses(q) !! hidden
    ensures Equivalent(f, hidden + more, p + q, p' + q')
  {
    var unused := FreshName(Defs(q));
    forall env: Env, h: Heap
      ensures EqualExcept(hidden + more, Run(f, p + q, env, h), Run(f, p' + q', env, h))
    {
      hide Run, Defs, Uses;
      RunConcat(f, p, q, env, h);
      RunConcat(f, p', q', env, h);
      var r, r' := Run(f, p, env, h), Run(f, p', env, h);
      assert EqualExcept(hidden, r, r');
      RunAgree(f, q, r.env, r'.env, r.heap, {}, unused);
      assert EqualExcept(more, Run(f, q, r'.env, r.heap), Run(f, q', r'.env, r.heap));
      forall x | x !in hidden
        ensures Val(Run(f, q, r.env, r.heap).env, x) == Val(Run(f, q, r'.env, r.heap).env, x)
      {
        RunAgree(f, q, r.env, r'.env, r.heap, {x}, unused);
      }
    }
  }

  /** One piece of code after another. */
  lemma EquivalentTrans(f: Meaning, p: seq<Op>, q: seq<Op>, hidden: set<Var>, r: seq<Op>)
    requires Equivalent(f, {}, p, q) && Equivalent(f, hidden, q, r)
    ensures Equivalent(f, hidden, p, r)
  {
    forall env: Env, h: Heap
      ensures EqualExcept(hidden, Run(f, p, env, h), Run(f, r, env, h))
    {
      hide Run;
      assert EqualExcept({}, Run(f, p, env, h), Run(f, q, env, h));
      assert EqualExcept(hidden, Run(f, q, env, h), Run(f, r, env, h));
    }
  }

  lemma SameNames(p: seq<Op>, q: seq<Op>, all: seq<Op>)
    requires multiset(p) + multiset(q) == multiset(all)
    ensures Defs(p) + Defs(q) == Defs(all) && Uses(p) + Uses(q) == Uses(all)
    ensures forall op :: op in q ==> op in all
  {
    hide Defs, Uses, OpDefs, OpUses;
    NamesAt(p);
    NamesAt(q);
    NamesAt(all);
    assert forall op :: op in all <==> op in multiset(all);
    assert forall op :: op in p || op in q <==> op in multiset(p) + multiset(q);
    assert forall op :: op in all <==> op in p || op in q;
    NamesFrom(p + q, all);
    NamesConcat(p, q);
  }

  lemma NamesFrom(p: seq<Op>, q: seq<Op>)
    requires forall op :: op in p <==> op in q
    ensures Defs(p) == Defs(q) && Uses(p) == Uses(q)
  {
    hide Defs, Uses, OpDefs, OpUses;
    NamesAt(p);
    NamesAt(q);
    assert forall i :: 0 <= i < |p| ==> p[i] in q;
    assert forall i :: 0 <= i < |q| ==> q[i] in p;
  }

  /** A loop whose body has been tidied is in SSA form. */
  lemma LoopStaysSsa(l: Op, body: seq<Op>)
    requires l.For? && l.iv !in Defs(l.body) && {l.lo, l.hi, l.step} !! Defs(l.body) + {l.iv} && Tidy(l.body, body)
    ensures Ssa(l.(body := body))
  {}

  /** What a loop with a tidied body leaves in its block. */
  lemma LoopTidy(f: Meaning, l0: Op, body: seq<Op>, hoisted: seq<Op>, l: Op)
    requires l0.For? && Tidy(l0.body, body) && Moved(f, l0.(body := body), hoisted, l)
    ensures Tidy([l0], hoisted + [l])
  {
    var all := hoisted + [l];
    hide Equivalent, Ssa, Defs, Uses, OpDefs, OpUses, Ordered;
    SameNames(hoisted, l.body, body);
    NamesConcat(hoisted, [l]);
    OneName(l);
    OneName(l0);
    OrderedApart(hoisted, l);
  }

  lemma OneName(l: Op)
    ensures Defs([l]) == OpDefs(l) && Uses([l]) == OpUses(l)
    ensures l.For? ==> OpDefs(l) == {l.iv} + Defs(l.body) && OpUses(l) == {l.lo, l.hi, l.step} + Uses(l.body)
  {
    assert [l][1..] == [];
  }

  lemma OrderedApart(hoisted: seq<Op>, l: Op)
    requires l.For? && Ordered(hoisted, l)
    ensures var r := hoisted + [l];
      forall i, j :: 0 <= i < j < |r| ==> OpDefs(r[i]) !! OpDefs(r[j]) && OpUses(r[i]) !! OpDefs(r[j])
  {
    hide Defs, OpUses;
    var r := hoisted + [l];
    OneName(l);
    forall i, j | 0 <= i < j < |r|
      ensures OpDefs(r[i]) !! OpDefs(r[j]) && OpUses(r[i]) !! OpDefs(r[j])
    {
      assert OpDefs(hoisted[i]) !! Defs(hoisted[i + 1..]) + Defs(l.body) + {l.iv};
      assert r[i] == hoisted[i] && OpUses(hoisted[i]) !! Defs(hoisted[i..]) + Defs(l.body) + {l.iv};
      if j < |hoisted| {
        NamesAt(hoisted[i + 1..]);
        NamesAt(hoisted[i..]);
        assert hoisted[i + 1..][j - i - 1] == hoisted[j] && hoisted[i..][j - i] == hoisted[j];
        assert r[j] == hoisted[j];
        assert OpDefs(hoisted[j]) <= Defs(hoisted[i + 1..]) && OpDefs(hoisted[j]) <= Defs(hoisted[i..]);
      }
    }
  }

  /** Appending what became of the next operation. */
  lemma TidyNext(ops: seq<Op>, n: nat, r: seq<Op>, more: seq<Op>)
    requires n < |ops| && Program(ops) && Tidy(ops[..n], r) && Tidy([ops[n]], more)
    ensures Tidy(ops[..n + 1], r + more)
    ensures Inner(ops[..n]) !! OpUses(ops[n])
    ensures Inner(ops[..n + 1]) == Inner(ops[..n]) + if ops[n].For? then Defs(ops[n].body) else {}
  {
    hide Defs, Uses, OpDefs, OpUses, Program;
    assert ops[..n + 1] == ops[..n] + [ops[n]] && ops[..n + 1][..n] == ops[..n];
    NamesConcat(ops[..n], [ops[n]]);
    NamesConcat(r, more);
    OneName(ops[n]);
    EarlierApart(ops, n);
    InnerApart(ops, n, n);
    NamesAt(r);
    NamesAt(more);
    var all := r + more;
    forall i, j | 0 <= i < j < |all|
      ensures OpDefs(all[i]) !! OpDefs(all[j]) && OpUses(all[i]) !! OpDefs(all[j])
    {
      if i < |r| {
        assert OpDefs(r[i]) <= Defs(r) && OpUses(r[i]) <= Uses(r);
        if j >= |r| { assert OpDefs(more[j - |r|]) <= Defs(more); }
      }
    }
  }

  lemma EarlierApart(ops: seq<Op>, n: nat)
    requires n < |ops| && Program(ops)
    ensures Defs(ops[..n]) !! OpDefs(ops[n]) && Uses(ops[..n]) !! OpDefs(ops[n])
  {
    hide Defs, Uses, OpDefs, OpUses;
    NamesAt(ops[..n]);
    assert forall i :: 0 <= i < n ==> ops[..n][i] == ops[i] && Follows(ops[i], ops[n]);
  }

  lemma {:induction false} InnerApart(ops: seq<Op>, n: nat, m: nat)
    requires m <= n < |ops| && Program(ops)
    ensures Inner(ops[..m]) !! OpUses(ops[n])
  {
    hide Defs, Uses, OpDefs, OpUses;
    if m > 0 {
      assert ops[..m][..m - 1] == ops[..m - 1] && Follows(ops[m - 1], ops[n]);
      OneName(ops[m - 1]);
      InnerApart(ops, n, m - 1);
    }
  }

  lemma CleanConcat(p: seq<Op>, q: seq<Op>)
    requires Clean(p) && Clean(q)
    ensures Clean(p + q)
  {
    hide DependsOn;
  }

  /** What moves out of a clean body leaves it clean. */
  lemma LoopClean(body: seq<Op>, hoisted: seq<Op>, l: Op)
    requires l.For? && Clean(body) && multiset(hoisted) + multiset(l.body) == multiset(body)
    requires forall n :: 0 <= n < |hoisted| ==> hoisted[n].Pure?
    requires forall op :: op in l.body && op.Pure? ==> DependsOn(op, l)
    ensures Clean(hoisted + [l])
  {
    hide DependsOn;
    SameNames(hoisted, l.body, body);
    assert forall i :: 0 <= i < |l.body| ==> l.body[i] in body;
  }

  /** What holds of the code that the pass has been through. */
  ghost predicate Hoisted(f: Meaning, ops: seq<Op>, r: seq<Op>) {
    Equivalent(f, Inner(ops), ops, r) && Tidy(ops, r) && Clean(r)
  }

  lemma NothingHoisted(f: Meaning)
    ensures Hoisted(f, [], [])
  {}

  lemma KeptAlone(f: Meaning, op: Op)
    requires !op.For?
    ensures Equivalent(f, {}, [op], [op]) && Tidy([op], [op]) && Clean([op])
  {}

  lemma HoistedNext(f: Meaning, ops: seq<Op>, n: nat, r: seq<Op>, more: seq<Op>, hidden: set<Var>)
    requires n < |ops| && Program(ops) && Hoisted(f, ops[..n], r)
    requires Equivalent(f, hidden, [ops[n]], more) && Tidy([ops[n]], more) && Clean(more)
    requires hidden == if ops[n].For? then Defs(ops[n].body) else {}
    ensures Hoisted(f, ops[..n + 1], r + more)
  {
    assert ops[..n + 1] == ops[..n] + [ops[n]];
    hide Equivalent, Tidy, Clean, Inner, Program;
    OneName(ops[n]);
    TidyNext(ops, n, r, more);
    CleanConcat(r, more);
    EquivalentConcat(f, ops[..n], r, Inner(ops[..n]), [ops[n]], more, hidden);
  }

  /** One loop: its body has been through the pass, and then its invariant operations move out. */
  lemma LoopHoisted(f: Meaning, l0: Op, body: seq<Op>, hoisted: seq<Op>, l: Op)
    requires l0.For? && Hoisted(f, l0.body, body) && Moved(f, l0.(body := body), hoisted, l)
    requires forall op :: op in l.body && op.Pure? ==> DependsOn(op, l)
    ensures Equivalent(f, Defs(l0.body), [l0], hoisted + [l]) && Tidy([l0], hoisted + [l]) && Clean(hoisted + [l])
  {
    LoopTidy(f, l0, body, hoisted, l);
    LoopClean(body, hoisted, l) by { hide Equivalent, Tidy, Ssa, DependsOn; }
    hide Equivalent, Ssa, Ordered, Clean, DependsOn;
    HoistInLoop(f, Inner(l0.body), l0, body);
    EquivalentTrans(f, [l0], [l0.(body := body)], Defs(body), hoisted + [l]);
  }

  /** The pass: loops are visited innermost first.  The program means the same, names stay defined
      once and before their uses, and every pure operation left in a loop, at any depth, depends on
      that loop. */
  method HoistAll(ops: seq<Op>) returns (r: seq<Op>)
    requires Program(ops)
    ensures forall f: Meaning :: Hoisted(f, ops, r)
    decreases ops
  {
    hide Hoisted, Moved, Ssa, DependsOn, Tidy, Equivalent, Clean;
    r := [];
    forall f: Meaning ensures Hoisted(f, ops[..0], r) { NothingHoisted(f); }
    for n := 0 to |ops|
      invariant forall f: Meaning :: Hoisted(f, ops[..n], r)
    {
      var op := ops[n];
      ghost var done := ops[..n + 1];
      if op.For? {
        var body := HoistAll(op.body);
        BodySsa(op, body);
        var hoisted, l := Hoist(op.(body := body));
        forall f: Meaning
          ensures Hoisted(f, done, r + (hoisted + [l]))
        {
          LoopHoisted(f, op, body, hoisted, l);
          HoistedNext(f, ops, n, r, hoisted + [l], Defs(op.body));
        }
        r := r + (hoisted + [l]);
      } else {
        forall f: Meaning
          ensures Hoisted(f, done, r + [op])
        {
          KeptAlone(f, op);
          HoistedNext(f, ops, n, r, [op], {});
        }
        r := r + [op];
      }
    }
    assert ops[..|ops|] == ops;
  }

  lemma BodySsa(l: Op, body: seq<Op>)
    requires l.For? && l.iv !in Defs(l.body) && {l.lo, l.hi, l.step} !! Defs(l.body) + {l.iv}
    requires forall f: Meaning :: Hoisted(f, l.body, body)
    ensures Ssa(l.(body := body))
  {
    var f: Meaning := (k: nat, xs: seq<int>) => 0;
    assert Hoisted(f, l.body, body);
    hide Equivalent, Clean;
    LoopStaysSsa(l, body);
  }
}
