/** Lowering of expressions: strict operators in order, `&&` and `||` to conditional regions. */
module ShortCircuit {

  /** `Leaf` stands for any expression without operators, calls included: it may change the state. */
  datatype Expr =
    | Leaf(e: nat)
    | Strict(k: nat, left: Expr, right: Expr)
    | And(left: Expr, right: Expr)
    | Or(left: Expr, right: Expr)

  /** What leaves do to states S, what they yield, and what strict operators compute. */
  datatype World<!S> = World(run: (nat, S) -> S, val: (nat, S) -> int, compute: (nat, int, int) -> int)

  datatype Outcome<S> = Outcome(s: S, v: int)

  /** Left to right, and the right operand of `&&` and `||` only when the left one does not decide. */
  function Eval<S>(w: World<S>, e: Expr, s: S): Outcome<S> {
    match e
    case Leaf(i) => Outcome(w.run(i, s), w.val(i, s))
    case Strict(k, l, r) =>
      var x := Eval(w, l, s);
      var y := Eval(w, r, x.s);
      Outcome(y.s, w.compute(k, x.v, y.v))
    case And(l, r) =>
      var x := Eval(w, l, s);
      if x.v != 0 then Eval(w, r, x.s) else Outcome(x.s, 0)
    case Or(l, r) =>
      var x := Eval(w, l, s);
      if x.v != 0 then Outcome(x.s, 1) else Eval(w, r, x.s)
  }

  /** Operations over SSA names; names defined in a region are not visible after it. */
  datatype Op =
    | Do(dst: nat, e: nat)
    | Lit(dst: nat, c: int)
    | Compute(dst: nat, k: nat, x: nat, y: nat)
    | IfOp(dst: nat, cond: nat, thn: seq<Op>, thnYield: nat, els: seq<Op>, elsYield: nat)

  type Env = map<nat, int>
  datatype Config<S> = Config(env: Env, s: S)

  function Get(env: Env, x: nat): int { if x in env then env[x] else 0 }

  function Exec<S>(w: World<S>, ops: seq<Op>, c: Config<S>): Config<S>
    decreases ops, 0
  {
    if ops == [] then c else Exec(w, ops[1..], ExecOp(w, ops[0], c))
  }

  function ExecOp<S>(w: World<S>, op: Op, c: Config<S>): Config<S>
    decreases op, 0
  {
    match op
    case Do(d, e) => Config(c.env[d := w.val(e, c.s)], w.run(e, c.s))
    case Lit(d, v) => Config(c.env[d := v], c.s)
    case Compute(d, k, x, y) => Config(c.env[d := w.compute(k, Get(c.env, x), Get(c.env, y))], c.s)
    case IfOp(d, cond, t, ty, e, ey) =>
      if Get(c.env, cond) != 0 then var r := Exec(w, t, c); Config(c.env[d := Get(r.env, ty)], r.s)
      else var r := Exec(w, e, c); Config(c.env[d := Get(r.env, ey)], r.s)
  }

  /** Generated code, the name of its value, and the next free name. */
  datatype Gen = Gen(ops: seq<Op>, result: nat, next: nat)

  function VisitExpr(e: Expr, n: nat): (g: Gen)
    ensures n <= g.result < g.next
  {
    match e
    case Leaf(i) => Gen([Do(n, i)], n, n + 1)
    case Strict(k, l, r) =>
      var gl := VisitExpr(l, n);
      var gr := VisitExpr(r, gl.next);
      Gen(gl.ops + gr.ops + [Compute(gr.next, k, gl.result, gr.result)], gr.next, gr.next + 1)
    case And(l, r) =>
      var gl := VisitExpr(l, n);
      var gr := VisitExpr(r, gl.next);
      Gen(gl.ops + [IfOp(gr.next, gl.result, gr.ops, gr.result, [Lit(gr.next, 0)], gr.next)], gr.next, gr.next + 1)
    case Or(l, r) =>
      var gl := VisitExpr(l, n);
      var gr := VisitExpr(r, gl.next);
      Gen(gl.ops + [IfOp(gr.next, gl.result, [Lit(gr.next, 1)], gr.next, gr.ops, gr.result)], gr.next, gr.next + 1)
  }

  lemma {:induction false} ExecConcat<S>(w: World<S>, p: seq<Op>, q: seq<Op>, c: Config<S>)
    ensures Exec(w, p + q, c) == Exec(w, q, Exec(w, p, c))
    decreases |p|
  {
    if p == [] {
      assert p + q == q;
    } else {
      assert (p + q)[1..] == p[1..] + q;
      ExecConcat(w, p[1..], q, ExecOp(w, p[0], c));
    }
  }

  lemma ExecOne<S>(w: World<S>, op: Op, c: Config<S>)
    ensures Exec(w, [op], c) == ExecOp(w, op, c)
  {
    assert [op][1..] == [];
  }

  /** The code did what the expression means: its state, its value, and earlier names untouched. */
  ghost predicate Means<S>(o: Outcome<S>, g: Gen, n: nat, c: Config<S>, r: Config<S>) {
    r.s == o.s && Get(r.env, g.result) == o.v && forall x: nat :: x < n ==> Get(r.env, x) == Get(c.env, x)
  }

  /** Generated code means the expression: same state and order of effects, same value, and the
      right operand of a logical operator runs exactly when direct evaluation runs it. */
  lemma {:induction false} VisitExprCorrect<S>(w: World<S>, e: Expr, n: nat, c: Config<S>)
    ensures Means(Eval(w, e, c.s), VisitExpr(e, n), n, c, Exec(w, VisitExpr(e, n).ops, c))
    decreases e
  {
    if e.Leaf? {
      ExecOne(w, Do(n, e.e), c);
    } else {
      var gl := VisitExpr(e.left, n);
      var gr := VisitExpr(e.right, gl.next);
      var c1 := Exec(w, gl.ops, c);
      var c2 := Exec(w, gr.ops, c1);
      VisitExprCorrect(w, e.left, n, c);
      VisitExprCorrect(w, e.right, gl.next, c1);
      var g := VisitExpr(e, n);
      var last := g.ops[|g.ops| - 1];
      if e.Strict? {
        ExecConcat(w, gl.ops + gr.ops, [last], c);
        ExecConcat(w, gl.ops, gr.ops, c);
        ExecOne(w, last, c2);
      } else {
        ExecConcat(w, gl.ops, [last], c);
        ExecOne(w, last, c1);
        ExecOne(w, Lit(gr.next, if e.And? then 0 else 1), c1);
      }
    }
  }
}
