/** Lowering of early `return` to structured control flow: a (flag, value) pair of SSA values is
    threaded through the generated code and one return is emitted at the end of the function. */
module EarlyReturn {
  import opened Wrappers

  /** Statements.  Expressions are opaque: evaluating expression `e` changes the state and yields a
      value, so conditions and returned expressions may have side effects.  `Eff` stands for let
      and expression statements. */
  datatype Stmt =
    | Eff(e: nat)
    | If(cond: nat, thn: Stmt, els: Option<Stmt>)
    | Block(ss: seq<Stmt>)
    | Return(result: Option<nat>)
    | For(v: nat, lo: nat, hi: nat, inclusive: bool, body: Stmt)
    | While(cond: nat, body: Stmt)

  /** What expressions mean over states S, and how a loop variable is assigned. */
  datatype World<!S> = World(run: (nat, S) -> S, val: (nat, S) -> int, assign: (nat, int, S) -> S)

  /** How a return leaves: without or with a value. */
  datatype Exit = Bare | With(v: int)

  /** A statement's end state, and how it returned if it returned. */
  datatype Out<S> = Out(s: S, ret: Option<Exit>)

  /** The value a caller gets: 0 when no return was reached, and when it had no value. */
  function Returned(r: Option<Exit>): int {
    match r
    case None => 0
    case Some(Bare) => 0
    case Some(With(v)) => v
  }

  /** The constant that the generator returns where there is no value. */
  const DEFAULT_VALUE := 0

  /** Direct execution.  With `escape` a return inside a loop leaves the function; without it the
      return only ends the current iteration and its value is dropped.  None: out of fuel. */
  function Sem<S>(w: World<S>, escape: bool, s: Stmt, st: S, fuel: nat): Option<Out<S>>
    decreases fuel, s, 0
  {
    match s
    case Eff(e) => Some(Out(w.run(e, st), None))
    case If(c, t, e) =>
      if w.val(c, st) != 0 then Sem(w, escape, t, w.run(c, st), fuel)
      else if e.None? then Some(Out(w.run(c, st), None))
      else Sem(w, escape, e.value, w.run(c, st), fuel)
    case Block(ss) => SemSeq(w, escape, ss, st, fuel)
    case Return(None) => Some(Out(st, Some(Bare)))
    case Return(Some(e)) => Some(Out(w.run(e, st), Some(With(w.val(e, st)))))
    case For(v, lo, hi, incl, body) =>
      var s1 := w.run(lo, st);
      SemFor(w, escape, v, body, w.val(lo, st), w.val(hi, s1) + (if incl then 1 else 0), w.run(hi, s1), fuel)
    case While(c, body) =>
      if w.val(c, st) == 0 then Some(Out(w.run(c, st), None))
      else
        match Sem(w, escape, body, w.run(c, st), fuel)
        case None => None
        case Some(o) =>
          if o.ret.Some? && escape then Some(o)
          else if fuel == 0 then None
          else Sem(w, escape, s, o.s, fuel - 1)
  }

  function SemSeq<S>(w: World<S>, escape: bool, ss: seq<Stmt>, st: S, fuel: nat): Option<Out<S>>
    decreases fuel, ss, 0
  {
    if ss == [] then Some(Out(st, None))
    else
      match Sem(w, escape, ss[0], st, fuel)
      case None => None
      case Some(o) => if o.ret.Some? then Some(o) else SemSeq(w, escape, ss[1..], o.s, fuel)
  }

  function SemFor<S>(w: World<S>, escape: bool, v: nat, body: Stmt, i: int, hi: int, st: S, fuel: nat): Option<Out<S>>
    decreases fuel, body, 1 + if hi > i then hi - i else 0
  {
    if i >= hi then Some(Out(st, None))
    else
      match Sem(w, escape, body, w.assign(v, i, st), fuel)
      case None => None
      case Some(o) => if o.ret.Some? && escape then Some(o) else SemFor(w, escape, v, body, i + 1, hi, o.s, fuel)
  }

  // ----- the generated code

  /** Structured operations over SSA names.  `IfOp` yields into its results; nothing defined inside
      a region is visible after it. */
  datatype Op =
    | Run(e: nat)
    | Eval(dst: nat, e: nat)
    | Lit(dst: nat, c: int)
    | Xor(dst: nat, x: nat, y: nat)
    | IfOp(cond: nat, results: seq<nat>, thn: seq<Op>, thnYield: seq<nat>, els: seq<Op>, elsYield: seq<nat>)
    | ForOp(v: nat, lo: nat, hi: nat, inclusive: bool, body: seq<Op>)
    | WhileOp(e: nat, body: seq<Op>)

  type Env = map<nat, int>
  datatype Config<S> = Config(env: Env, s: S)

  function Get(env: Env, x: nat): int { if x in env then env[x] else 0 }

  function Bind(env: Env, from: Env, results: seq<nat>, given: seq<nat>): Env
    requires |results| == |given|
  {
    if results == [] then env else Bind(env, from, results[1..], given[1..])[results[0] := Get(from, given[0])]
  }

  function Exec<S>(w: World<S>, ops: seq<Op>, c: Config<S>, fuel: nat): Option<Config<S>>
    decreases fuel, ops, 0
  {
    if ops == [] then Some(c)
    else
      match ExecOp(w, ops[0], c, fuel)
      case None => None
      case Some(c1) => Exec(w, ops[1..], c1, fuel)
  }

  function ExecOp<S>(w: World<S>, op: Op, c: Config<S>, fuel: nat): Option<Config<S>>
    decreases fuel, op, 0
  {
    match op
    case Run(e) => Some(c.(s := w.run(e, c.s)))
    case Eval(d, e) => Some(Config(c.env[d := w.val(e, c.s)], w.run(e, c.s)))
    case Lit(d, k) => Some(c.(env := c.env[d := k]))
    case Xor(d, x, y) => Some(c.(env := c.env[d := if Get(c.env, x) == Get(c.env, y) then 0 else 1]))
    case IfOp(x, rs, t, ty, e, ey) =>
      if Get(c.env, x) != 0 then
        match Exec(w, t, c, fuel)
        case None => None
        case Some(c1) => if |rs| == |ty| then Some(Config(Bind(c.env, c1.env, rs, ty), c1.s)) else None
      else
        (match Exec(w, e, c, fuel)
         case None => None
         case Some(c1) => if |rs| == |ey| then Some(Config(Bind(c.env, c1.env, rs, ey), c1.s)) else None)
    case ForOp(v, lo, hi, incl, body) =>
      var s1 := w.run(lo, c.s);
      ExecFor(w, v, body, w.val(lo, c.s), w.val(hi, s1) + (if incl then 1 else 0), c.(s := w.run(hi, s1)), fuel)
    case WhileOp(e, body) =>
      if w.val(e, c.s) == 0 then Some(c.(s := w.run(e, c.s)))
      else
        match Exec(w, body, c.(s := w.run(e, c.s)), fuel)
        case None => None
        case Some(c1) => if fuel == 0 then None else ExecOp(w, op, c.(s := c1.s), fuel - 1)
  }

  function ExecFor<S>(w: World<S>, v: nat, body: seq<Op>, i: int, hi: int, c: Config<S>, fuel: nat): Option<Config<S>>
    decreases fuel, body, 1 + if hi > i then hi - i else 0
  {
    if i >= hi then Some(c)
    else
      match Exec(w, body, c.(s := w.assign(v, i, c.s)), fuel)
      case None => None
      case Some(c1) => ExecFor(w, v, body, i + 1, hi, c.(s := c1.s), fuel)
  }

  // ----- the generator

  /** SSA names of the flag and the value, once some statement may have returned. */
  datatype ReturnState = ReturnState(flag: Option<nat>, val: Option<nat>)
  const NO_RETURN := ReturnState(None, None)

  /** Generated operations, the new return state, and the next free name. */
  datatype Gen = Gen(ops: seq<Op>, st: ReturnState, n: nat)

  predicate MayReturn(s: Stmt) {
    match s
    case Return(_) => true
    case Block(ss) => AnyMayReturn(ss)
    case If(_, t, e) => MayReturn(t) || (e.Some? && MayReturn(e.value))
    case _ => false
  }

  predicate AnyMayReturn(ss: seq<Stmt>) {
    ss != [] && (MayReturn(ss[0]) || AnyMayReturn(ss[1..]))
  }

  /** The operands a region yields: its flag and value, with constants where it has none. */
  function YieldState(hasResult: bool, g: Gen): (r: Gen)
    ensures Yields(hasResult, r.st)
  {
    var f := if g.st.flag.Some? then Gen(g.ops, g.st, g.n)
      else Gen(g.ops + [Lit(g.n, 0)], g.st.(flag := Some(g.n)), g.n + 1);
    if !hasResult || f.st.val.Some? then f
    else Gen(f.ops + [Lit(f.n, DEFAULT_VALUE)], f.st.(val := Some(f.n)), f.n + 1)
  }

  predicate Yields(hasResult: bool, st: ReturnState) {
    st.flag.Some? && (hasResult ==> st.val.Some?)
  }

  function Names(hasResult: bool, st: ReturnState): seq<nat>
    requires Yields(hasResult, st)
  {
    if hasResult then [st.flag.value, st.val.value] else [st.flag.value]
  }

  /** A conditional whose regions yield the return states of `t` and `e`. */
  function Join(hasResult: bool, cond: nat, t: Gen, e: Gen): Gen
    requires Yields(hasResult, t.st) && Yields(hasResult, e.st)
  {
    var st := ReturnState(Some(e.n), if hasResult then Some(e.n + 1) else None);
    Gen([IfOp(cond, Names(hasResult, st), t.ops, Names(hasResult, t.st), e.ops, Names(hasResult, e.st))], st, e.n + 2)
  }

  function GenStmt(hasResult: bool, s: Stmt, st: ReturnState, n: nat): (g: Gen)
    decreases s, if st.flag.Some? then 1 else 0
  {
    if st.flag.Some? then
      var guard := [Lit(n, 1), Xor(n + 1, st.flag.value, n)];
      var g := GenStmt(hasResult, s, NO_RETURN, n + 2);
      if !MayReturn(s) then Gen(guard + [IfOp(n + 1, [], g.ops, [], [], [])], st, g.n)
      else
        var t := YieldState(hasResult, g);
        var j := Join(hasResult, n + 1, t, YieldState(hasResult, Gen([], st, t.n)));
        Gen(guard + j.ops, j.st, j.n)
    else
      match s
      case Eff(e) => Gen([Run(e)], st, n)
      case If(c, t, e) =>
        if !MayReturn(s) then
          var gt := GenStmt(hasResult, t, NO_RETURN, n + 1);
          var ge := if e.Some? then GenStmt(hasResult, e.value, NO_RETURN, gt.n) else Gen([], NO_RETURN, gt.n);
          Gen([Eval(n, c), IfOp(n, [], gt.ops, [], ge.ops, [])], NO_RETURN, ge.n)
        else
          var gt := YieldState(hasResult, GenStmt(hasResult, t, NO_RETURN, n + 1));
          var ge := YieldState(hasResult, if e.Some? then GenStmt(hasResult, e.value, NO_RETURN, gt.n)
            else Gen([], NO_RETURN, gt.n));
          var j := Join(hasResult, n, gt, ge);
          Gen([Eval(n, c)] + j.ops, j.st, j.n)
      case Return(None) =>
        if hasResult then Gen([Lit(n, 1), Lit(n + 1, DEFAULT_VALUE)], ReturnState(Some(n), Some(n + 1)), n + 2)
        else Gen([Lit(n, 1)], ReturnState(Some(n), None), n + 1)
      case Return(Some(e)) => Gen([Lit(n, 1), Eval(n + 1, e)], ReturnState(Some(n), Some(n + 1)), n + 2)
      case Block(ss) => GenSeq(hasResult, ss, st, n)
      case For(v, lo, hi, incl, body) =>
        var g := GenStmt(hasResult, body, NO_RETURN, n);
        Gen([ForOp(v, lo, hi, incl, g.ops)], st, g.n)
      case While(c, body) =>
        var g := GenStmt(hasResult, body, NO_RETURN, n);
        Gen([WhileOp(c, g.ops)], st, g.n)
  }

  function GenSeq(hasResult: bool, ss: seq<Stmt>, st: ReturnState, n: nat): (g: Gen)
    decreases ss, 0
  {
    if ss == [] then Gen([], st, n)
    else
      var g := GenStmt(hasResult, ss[0], st, n);
      var r := GenSeq(hasResult, ss[1..], g.st, g.n);
      Gen(g.ops + r.ops, r.st, r.n)
  }

  // ----- fresh names

  lemma {:induction false} StmtNames(hasResult: bool, s: Stmt, st: ReturnState, n: nat)
    ensures GenStmt(hasResult, s, st, n).n >= n
    decreases s, if st.flag.Some? then 1 else 0
  {
    if st.flag.Some? {
      StmtNames(hasResult, s, NO_RETURN, n + 2);
    } else {
      match s
      case If(c, t, e) =>
        StmtNames(hasResult, t, NO_RETURN, n + 1);
        if e.Some? {
          StmtNames(hasResult, e.value, NO_RETURN, GenStmt(hasResult, t, NO_RETURN, n + 1).n);
          StmtNames(hasResult, e.value, NO_RETURN, YieldState(hasResult, GenStmt(hasResult, t, NO_RETURN, n + 1)).n);
        }
      case Block(ss) => SeqNames(hasResult, ss, st, n);
      case For(v, lo, hi, incl, body) => StmtNames(hasResult, body, NO_RETURN, n);
      case While(c, body) => StmtNames(hasResult, body, NO_RETURN, n);
      case _ =>
    }
  }

  lemma {:induction false} SeqNames(hasResult: bool, ss: seq<Stmt>, st: ReturnState, n: nat)
    ensures GenSeq(hasResult, ss, st, n).n >= n
    decreases ss, 0
  {
    if ss != [] {
      StmtNames(hasResult, ss[0], st, n);
      var g := GenStmt(hasResult, ss[0], st, n);
      SeqNames(hasResult, ss[1..], g.st, g.n);
    }
  }

  /** `genStmt` yields a flag exactly when one came in or the statement may return. */
  lemma {:induction false} FlagIffMayReturn(hasResult: bool, s: Stmt, st: ReturnState, n: nat)
    ensures GenStmt(hasResult, s, st, n).st.flag.Some? <==> st.flag.Some? || MayReturn(s)
    ensures st == NO_RETURN && !MayReturn(s) ==> GenStmt(hasResult, s, st, n).st == NO_RETURN
    decreases s, if st.flag.Some? then 1 else 0
  {
    if st.flag.None? && s.Block? {
      SeqFlagIffMayReturn(hasResult, s.ss, st, n);
    }
  }

  lemma {:induction false} SeqFlagIffMayReturn(hasResult: bool, ss: seq<Stmt>, st: ReturnState, n: nat)
    ensures GenSeq(hasResult, ss, st, n).st.flag.Some? <==> st.flag.Some? || AnyMayReturn(ss)
    ensures st == NO_RETURN && !AnyMayReturn(ss) ==> GenSeq(hasResult, ss, st, n).st == NO_RETURN
    decreases ss, 0
  {
    if ss != [] {
      FlagIffMayReturn(hasResult, ss[0], st, n);
      var g := GenStmt(hasResult, ss[0], st, n);
      SeqFlagIffMayReturn(hasResult, ss[1..], g.st, g.n);
    }
  }

  // ----- what a return state says about a configuration

  /** The names of `st` are defined below n, and the pair says "not yet returned" or "returned v". */
  ghost predicate Says(hasResult: bool, st: ReturnState, n: nat, env: Env, ret: Option<Exit>) {
    && (st.flag.Some? ==> st.flag.value < n)
    && (st.val.Some? ==> st.val.value < n)
    && (if st.flag.None? then ret.None? && st.val.None?
        else
          && Get(env, st.flag.value) == (if ret.Some? then 1 else 0)
          && (hasResult ==> st.val.Some? && Get(env, st.val.value) == Returned(ret)))
  }

  /** `env'` agrees with `env` on the names below n. */
  ghost predicate Extends(env: Env, env': Env, n: nat) {
    forall x: nat :: x < n ==> Get(env', x) == Get(env, x)
  }

  /** The generated code did what direct execution did. */
  ghost predicate Matches<S>(hasResult: bool, o: Option<Out<S>>, r: Option<Config<S>>, st: ReturnState, n: nat,
          env: Env, n0: nat) {
    match o
    case None => r.None?
    case Some(out) =>
      && r.Some? && r.value.s == out.s
      && Says(hasResult, st, n, r.value.env, out.ret) && Extends(env, r.value.env, n0)
  }

  lemma {:induction false} ExecConcat<S>(w: World<S>, p: seq<Op>, q: seq<Op>, c: Config<S>, fuel: nat)
    ensures Exec(w, p + q, c, fuel) ==
            match Exec(w, p, c, fuel) case None => None case Some(c1) => Exec(w, q, c1, fuel)
    decreases p
  {
    if p == [] {
      assert p + q == q;
    } else {
      assert (p + q)[1..] == p[1..] + q;
      var r := ExecOp(w, p[0], c, fuel);
      if r.Some? { ExecConcat(w, p[1..], q, r.value, fuel); }
    }
  }

  lemma ExecOne<S>(w: World<S>, op: Op, c: Config<S>, fuel: nat)
    ensures Exec(w, [op], c, fuel) == ExecOp(w, op, c, fuel)
  {
    assert [op][1..] == [];
  }

  lemma ExecTwo<S>(w: World<S>, a: Op, b: Op, c: Config<S>, fuel: nat)
    ensures Exec(w, [a, b], c, fuel) ==
      match ExecOp(w, a, c, fuel) case None => None case Some(c1) => ExecOp(w, b, c1, fuel)
  {
    assert [a, b] == [a] + [b];
    ExecConcat(w, [a], [b], c, fuel);
    ExecOne(w, a, c, fuel);
    var r := ExecOp(w, a, c, fuel);
    if r.Some? { ExecOne(w, b, r.value, fuel); }
  }

  /** A region's yielded operands say what its return state says. */
  lemma YieldStateSays<S>(w: World<S>, hasResult: bool, g: Gen, c: Config<S>, fuel: nat, env: Env, n0: nat,
          o: Option<Out<S>>)
    requires n0 <= g.n && (g.st.flag.None? ==> g.st.val.None?)
    requires Matches(hasResult, o, Exec(w, g.ops, c, fuel), g.st, g.n, env, n0)
    ensures var y := YieldState(hasResult, g);
      y.n >= g.n && Matches(hasResult, o, Exec(w, y.ops, c, fuel), y.st, y.n, env, n0)
  {
    var f := if g.st.flag.Some? then Gen(g.ops, g.st, g.n)
      else Gen(g.ops + [Lit(g.n, 0)], g.st.(flag := Some(g.n)), g.n + 1);
    var r := Exec(w, g.ops, c, fuel);
    if g.st.flag.None? {
      ExecConcat(w, g.ops, [Lit(g.n, 0)], c, fuel);
      if r.Some? { ExecOne(w, Lit(g.n, 0), r.value, fuel); }
    }
    var r1 := Exec(w, f.ops, c, fuel);
    if hasResult && f.st.val.None? {
      ExecConcat(w, f.ops, [Lit(f.n, DEFAULT_VALUE)], c, fuel);
      if r1.Some? { ExecOne(w, Lit(f.n, DEFAULT_VALUE), r1.value, fuel); }
    }
  }

  lemma BindNames(env: Env, from: Env, hasResult: bool, st: ReturnState, given: ReturnState, n: nat)
    requires Yields(hasResult, given)
    requires st == ReturnState(Some(n), if hasResult then Some(n + 1) else None)
    ensures var env' := Bind(env, from, Names(hasResult, st), Names(hasResult, given));
      && Get(env', n) == Get(from, given.flag.value)
      && (hasResult ==> Get(env', n + 1) == Get(from, given.val.value))
      && Extends(env, env', n)
  {
    if hasResult {
      var rs, gs := [n, n + 1], [given.flag.value, given.val.value];
      assert rs[1..] == [n + 1] && gs[1..] == [given.val.value];
      assert [n + 1][1..] == [] && [given.val.value][1..] == [];
      assert Bind(env, from, [n + 1], [given.val.value]) == env[n + 1 := Get(from, given.val.value)];
    } else {
      assert [n][1..] == [] && [given.flag.value][1..] == [];
    }
  }

  /** The joined conditional says what the region it took says. */
  lemma JoinSays<S>(w: World<S>, hasResult: bool, cond: nat, t: Gen, e: Gen, c: Config<S>, fuel: nat,
          o: Option<Out<S>>, n0: nat)
    requires Yields(hasResult, t.st) && Yields(hasResult, e.st) && n0 <= t.n <= e.n
    requires if Get(c.env, cond) != 0 then Matches(hasResult, o, Exec(w, t.ops, c, fuel), t.st, t.n, c.env, n0)
             else Matches(hasResult, o, Exec(w, e.ops, c, fuel), e.st, e.n, c.env, n0)
    ensures var j := Join(hasResult, cond, t, e);
      Matches(hasResult, o, Exec(w, j.ops, c, fuel), j.st, j.n, c.env, n0)
  {
    var j := Join(hasResult, cond, t, e);
    ExecOne(w, j.ops[0], c, fuel);
    var g := if Get(c.env, cond) != 0 then t else e;
    var r := Exec(w, g.ops, c, fuel);
    if r.Some? {
      BindNames(c.env, r.value.env, hasResult, j.st, g.st, e.n);
    }
  }

  // ----- simulation

  /** What direct execution of `s` gives after a prefix that may already have returned. */
  function After<S>(w: World<S>, s: Stmt, st: S, ret: Option<Exit>, fuel: nat): Option<Out<S>> {
    if ret.Some? then Some(Out(st, ret)) else Sem(w, false, s, st, fuel)
  }

  function AfterSeq<S>(w: World<S>, ss: seq<Stmt>, st: S, ret: Option<Exit>, fuel: nat): Option<Out<S>> {
    if ret.Some? then Some(Out(st, ret)) else SemSeq(w, false, ss, st, fuel)
  }

  lemma MatchesExtended<S>(hasResult: bool, o: Option<Out<S>>, r: Option<Config<S>>, st: ReturnState, n: nat,
          env: Env, env1: Env, n0: nat, n1: nat)
    requires Matches(hasResult, o, r, st, n, env1, n1) && n0 <= n1 && Extends(env, env1, n0)
    ensures Matches(hasResult, o, r, st, n, env, n0)
  {}

  lemma {:induction false} GenCorrect<S>(w: World<S>, hasResult: bool, s: Stmt, st: ReturnState, n: nat, c: Config<S>,
          ret: Option<Exit>, fuel: nat)
    requires Says(hasResult, st, n, c.env, ret)
    ensures var g := GenStmt(hasResult, s, st, n);
      Matches(hasResult, After(w, s, c.s, ret, fuel), Exec(w, g.ops, c, fuel), g.st, g.n, c.env, n)
    decreases fuel, s, if st.flag.Some? then 1 else 0
  {
    if st.flag.Some? {
      GuardedCorrect(w, hasResult, s, st, n, c, ret, fuel);
    } else {
      match s
      case Eff(e) => ExecOne(w, Run(e), c, fuel);
      case If(_, _, _) => IfCorrect(w, hasResult, s, n, c, fuel);
      case Return(None) =>
        if hasResult {
          ExecTwo(w, Lit(n, 1), Lit(n + 1, DEFAULT_VALUE), c, fuel);
        } else {
          ExecOne(w, Lit(n, 1), c, fuel);
        }
      case Return(Some(e)) => ExecTwo(w, Lit(n, 1), Eval(n + 1, e), c, fuel);
      case Block(ss) => SeqCorrect(w, hasResult, ss, st, n, c, ret, fuel);
      case For(v, lo, hi, incl, body) =>
        var g := GenStmt(hasResult, body, NO_RETURN, n);
        ExecOne(w, ForOp(v, lo, hi, incl, g.ops), c, fuel);
        var s1 := w.run(lo, c.s);
        var end := w.val(hi, s1) + if incl then 1 else 0;
        ForCorrect(w, hasResult, v, body, n, w.val(lo, c.s), end, c.(s := w.run(hi, s1)), fuel);
        StmtNames(hasResult, body, NO_RETURN, n);
      case While(e, body) =>
        var g := GenStmt(hasResult, body, NO_RETURN, n);
        ExecOne(w, WhileOp(e, g.ops), c, fuel);
        WhileCorrect(w, hasResult, e, body, n, c, fuel);
        StmtNames(hasResult, body, NO_RETURN, n);
    }
  }

  function Guard(st: ReturnState, n: nat): seq<Op>
    requires st.flag.Some?
  {
    [Lit(n, 1), Xor(n + 1, st.flag.value, n)]
  }

  lemma GuardRuns<S>(w: World<S>, hasResult: bool, st: ReturnState, n: nat, c: Config<S>, ret: Option<Exit>,
          fuel: nat) returns (c1: Config<S>)
    requires Says(hasResult, st, n, c.env, ret) && st.flag.Some?
    ensures Exec(w, Guard(st, n), c, fuel) == Some(c1) && c1.s == c.s && Extends(c.env, c1.env, n)
    ensures Get(c1.env, n + 1) == (if ret.Some? then 0 else 1) && Says(hasResult, st, n, c1.env, ret)
  {
    ExecTwo(w, Lit(n, 1), Xor(n + 1, st.flag.value, n), c, fuel);
    c1 := Exec(w, Guard(st, n), c, fuel).value;
  }

  /** A statement that cannot return is skipped when an earlier one has. */
  lemma GuardedPlain<S>(w: World<S>, hasResult: bool, s: Stmt, st: ReturnState, n: nat, g: Gen, c1: Config<S>,
          ret: Option<Exit>, fuel: nat)
    requires Says(hasResult, st, n, c1.env, ret) && st.flag.Some? && n + 2 <= g.n && g.st == NO_RETURN
    requires Get(c1.env, n + 1) == (if ret.Some? then 0 else 1)
    requires ret.None? ==>
      Matches(hasResult, Sem(w, false, s, c1.s, fuel), Exec(w, g.ops, c1, fuel), g.st, g.n, c1.env, n + 2)
    ensures Matches(hasResult, After(w, s, c1.s, ret, fuel), Exec(w, [IfOp(n + 1, [], g.ops, [], [], [])], c1, fuel),
      st, g.n, c1.env, n)
  {
    ExecOne(w, IfOp(n + 1, [], g.ops, [], [], []), c1, fuel);
  }

  lemma GuardedCorrect<S>(w: World<S>, hasResult: bool, s: Stmt, st: ReturnState, n: nat, c: Config<S>,
          ret: Option<Exit>, fuel: nat)
    requires Says(hasResult, st, n, c.env, ret) && st.flag.Some?
    ensures var g := GenStmt(hasResult, s, st, n);
      Matches(hasResult, After(w, s, c.s, ret, fuel), Exec(w, g.ops, c, fuel), g.st, g.n, c.env, n)
    decreases fuel, s, 1, 0
  {
    hide Exec, Sem, Matches, Says, MayReturn, Extends, Join, Names, YieldState;
    var c1 := GuardRuns(w, hasResult, st, n, c, ret, fuel);
    var g := GenStmt(hasResult, s, NO_RETURN, n + 2);
    StmtNames(hasResult, s, NO_RETURN, n + 2);
    if ret.None? {
      SaysNothing(hasResult, n + 2, c1.env);
      GenCorrect(w, hasResult, s, NO_RETURN, n + 2, c1, None, fuel);
    }
    FlagIffMayReturn(hasResult, s, NO_RETURN, n + 2);
    var o := After(w, s, c.s, ret, fuel);
    if !MayReturn(s) {
      var op := IfOp(n + 1, [], g.ops, [], [], []);
      GuardedPlain(w, hasResult, s, st, n, g, c1, ret, fuel);
      ExecConcat(w, Guard(st, n), [op], c, fuel);
      MatchesExtended(hasResult, o, Exec(w, [op], c1, fuel), st, g.n, c.env, c1.env, n, n);
    } else {
      GuardedJoin(w, hasResult, s, st, n, c1, ret, fuel, g);
      var t := YieldState(hasResult, g);
      var j := Join(hasResult, n + 1, t, YieldState(hasResult, Gen([], st, t.n)));
      ExecConcat(w, Guard(st, n), j.ops, c, fuel);
      MatchesExtended(hasResult, o, Exec(w, j.ops, c1, fuel), j.st, j.n, c.env, c1.env, n, n);
    }
  }

  lemma SaysNothing(hasResult: bool, n: nat, env: Env)
    ensures Says(hasResult, NO_RETURN, n, env, None)
  {}

  lemma GuardedJoin<S>(w: World<S>, hasResult: bool, s: Stmt, st: ReturnState, n: nat, c1: Config<S>,
          ret: Option<Exit>, fuel: nat, g: Gen)
    requires Says(hasResult, st, n, c1.env, ret) && st.flag.Some? && n + 2 <= g.n
    requires Get(c1.env, n + 1) == (if ret.Some? then 0 else 1)
    requires g.st.flag.Some?
    requires ret.None? ==>
      Matches(hasResult, Sem(w, false, s, c1.s, fuel), Exec(w, g.ops, c1, fuel), g.st, g.n, c1.env, n + 2)
    ensures var t := YieldState(hasResult, g);
      var j := Join(hasResult, n + 1, t, YieldState(hasResult, Gen([], st, t.n)));
      Matches(hasResult, After(w, s, c1.s, ret, fuel), Exec(w, j.ops, c1, fuel), j.st, j.n, c1.env, n)
  {
    var o := After(w, s, c1.s, ret, fuel);
    var t := YieldState(hasResult, g);
    var e := YieldState(hasResult, Gen([], st, t.n));
    if ret.None? {
      YieldStateSays(w, hasResult, g, c1, fuel, c1.env, n, o);
    } else {
      YieldStateSays(w, hasResult, Gen([], st, t.n), c1, fuel, c1.env, n, o);
    }
    JoinSays(w, hasResult, n + 1, t, e, c1, fuel, o, n);
  }

  lemma IfPlain<S>(w: World<S>, hasResult: bool, s: Stmt, n: nat, c: Config<S>, fuel: nat, t: Gen, e: Gen)
    requires s.If? && n < t.n <= e.n && t.st == NO_RETURN && e.st == NO_RETURN
    requires var c1 := Config(c.env[n := w.val(s.cond, c.s)], w.run(s.cond, c.s));
      if Get(c1.env, n) != 0 then
        Matches(hasResult, Sem(w, false, s, c.s, fuel), Exec(w, t.ops, c1, fuel), t.st, t.n, c1.env, n + 1)
      else Matches(hasResult, Sem(w, false, s, c.s, fuel), Exec(w, e.ops, c1, fuel), e.st, e.n, c1.env, n + 1)
    ensures Matches(hasResult, Sem(w, false, s, c.s, fuel),
      Exec(w, [Eval(n, s.cond), IfOp(n, [], t.ops, [], e.ops, [])], c, fuel), NO_RETURN, e.n, c.env, n)
  {
    hide Sem;
    ExecTwo(w, Eval(n, s.cond), IfOp(n, [], t.ops, [], e.ops, []), c, fuel);
  }

  lemma IfJoin<S>(w: World<S>, hasResult: bool, s: Stmt, n: nat, c: Config<S>, fuel: nat, t: Gen, e0: Gen)
    requires s.If? && n < t.n <= YieldState(hasResult, t).n <= e0.n
    requires (t.st.flag.None? ==> t.st.val.None?) && (e0.st.flag.None? ==> e0.st.val.None?)
    requires var c1 := Config(c.env[n := w.val(s.cond, c.s)], w.run(s.cond, c.s));
      if Get(c1.env, n) != 0 then
        Matches(hasResult, Sem(w, false, s, c.s, fuel), Exec(w, t.ops, c1, fuel), t.st, t.n, c1.env, n + 1)
      else Matches(hasResult, Sem(w, false, s, c.s, fuel), Exec(w, e0.ops, c1, fuel), e0.st, e0.n, c1.env, n + 1)
    ensures var j := Join(hasResult, n, YieldState(hasResult, t), YieldState(hasResult, e0));
      Matches(hasResult, Sem(w, false, s, c.s, fuel), Exec(w, [Eval(n, s.cond)] + j.ops, c, fuel), j.st, j.n, c.env, n)
  {
    hide Sem, Exec, YieldState, Join;
    var c1 := Config(c.env[n := w.val(s.cond, c.s)], w.run(s.cond, c.s));
    var o := Sem(w, false, s, c.s, fuel);
    var gt, ge := YieldState(hasResult, t), YieldState(hasResult, e0);
    if Get(c1.env, n) != 0 {
      YieldStateSays(w, hasResult, t, c1, fuel, c1.env, n + 1, o);
    } else {
      YieldStateSays(w, hasResult, e0, c1, fuel, c1.env, n + 1, o);
    }
    YieldStateNames(hasResult, e0);
    JoinSays(w, hasResult, n, gt, ge, c1, fuel, o, n + 1);
    var j := Join(hasResult, n, gt, ge);
    ExecConcat(w, [Eval(n, s.cond)], j.ops, c, fuel);
    ExecOne(w, Eval(n, s.cond), c, fuel);
    MatchesExtended(hasResult, o, Exec(w, j.ops, c1, fuel), j.st, j.n, c.env, c1.env, n, n + 1);
  }

  lemma YieldStateNames(hasResult: bool, g: Gen)
    ensures YieldState(hasResult, g).n >= g.n
  {}

  /** The branch taken, run from where the condition leaves off, is what the conditional does. */
  lemma IfTakes<S>(w: World<S>, s: Stmt, st: S, fuel: nat)
    requires s.If?
    ensures Sem(w, false, s, st, fuel) ==
            if w.val(s.cond, st) != 0 then Sem(w, false, s.thn, w.run(s.cond, st), fuel)
            else if s.els.None? then Some(Out(w.run(s.cond, st), None))
            else Sem(w, false, s.els.value, w.run(s.cond, st), fuel)
  {}

  lemma IfCorrect<S>(w: World<S>, hasResult: bool, s: Stmt, n: nat, c: Config<S>, fuel: nat)
    requires s.If?
    ensures var g := GenStmt(hasResult, s, NO_RETURN, n);
      Matches(hasResult, Sem(w, false, s, c.s, fuel), Exec(w, g.ops, c, fuel), g.st, g.n, c.env, n)
    decreases fuel, s, 0, 0
  {
    hide Exec, Sem, YieldState, Join;
    var c1 := Config(c.env[n := w.val(s.cond, c.s)], w.run(s.cond, c.s));
    var t := GenStmt(hasResult, s.thn, NO_RETURN, n + 1);
    StmtNames(hasResult, s.thn, NO_RETURN, n + 1);
    GenCorrect(w, hasResult, s.thn, NO_RETURN, n + 1, c1, None, fuel);
    FlagIffMayReturn(hasResult, s.thn, NO_RETURN, n + 1);
    YieldStateNames(hasResult, t);
    var m := if MayReturn(s) then YieldState(hasResult, t).n else t.n;
    var e := if s.els.Some? then GenStmt(hasResult, s.els.value, NO_RETURN, m) else Gen([], NO_RETURN, m);
    if s.els.Some? {
      StmtNames(hasResult, s.els.value, NO_RETURN, m);
      GenCorrect(w, hasResult, s.els.value, NO_RETURN, m, c1, None, fuel);
      FlagIffMayReturn(hasResult, s.els.value, NO_RETURN, m);
    } else {
      ExecNone(w, c1, fuel);
    }
    IfTakes(w, s, c.s, fuel);
    if MayReturn(s) {
      IfJoin(w, hasResult, s, n, c, fuel, t, e);
    } else {
      IfPlain(w, hasResult, s, n, c, fuel, t, e);
    }
  }

  lemma ExecNone<S>(w: World<S>, c: Config<S>, fuel: nat)
    ensures Exec(w, [], c, fuel) == Some(c)
  {}

  lemma {:induction false} SeqCorrect<S>(w: World<S>, hasResult: bool, ss: seq<Stmt>, st: ReturnState, n: nat,
          c: Config<S>, ret: Option<Exit>, fuel: nat)
    requires Says(hasResult, st, n, c.env, ret)
    ensures var g := GenSeq(hasResult, ss, st, n);
      Matches(hasResult, AfterSeq(w, ss, c.s, ret, fuel), Exec(w, g.ops, c, fuel), g.st, g.n, c.env, n)
    decreases fuel, ss, 0, 0
  {
    if ss != [] {
      var g := GenStmt(hasResult, ss[0], st, n);
      StmtNames(hasResult, ss[0], st, n);
      GenCorrect(w, hasResult, ss[0], st, n, c, ret, fuel);
      var r := GenSeq(hasResult, ss[1..], g.st, g.n);
      ExecConcat(w, g.ops, r.ops, c, fuel);
      var o := After(w, ss[0], c.s, ret, fuel);
      if o.Some? {
        var c1 := Exec(w, g.ops, c, fuel).value;
        SeqCorrect(w, hasResult, ss[1..], g.st, g.n, c1, o.value.ret, fuel);
        MatchesExtended(hasResult, AfterSeq(w, ss[1..], c1.s, o.value.ret, fuel), Exec(w, r.ops, c1, fuel), r.st, r.n,
            c.env, c1.env, n, g.n);
      }
    }
  }

  /** Loop bodies start from no return state and their final one is dropped. */
  lemma {:induction false} ForCorrect<S>(w: World<S>, hasResult: bool, v: nat, body: Stmt, n: nat, i: int, hi: int,
          c: Config<S>, fuel: nat)
    ensures ExecFor(w, v, GenStmt(hasResult, body, NO_RETURN, n).ops, i, hi, c, fuel) ==
            match SemFor(w, false, v, body, i, hi, c.s, fuel) case None => None case Some(o) => Some(c.(s := o.s))
    ensures SemFor(w, false, v, body, i, hi, c.s, fuel).Some? ==>
      SemFor(w, false, v, body, i, hi, c.s, fuel).value.ret.None?
    decreases fuel, body, 2, if hi > i then hi - i else 0
  {
    if i < hi {
      var c1 := c.(s := w.assign(v, i, c.s));
      GenCorrect(w, hasResult, body, NO_RETURN, n, c1, None, fuel);
      var o := Sem(w, false, body, c1.s, fuel);
      if o.Some? {
        ForCorrect(w, hasResult, v, body, n, i + 1, hi, c.(s := o.value.s), fuel);
      }
    }
  }

  lemma {:induction false} WhileCorrect<S>(w: World<S>, hasResult: bool, e: nat, body: Stmt, n: nat, c: Config<S>,
          fuel: nat)
    ensures ExecOp(w, WhileOp(e, GenStmt(hasResult, body, NO_RETURN, n).ops), c, fuel) ==
            match Sem(w, false, While(e, body), c.s, fuel) case None => None case Some(o) => Some(c.(s := o.s))
    ensures Sem(w, false, While(e, body), c.s, fuel).Some? ==> Sem(w, false, While(e, body), c.s, fuel).value.ret.None?
    decreases fuel, body, 2, 0
  {
    if w.val(e, c.s) != 0 {
      var c1 := c.(s := w.run(e, c.s));
      GenCorrect(w, hasResult, body, NO_RETURN, n, c1, None, fuel);
      var o := Sem(w, false, body, c1.s, fuel);
      if o.Some? && fuel > 0 {
        WhileCorrect(w, hasResult, e, body, n, c.(s := o.value.s), fuel - 1);
      }
    }
  }

  // ----- functions

  /** A generated function ends in a return when its body yields a flag, it has no result, or it is
      the unit entry point, which returns 0. */
  predicate Terminated(hasResult: bool, entry: bool, body: Stmt) {
    GenStmt(hasResult, body, NO_RETURN, 0).st.flag.Some? || !hasResult || entry
  }

  /** Running the generated function: its final state and the one value it returns. */
  function RunFunction<S>(w: World<S>, hasResult: bool, entry: bool, body: Stmt, st: S, fuel: nat): Option<(S, int)>
    requires Terminated(hasResult, entry, body)
  {
    var g := GenStmt(hasResult, body, NO_RETURN, 0);
    match Exec(w, g.ops, Config(map[], st), fuel)
    case None => None
    case Some(c) =>
      Some((c.s, if g.st.flag.Some? && hasResult && g.st.val.Some? then Get(c.env, g.st.val.value) else DEFAULT_VALUE))
  }

  /** What direct execution of a function body returns. */
  function CallDirectly<S>(w: World<S>, escape: bool, hasResult: bool, body: Stmt, st: S, fuel: nat): Option<(S, int)> {
    match Sem(w, escape, body, st, fuel)
    case None => None
    case Some(o) => Some((o.s, if hasResult then Returned(o.ret) else 0))
  }

  /** For every statement tree the generated function does what direct execution does when a return
      inside a loop only ends the iteration. */
  lemma FunctionCorrect<S>(w: World<S>, hasResult: bool, entry: bool, body: Stmt, st: S, fuel: nat)
    requires Terminated(hasResult, entry, body)
    ensures RunFunction(w, hasResult, entry, body, st, fuel) == CallDirectly(w, false, hasResult, body, st, fuel)
  {
    hide Exec, Sem, GenStmt;
    SaysNothing(hasResult, 0, map[]);
    GenCorrect(w, hasResult, body, NO_RETURN, 0, Config(map[], st), None, fuel);
  }

  /** A return anywhere in a statement, loops included. */
  predicate HasReturn(s: Stmt) {
    match s
    case Return(_) => true
    case Block(ss) => AnyHasReturn(ss)
    case If(_, t, e) => HasReturn(t) || (e.Some? && HasReturn(e.value))
    case For(_, _, _, _, b) => HasReturn(b)
    case While(_, b) => HasReturn(b)
    case Eff(_) => false
  }

  predicate AnyHasReturn(ss: seq<Stmt>) {
    ss != [] && (HasReturn(ss[0]) || AnyHasReturn(ss[1..]))
  }

  /** Some run leaves `s` at its end: no return ends every run of it.  Loops may run no iteration. */
  predicate FallsThrough(s: Stmt) {
    match s
    case Return(_) => false
    case Block(ss) => AllFallThrough(ss)
    case If(_, t, e) => FallsThrough(t) || e.None? || FallsThrough(e.value)
    case _ => true
  }

  predicate AllFallThrough(ss: seq<Stmt>) {
    ss == [] || (FallsThrough(ss[0]) && AllFallThrough(ss[1..]))
  }

  /** A return under some loop that is not behind a statement which always returns. */
  predicate LiveLoopReturn(s: Stmt) {
    match s
    case Block(ss) => AnyLiveLoopReturn(ss)
    case If(_, t, e) => LiveLoopReturn(t) || (e.Some? && LiveLoopReturn(e.value))
    case For(_, _, _, _, b) => HasReturn(b)
    case While(_, b) => HasReturn(b)
    case _ => false
  }

  predicate AnyLiveLoopReturn(ss: seq<Stmt>) {
    ss != [] && (LiveLoopReturn(ss[0]) || (FallsThrough(ss[0]) && AnyLiveLoopReturn(ss[1..])))
  }

  ghost predicate StaysIn<S>(o: Option<Out<S>>) { o.Some? ==> o.value.ret.None? }

  /** A run that does not return is the same with and without escaping from loops. */
  lemma {:induction false} NoEscape<S>(w: World<S>, s: Stmt, st: S, fuel: nat)
    requires StaysIn(Sem(w, true, s, st, fuel))
    ensures Sem(w, false, s, st, fuel) == Sem(w, true, s, st, fuel)
    decreases fuel, s, 0
  {
    match s
    case Eff(_) =>
    case If(c, t, e) =>
      if w.val(c, st) != 0 {
        NoEscape(w, t, w.run(c, st), fuel);
      } else if e.Some? {
        NoEscape(w, e.value, w.run(c, st), fuel);
      }
    case Block(ss) => NoEscapeSeq(w, ss, st, fuel);
    case Return(_) =>
    case For(v, lo, hi, incl, body) =>
      var s1 := w.run(lo, st);
      NoEscapeFor(w, v, body, w.val(lo, st), w.val(hi, s1) + (if incl then 1 else 0), w.run(hi, s1), fuel);
    case While(c, body) =>
      if w.val(c, st) != 0 {
        NoEscape(w, body, w.run(c, st), fuel);
        var o := Sem(w, true, body, w.run(c, st), fuel);
        if o.Some? && fuel > 0 { NoEscape(w, s, o.value.s, fuel - 1); }
      }
  }

  lemma {:induction false} NoEscapeSeq<S>(w: World<S>, ss: seq<Stmt>, st: S, fuel: nat)
    requires StaysIn(SemSeq(w, true, ss, st, fuel))
    ensures SemSeq(w, false, ss, st, fuel) == SemSeq(w, true, ss, st, fuel)
    decreases fuel, ss, 0
  {
    if ss != [] {
      NoEscape(w, ss[0], st, fuel);
      var o := Sem(w, true, ss[0], st, fuel);
      if o.Some? { NoEscapeSeq(w, ss[1..], o.value.s, fuel); }
    }
  }

  lemma {:induction false} NoEscapeFor<S>(w: World<S>, v: nat, body: Stmt, i: int, hi: int, st: S, fuel: nat)
    requires StaysIn(SemFor(w, true, v, body, i, hi, st, fuel))
    ensures SemFor(w, false, v, body, i, hi, st, fuel) == SemFor(w, true, v, body, i, hi, st, fuel)
    decreases fuel, body, 1 + if hi > i then hi - i else 0
  {
    if i < hi {
      NoEscape(w, body, w.assign(v, i, st), fuel);
      var o := Sem(w, true, body, w.assign(v, i, st), fuel);
      if o.Some? { NoEscapeFor(w, v, body, i + 1, hi, o.value.s, fuel); }
    }
  }

  /** Nothing without a return returns. */
  lemma {:induction false} NoReturnStays<S>(w: World<S>, s: Stmt, st: S, fuel: nat)
    requires !HasReturn(s)
    ensures StaysIn(Sem(w, true, s, st, fuel))
    decreases fuel, s, 0
  {
    match s
    case Eff(_) =>
    case If(c, t, e) =>
      if w.val(c, st) != 0 {
        NoReturnStays(w, t, w.run(c, st), fuel);
      } else if e.Some? {
        NoReturnStays(w, e.value, w.run(c, st), fuel);
      }
    case Block(ss) => NoReturnStaysSeq(w, ss, st, fuel);
    case For(v, lo, hi, incl, body) =>
      var s1 := w.run(lo, st);
      NoReturnStaysFor(w, v, body, w.val(lo, st), w.val(hi, s1) + (if incl then 1 else 0), w.run(hi, s1), fuel);
    case While(c, body) =>
      if w.val(c, st) != 0 {
        NoReturnStays(w, body, w.run(c, st), fuel);
        var o := Sem(w, true, body, w.run(c, st), fuel);
        if o.Some? && fuel > 0 { NoReturnStays(w, s, o.value.s, fuel - 1); }
      }
  }

  lemma {:induction false} NoReturnStaysSeq<S>(w: World<S>, ss: seq<Stmt>, st: S, fuel: nat)
    requires !AnyHasReturn(ss)
    ensures StaysIn(SemSeq(w, true, ss, st, fuel))
    decreases fuel, ss, 0
  {
    if ss != [] {
      NoReturnStays(w, ss[0], st, fuel);
      var o := Sem(w, true, ss[0], st, fuel);
      if o.Some? { NoReturnStaysSeq(w, ss[1..], o.value.s, fuel); }
    }
  }

  lemma {:induction false} NoReturnStaysFor<S>(w: World<S>, v: nat, body: Stmt, i: int, hi: int, st: S, fuel: nat)
    requires !HasReturn(body)
    ensures StaysIn(SemFor(w, true, v, body, i, hi, st, fuel))
    decreases fuel, body, 1 + if hi > i then hi - i else 0
  {
    if i < hi {
      NoReturnStays(w, body, w.assign(v, i, st), fuel);
      var o := Sem(w, true, body, w.assign(v, i, st), fuel);
      if o.Some? { NoReturnStaysFor(w, v, body, i + 1, hi, o.value.s, fuel); }
    }
  }

  /** A statement that never falls through returns. */
  lemma {:induction false} AlwaysReturns<S>(w: World<S>, s: Stmt, st: S, fuel: nat)
    requires !FallsThrough(s)
    ensures var o := Sem(w, true, s, st, fuel); o.Some? ==> o.value.ret.Some?
    decreases s, 0
  {
    match s
    case If(c, t, e) =>
      AlwaysReturns(w, if w.val(c, st) != 0 then t else e.value, w.run(c, st), fuel);
    case Block(ss) => AlwaysReturnsSeq(w, ss, st, fuel);
    case Return(_) =>
  }

  lemma {:induction false} AlwaysReturnsSeq<S>(w: World<S>, ss: seq<Stmt>, st: S, fuel: nat)
    requires !AllFallThrough(ss)
    ensures var o := SemSeq(w, true, ss, st, fuel); o.Some? ==> o.value.ret.Some?
    decreases ss, 0
  {
    if !FallsThrough(ss[0]) {
      AlwaysReturns(w, ss[0], st, fuel);
    } else {
      var o := Sem(w, true, ss[0], st, fuel);
      if o.Some? { AlwaysReturnsSeq(w, ss[1..], o.value.s, fuel); }
    }
  }

  lemma {:induction false} NoLiveLoopReturn<S>(w: World<S>, s: Stmt, st: S, fuel: nat)
    requires !LiveLoopReturn(s)
    ensures Sem(w, false, s, st, fuel) == Sem(w, true, s, st, fuel)
    decreases s, 0
  {
    match s
    case Eff(_) =>
    case If(c, t, e) =>
      if w.val(c, st) != 0 {
        NoLiveLoopReturn(w, t, w.run(c, st), fuel);
      } else if e.Some? {
        NoLiveLoopReturn(w, e.value, w.run(c, st), fuel);
      }
    case Block(ss) => NoLiveLoopReturnSeq(w, ss, st, fuel);
    case Return(_) =>
    case _ =>
      NoReturnStays(w, s, st, fuel);
      NoEscape(w, s, st, fuel);
  }

  lemma {:induction false} NoLiveLoopReturnSeq<S>(w: World<S>, ss: seq<Stmt>, st: S, fuel: nat)
    requires !AnyLiveLoopReturn(ss)
    ensures SemSeq(w, false, ss, st, fuel) == SemSeq(w, true, ss, st, fuel)
    decreases ss, 0
  {
    if ss != [] {
      NoLiveLoopReturn(w, ss[0], st, fuel);
      var o := Sem(w, true, ss[0], st, fuel);
      if !FallsThrough(ss[0]) {
        AlwaysReturns(w, ss[0], st, fuel);
      } else if o.Some? {
        NoLiveLoopReturnSeq(w, ss[1..], o.value.s, fuel);
      }
    }
  }

  /** With no live return under a loop, the generated function is direct execution with early exit:
      same final state, same returned value, and the default value when no return is reached. */
  lemma EarlyReturnPreserved<S>(w: World<S>, hasResult: bool, entry: bool, body: Stmt, st: S, fuel: nat)
    requires Terminated(hasResult, entry, body) && !LiveLoopReturn(body)
    ensures RunFunction(w, hasResult, entry, body, st, fuel) == CallDirectly(w, true, hasResult, body, st, fuel)
  {
    FunctionCorrect(w, hasResult, entry, body, st, fuel);
    NoLiveLoopReturn(w, body, st, fuel);
  }

  /** What the generated function returns: 0 when direct execution reaches no return or one without
      a value, and otherwise the value returned. */
  lemma ReturnedValue<S>(w: World<S>, hasResult: bool, entry: bool, body: Stmt, st: S, fuel: nat)
    requires Terminated(hasResult, entry, body) && !LiveLoopReturn(body)
    ensures var o, r := Sem(w, true, body, st, fuel), RunFunction(w, hasResult, entry, body, st, fuel);
      && (r.Some? <==> o.Some?)
      && (o.Some? && (o.value.ret.None? || o.value.ret.value == Bare) ==> r.value.1 == 0)
      && (o.Some? && o.value.ret.Some? && o.value.ret.value.With? && hasResult ==> r.value.1 == o.value.ret.value.v)
  {
    hide Sem, RunFunction;
    EarlyReturnPreserved(w, hasResult, entry, body, st, fuel);
  }

  /** A function with a result that is not the entry point ends in a return exactly when some return
      is outside all loops. */
  lemma TerminatedExactly(hasResult: bool, entry: bool, body: Stmt)
    ensures Terminated(hasResult, entry, body) <==> !hasResult || entry || MayReturn(body)
  {
    hide GenStmt;
    FlagIffMayReturn(hasResult, body, NO_RETURN, 0);
  }

  // ----- exactly when

  /** States that decide every expression in advance: the values the next expressions will have,
      0 when they run out, and the number of steps taken so far. */
  datatype Tape = Tape(vals: seq<int>, steps: nat)

  function Playing(): World<Tape> {
    World((e: nat, t: Tape) => Tape(if t.vals == [] then [] else t.vals[1..], t.steps + 1),
          (e: nat, t: Tape) => if t.vals == [] then 0 else t.vals[0],
          (v: nat, i: int, t: Tape) => t.(steps := t.steps + 1))
  }

  /** A run that ends with the tape played, `n` steps or more after the start. */
  predicate PlaysOut(o: Option<Out<Tape>>, n: nat) {
    o.Some? && o.value.s.vals == [] && o.value.s.steps >= n
  }

  /** On an empty tape everything ends. */
  lemma {:induction false} EmptyEnds(s: Stmt, k: nat, fuel: nat)
    ensures PlaysOut(Sem(Playing(), false, s, Tape([], k), fuel), k)
    decreases s, 0
  {
    match s
    case If(_, t, e) => if e.Some? { EmptyEnds(e.value, k + 1, fuel); }
    case Block(ss) => EmptyEndsSeq(ss, k, fuel);
    case For(v, _, _, incl, body) => EmptyEndsFor(v, body, 0, if incl then 1 else 0, k + 2, fuel);
    case _ =>
  }

  lemma {:induction false} EmptyEndsSeq(ss: seq<Stmt>, k: nat, fuel: nat)
    ensures PlaysOut(SemSeq(Playing(), false, ss, Tape([], k), fuel), k)
    decreases ss, 0
  {
    if ss != [] {
      EmptyEnds(ss[0], k, fuel);
      EmptyEndsSeq(ss[1..], Sem(Playing(), false, ss[0], Tape([], k), fuel).value.s.steps, fuel);
    }
  }

  lemma {:induction false} EmptyEndsFor(v: nat, body: Stmt, i: int, hi: int, k: nat, fuel: nat)
    ensures PlaysOut(SemFor(Playing(), false, v, body, i, hi, Tape([], k), fuel), if i < hi then k + 1 else k)
    decreases body, 1 + if hi > i then hi - i else 0
  {
    if i < hi {
      EmptyEnds(body, k + 1, fuel);
      EmptyEndsFor(v, body, i + 1, hi, Sem(Playing(), false, body, Tape([], k + 1), fuel).value.s.steps, fuel);
    }
  }

  lemma {:induction false} NoReturnFalls(s: Stmt)
    ensures HasReturn(s) || FallsThrough(s)
    decreases s, 0
  {
    match s
    case If(_, t, e) => NoReturnFalls(t);
    case Block(ss) => NoReturnFallsSeq(ss);
    case _ =>
  }

  lemma {:induction false} NoReturnFallsSeq(ss: seq<Stmt>)
    ensures AnyHasReturn(ss) || AllFallThrough(ss)
    decreases ss, 0
  {
    if ss != [] {
      NoReturnFalls(ss[0]);
      NoReturnFallsSeq(ss[1..]);
    }
  }

  /** Values that take execution to the end of `s`. */
  function PassVals(s: Stmt): seq<int>
    requires FallsThrough(s)
    decreases s, 0
  {
    match s
    case Block(ss) => PassAll(ss)
    case If(_, t, e) => if FallsThrough(t) then [1] + PassVals(t) else [0] + if e.Some? then PassVals(e.value) else []
    case For(_, _, _, _, _) => [0, -1]
    case _ => [0]
  }

  function PassAll(ss: seq<Stmt>): seq<int>
    requires AllFallThrough(ss)
    decreases ss, 0
  {
    if ss == [] then [] else PassVals(ss[0]) + PassAll(ss[1..])
  }

  /** Playing the first value. */
  lemma Played(v: int, vals: seq<int>)
    ensures ([v] + vals)[0] == v && ([v] + vals)[1..] == vals
  {}

  /** A conditional whose condition plays v. */
  lemma IfPlays(escape: bool, s: Stmt, v: int, vals: seq<int>, k: nat, fuel: nat)
    requires s.If?
    ensures Sem(Playing(), escape, s, Tape([v] + vals, k), fuel) ==
            if v != 0 then Sem(Playing(), escape, s.thn, Tape(vals, k + 1), fuel)
            else if s.els.None? then Some(Out(Tape(vals, k + 1), None))
            else Sem(Playing(), escape, s.els.value, Tape(vals, k + 1), fuel)
  {
    Played(v, vals);
  }

  lemma IfPlaysBoth(s: Stmt, v: int, vals: seq<int>, k: nat, fuel: nat)
    requires s.If? && (v == 0 ==> s.els.Some?)
    ensures var taken := if v != 0 then s.thn else s.els.value;
      && Sem(Playing(), true, s, Tape([v] + vals, k), fuel) == Sem(Playing(), true, taken, Tape(vals, k + 1), fuel)
      && Sem(Playing(), false, s, Tape([v] + vals, k), fuel) == Sem(Playing(), false, taken, Tape(vals, k + 1), fuel)
  {
    hide Sem;
    IfPlays(true, s, v, vals, k, fuel);
    IfPlays(false, s, v, vals, k, fuel);
  }

  /** A `for` loop that runs no iteration. */
  lemma ForPasses(escape: bool, s: Stmt, rest: seq<int>, k: nat, fuel: nat)
    requires s.For?
    ensures Sem(Playing(), escape, s, Tape([0, -1] + rest, k), fuel) == Some(Out(Tape(rest, k + 2), None))
  {
    assert [0, -1] + rest == [0] + ([-1] + rest);
    Played(0, [-1] + rest);
    Played(-1, rest);
  }

  lemma {:induction false} Passes(s: Stmt, rest: seq<int>, k: nat, fuel: nat, escape: bool)
    requires FallsThrough(s)
    ensures Sem(Playing(), escape, s, Tape(PassVals(s) + rest, k), fuel) ==
      Some(Out(Tape(rest, k + |PassVals(s)|), None))
    decreases s, 1
  {
    match s
    case Block(ss) => PassesAll(ss, rest, k, fuel, escape);
    case If(_, t, e) => PassesIf(s, rest, k, fuel, escape);
    case For(_, _, _, _, _) => ForPasses(escape, s, rest, k, fuel);
    case _ => Played(0, rest);
  }

  lemma {:induction false} PassesIf(s: Stmt, rest: seq<int>, k: nat, fuel: nat, escape: bool)
    requires s.If? && FallsThrough(s)
    ensures Sem(Playing(), escape, s, Tape(PassVals(s) + rest, k), fuel) ==
      Some(Out(Tape(rest, k + |PassVals(s)|), None))
    decreases s, 0
  {
    hide Sem;
    if FallsThrough(s.thn) || s.els.Some? {
      var v, taken := if FallsThrough(s.thn) then 1 else 0, if FallsThrough(s.thn) then s.thn else s.els.value;
      assert PassVals(s) + rest == [v] + (PassVals(taken) + rest);
      IfPlays(escape, s, v, PassVals(taken) + rest, k, fuel);
      Passes(taken, rest, k + 1, fuel, escape);
    } else {
      assert PassVals(s) + rest == [0] + rest;
      IfPlays(escape, s, 0, rest, k, fuel);
    }
  }

  lemma {:induction false} PassesAll(ss: seq<Stmt>, rest: seq<int>, k: nat, fuel: nat, escape: bool)
    requires AllFallThrough(ss)
    ensures SemSeq(Playing(), escape, ss, Tape(PassAll(ss) + rest, k), fuel) ==
      Some(Out(Tape(rest, k + |PassAll(ss)|), None))
    decreases ss, 0
  {
    if ss != [] {
      assert PassAll(ss) + rest == PassVals(ss[0]) + (PassAll(ss[1..]) + rest);
      Passes(ss[0], PassAll(ss[1..]) + rest, k, fuel, escape);
      PassesAll(ss[1..], rest, k + |PassVals(ss[0])|, fuel, escape);
    } else {
      assert PassAll(ss) + rest == rest;
    }
  }

  /** Values that take execution to a return in `s`, in a second-to-last iteration of its loops. */
  function ReturnVals(s: Stmt): seq<int>
    requires HasReturn(s)
    decreases s, 0
  {
    match s
    case Return(r) => if r.Some? then [0] else []
    case Block(ss) => ReturnAll(ss)
    case If(_, t, e) => if HasReturn(t) then [1] + ReturnVals(t) else [0] + ReturnVals(e.value)
    case For(_, _, _, incl, b) => [0, if incl then 1 else 2] + ReturnVals(b)
    case While(_, b) => [1] + ReturnVals(b)
  }

  function ReturnAll(ss: seq<Stmt>): seq<int>
    requires AnyHasReturn(ss)
    decreases ss, 0
  {
    NoReturnFalls(ss[0]);
    if HasReturn(ss[0]) then ReturnVals(ss[0]) else PassVals(ss[0]) + ReturnAll(ss[1..])
  }

  /** With escape a run returns and plays the tape out; without it the run goes on from there. */
  predicate GoesOn(direct: Option<Out<Tape>>, lowered: Option<Out<Tape>>, more: nat) {
    PlaysOut(direct, 0) && direct.value.ret.Some? && PlaysOut(lowered, direct.value.s.steps + more)
  }

  /** A loop that returns in one iteration goes on with another when the return only ends the first. */
  lemma {:induction false} Returns(s: Stmt, k: nat, fuel: nat)
    requires HasReturn(s) && fuel > 0
    ensures var t := Tape(ReturnVals(s), k);
      GoesOn(Sem(Playing(), true, s, t, fuel), Sem(Playing(), false, s, t, fuel), if s.For? || s.While? then 1 else 0)
    decreases s, 1
  {
    match s
    case Return(_) =>
    case Block(ss) => ReturnsSeq(ss, k, fuel);
    case If(_, t, e) =>
      hide Sem;
      var taken := if HasReturn(t) then t else e.value;
      IfPlaysBoth(s, if HasReturn(t) then 1 else 0, ReturnVals(taken), k, fuel);
      Returns(taken, k + 1, fuel);
    case For(_, _, _, _, _) => ReturnsFor(s, k, fuel);
    case While(_, b) =>
      Played(1, ReturnVals(b));
      Returns(b, k + 1, fuel);
  }

  lemma {:induction false} ReturnsFor(s: Stmt, k: nat, fuel: nat)
    requires s.For? && HasReturn(s) && fuel > 0
    ensures var t := Tape(ReturnVals(s), k);
      GoesOn(Sem(Playing(), true, s, t, fuel), Sem(Playing(), false, s, t, fuel), 1)
    decreases s, 0
  {
    var vals, hi := ReturnVals(s.body), if s.inclusive then 1 else 2;
    assert ReturnVals(s) == [0] + ([hi] + vals);
    Played(0, [hi] + vals);
    Played(hi, vals);
    Returns(s.body, k + 3, fuel);
    EmptyEndsFor(s.v, s.body, 1, 2, Sem(Playing(), false, s.body, Tape(vals, k + 3), fuel).value.s.steps, fuel);
  }

  lemma {:induction false} ReturnsSeq(ss: seq<Stmt>, k: nat, fuel: nat)
    requires AnyHasReturn(ss) && fuel > 0
    ensures var t := Tape(ReturnAll(ss), k);
      GoesOn(SemSeq(Playing(), true, ss, t, fuel), SemSeq(Playing(), false, ss, t, fuel), 0)
    decreases ss, 0
  {
    if HasReturn(ss[0]) {
      Returns(ss[0], k, fuel);
      var o := Sem(Playing(), false, ss[0], Tape(ReturnAll(ss), k), fuel).value;
      EmptyEndsSeq(ss[1..], o.s.steps, fuel);
    } else {
      NoReturnFalls(ss[0]);
      forall escape: bool { Passes(ss[0], ReturnAll(ss[1..]), k, fuel, escape); }
      ReturnsSeq(ss[1..], k + |PassVals(ss[0])|, fuel);
    }
  }

  /** Values that take execution to a return under a loop. */
  function LiveVals(s: Stmt): seq<int>
    requires LiveLoopReturn(s)
    decreases s, 0
  {
    match s
    case Block(ss) => LiveAll(ss)
    case If(_, t, e) => if LiveLoopReturn(t) then [1] + LiveVals(t) else [0] + LiveVals(e.value)
    case For(_, _, _, _, _) => ReturnVals(s)
    case While(_, _) => ReturnVals(s)
  }

  function LiveAll(ss: seq<Stmt>): seq<int>
    requires AnyLiveLoopReturn(ss)
    decreases ss, 0
  {
    if LiveLoopReturn(ss[0]) then LiveVals(ss[0]) else PassVals(ss[0]) + LiveAll(ss[1..])
  }

  /** A live return under a loop makes the two runs part: the lowered one takes further steps. */
  lemma {:induction false} Parts(s: Stmt, k: nat, fuel: nat)
    requires LiveLoopReturn(s) && fuel > 0
    ensures var t := Tape(LiveVals(s), k);
      GoesOn(Sem(Playing(), true, s, t, fuel), Sem(Playing(), false, s, t, fuel), 1)
    decreases s, 0
  {
    match s
    case Block(ss) => PartsSeq(ss, k, fuel);
    case If(_, t, e) =>
      var taken := if LiveLoopReturn(t) then t else e.value;
      IfPlaysBoth(s, if LiveLoopReturn(t) then 1 else 0, LiveVals(taken), k, fuel);
      Parts(taken, k + 1, fuel);
    case For(_, _, _, _, _) => Returns(s, k, fuel);
    case While(_, _) => Returns(s, k, fuel);
  }

  lemma {:induction false} PartsSeq(ss: seq<Stmt>, k: nat, fuel: nat)
    requires AnyLiveLoopReturn(ss) && fuel > 0
    ensures var t := Tape(LiveAll(ss), k);
      GoesOn(SemSeq(Playing(), true, ss, t, fuel), SemSeq(Playing(), false, ss, t, fuel), 1)
    decreases ss, 0
  {
    if LiveLoopReturn(ss[0]) {
      Parts(ss[0], k, fuel);
      var o := Sem(Playing(), false, ss[0], Tape(LiveAll(ss), k), fuel).value;
      EmptyEndsSeq(ss[1..], o.s.steps, fuel);
    } else {
      forall escape: bool { Passes(ss[0], LiveAll(ss[1..]), k, fuel, escape); }
      PartsSeq(ss[1..], k + |PassVals(ss[0])|, fuel);
    }
  }

  /** The generated function is direct execution with early exit in every world whose states are
      tapes. */
  ghost predicate AlwaysPreserved(hasResult: bool, entry: bool, body: Stmt)
    requires Terminated(hasResult, entry, body)
  {
    forall w: World<Tape>, st: Tape, fuel: nat ::
      RunFunction(w, hasResult, entry, body, st, fuel) == CallDirectly(w, true, hasResult, body, st, fuel)
  }

  /** Early returns are lowered correctly exactly when no live return is under a loop.  When one is,
      there is a run on which both end, in different states. */
  lemma EarlyReturnExact(hasResult: bool, entry: bool, body: Stmt)
    requires Terminated(hasResult, entry, body)
    ensures AlwaysPreserved(hasResult, entry, body) <==> !LiveLoopReturn(body)
    ensures LiveLoopReturn(body) ==> exists st: Tape ::
              var r, d := RunFunction(Playing(), hasResult, entry, body, st, 1),
                CallDirectly(Playing(), true, hasResult, body, st, 1);
              r.Some? && d.Some? && r.value.0 != d.value.0
  {
    hide Sem, RunFunction;
    if LiveLoopReturn(body) {
      var st := Tape(LiveVals(body), 0);
      Parts(body, 0, 1);
      FunctionCorrect(Playing(), hasResult, entry, body, st, 1);
    } else {
      forall w: World<Tape>, st: Tape, fuel: nat
        ensures RunFunction(w, hasResult, entry, body, st, fuel) == CallDirectly(w, true, hasResult, body, st, fuel)
      {
        EarlyReturnPreserved(w, hasResult, entry, body, st, fuel);
      }
    }
  }

  /** A loop's own code does what the loop does, in every world whose states are tapes. */
  ghost predicate LoopLowered(hasResult: bool, s: Stmt, n: nat) {
    var g := GenStmt(hasResult, s, NO_RETURN, n);
    forall w: World<Tape>, c: Config<Tape>, fuel: nat ::
      Matches(hasResult, Sem(w, true, s, c.s, fuel), Exec(w, g.ops, c, fuel), g.st, g.n, c.env, n)
  }

  /** A loop is lowered correctly exactly when its body has no return. */
  lemma LoopLoweredExactlyWhen(hasResult: bool, s: Stmt, n: nat)
    requires s.For? || s.While?
    ensures LoopLowered(hasResult, s, n) <==> !HasReturn(s)
  {
    hide Exec, Sem;
    var g := GenStmt(hasResult, s, NO_RETURN, n);
    assert g.st == NO_RETURN;
    if HasReturn(s) {
      var c: Config<Tape> := Config(map[], Tape(ReturnVals(s), 0));
      Returns(s, 0, 1);
      assert !Matches(hasResult, Sem(Playing(), true, s, c.s, 1), Exec(Playing(), g.ops, c, 1), g.st, g.n, c.env, n);
    } else {
      forall w: World<Tape>, c: Config<Tape>, fuel: nat
        ensures Matches(hasResult, Sem(w, true, s, c.s, fuel), Exec(w, g.ops, c, fuel), g.st, g.n, c.env, n)
      {
        NoReturnStays(w, s, c.s, fuel);
        NoEscape(w, s, c.s, fuel);
        SaysNothing(hasResult, n, c.env);
        GenCorrect(w, hasResult, s, NO_RETURN, n, c, None, fuel);
      }
    }
  }

  /** Expressions that are literals. */
  function Literals(): World<int> {
    World((e: nat, s: int) => s, (e: nat, s: int) => e, (v: nat, i: int, s: int) => s)
  }

  /** `for v in 0..1 { return 7 } return 5` returns 7, and its generated code returns 5. */
  lemma ReturnInLoopDropped(st: int)
    ensures var body := Block([For(0, 0, 1, false, Return(Some(7))), Return(Some(5))]);
      var r, d := RunFunction(Literals(), true, false, body, st, 0), CallDirectly(Literals(), true, true, body, st, 0);
      r.Some? && r.value.1 == 5 && d.Some? && d.value.1 == 7
  {
    var w := Literals();
    var loop, last := For(0, 0, 1, false, Return(Some(7))), Return(Some(5));
    var body := Block([loop, last]);
    assert [loop, last][1..] == [last] && [last][1..] == [];
    FlagIffMayReturn(true, body, NO_RETURN, 0);
    assert AnyMayReturn([last]);
    FunctionCorrect(w, true, false, body, st, 0);
    forall escape: bool
      ensures Sem(w, escape, body, st, 0).Some?
        && Sem(w, escape, body, st, 0).value.ret == Some(With(if escape then 7 else 5))
    {
      var st1 := w.run(1, w.run(0, st));
      var st2 := w.run(7, w.assign(0, 0, st1));
      assert Sem(w, escape, loop, st, 0) == SemFor(w, escape, 0, loop.body, 0, 1, st1, 0);
      assert SemFor(w, escape, 0, loop.body, 1, 1, st2, 0) == Some(Out(st2, None));
      assert Sem(w, escape, last, st2, 0).value.ret == Some(With(5));
      assert SemSeq(w, escape, [last], st2, 0).value.ret == Some(With(5));
    }
  }
}
