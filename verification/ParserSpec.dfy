/** What the expression parser computes, as functions on the token buffer. */
module ParserSpec {
  import opened Wrappers
  import opened Syntax

  /** A token buffer ends with its only end-of-file token. */
  ghost predicate Buffer(ts: seq<Token>) {
    ts != [] && ts[|ts| - 1] == Eof && forall i :: 0 <= i < |ts| - 1 ==> ts[i] != Eof
  }

  /** A tree, a null result, or a construct outside this model (calls, macros, arrays). */
  datatype Outcome<T> = Got(tree: T) | Null | Outside

  datatype Parsed<T> = Parsed(out: Outcome<T>, pos: nat)

  function ParseType(ts: seq<Token>, i: nat): (r: Parsed<TypeTree>)
    requires Buffer(ts) && i < |ts|
    ensures i <= r.pos < |ts| && (r.out.Got? ==> i < r.pos) && !r.out.Outside?
    decreases |ts| - i, 1
  {
    match ts[i]
    case Ident(id) => Parsed(Got(Name(id)), i + 1)
    case Op(Star) => PointerType(ts, i)
    case Op(Amp) => ReferenceType(ts, i)
    case LBracket => ArrayType(ts, i)
    case _ => Parsed(Null, i)
  }

  /** The qualifier a raw pointer needs; its absence is reported and parsing goes on. */
  function Qualifier(t: Token): Option<bool> {
    if t == Mut then Some(true) else if t == Const then Some(false) else None
  }

  function PointerType(ts: seq<Token>, i: nat): (r: Parsed<TypeTree>)
    requires Buffer(ts) && i < |ts| && ts[i] == Op(Star)
    ensures i <= r.pos < |ts| && (r.out.Got? ==> i < r.pos) && !r.out.Outside?
    decreases |ts| - i, 0
  {
    var q := Qualifier(ts[i + 1]);
    var p := ParseType(ts, if q.Some? then i + 2 else i + 1);
    if p.out.Got? then Parsed(Got(Pointer(q, p.out.tree)), p.pos) else p
  }

  function ReferenceType(ts: seq<Token>, i: nat): (r: Parsed<TypeTree>)
    requires Buffer(ts) && i < |ts| && ts[i] == Op(Amp)
    ensures i <= r.pos < |ts| && (r.out.Got? ==> i < r.pos) && !r.out.Outside?
    decreases |ts| - i, 0
  {
    var isMut := ts[i + 1] == Mut;
    var p := ParseType(ts, if isMut then i + 2 else i + 1);
    if p.out.Got? then Parsed(Got(Reference(isMut, p.out.tree)), p.pos) else p
  }

  function ArrayType(ts: seq<Token>, i: nat): (r: Parsed<TypeTree>)
    requires Buffer(ts) && i < |ts| && ts[i] == LBracket
    ensures i <= r.pos < |ts| && (r.out.Got? ==> i < r.pos) && !r.out.Outside?
    decreases |ts| - i, 0
  {
    var p := ParseType(ts, i + 1);
    if !p.out.Got? then p
    else if ts[p.pos] != Semicolon then Parsed(Null, p.pos)
    else if !ts[p.pos + 1].IntLit? then Parsed(Null, p.pos + 1)
    else if ts[p.pos + 2] != RBracket then Parsed(Null, p.pos + 2)
    else Parsed(Got(Array(p.out.tree, ts[p.pos + 1].id)), p.pos + 3)
  }

  function Primary(ts: seq<Token>, i: nat): (r: Parsed<Tree>)
    requires Buffer(ts) && i < |ts|
    ensures i <= r.pos < |ts| && (r.out.Got? ==> i < r.pos)
    decreases |ts| - i, 1
  {
    match ts[i]
    case IntLit(_) => Parsed(Got(Leaf(ts[i])), i + 1)
    case FloatLit(_) => Parsed(Got(Leaf(ts[i])), i + 1)
    case StrLit(_, ok) => Parsed(if ok then Got(Leaf(ts[i])) else Null, i + 1)
    case True => Parsed(Got(Leaf(ts[i])), i + 1)
    case False => Parsed(Got(Leaf(ts[i])), i + 1)
    case Ident(_) => Parsed(if ts[i + 1] in {Op(Bang), LParen, LBracket} then Outside else Got(Leaf(ts[i])), i + 1)
    case LParen => ParenPrimary(ts, i)
    case LBracket => Parsed(Outside, i)
    case Op(Minus) => UnaryPrimary(ts, i)
    case Op(Bang) => UnaryPrimary(ts, i)
    case Op(Amp) => ReferPrimary(ts, i)
    case _ => Parsed(Null, i)
  }

  function ParenPrimary(ts: seq<Token>, i: nat): (r: Parsed<Tree>)
    requires Buffer(ts) && i < |ts| && ts[i] == LParen
    ensures i <= r.pos < |ts| && (r.out.Got? ==> i < r.pos)
    decreases |ts| - i, 0
  {
    var e := Expression(ts, i + 1, 0);
    if !e.out.Got? then e
    else if ts[e.pos] != RParen then Parsed(Null, e.pos)
    else Parsed(Got(Paren(e.out.tree)), e.pos + 1)
  }

  function UnaryPrimary(ts: seq<Token>, i: nat): (r: Parsed<Tree>)
    requires Buffer(ts) && i < |ts| && IsUnary(ts[i])
    ensures i <= r.pos < |ts| && (r.out.Got? ==> i < r.pos)
    decreases |ts| - i, 0
  {
    var e := Primary(ts, i + 1);
    if e.out.Got? then Parsed(Got(Unary(ts[i], e.out.tree)), e.pos) else e
  }

  /** The node is built even when its operand is null. */
  function ReferPrimary(ts: seq<Token>, i: nat): (r: Parsed<Tree>)
    requires Buffer(ts) && i < |ts| && ts[i] == Op(Amp)
    ensures i <= r.pos < |ts| && (r.out.Got? ==> i < r.pos)
    decreases |ts| - i, 0
  {
    var isMut := ts[i + 1] == Mut;
    var j := if isMut then i + 2 else i + 1;
    var e := Primary(ts, j);
    match e.out
    case Got(t) => Parsed(Got(Refer(isMut, t)), e.pos)
    case Null => Parsed(Got(ReferHole(isMut, ts[j..e.pos])), e.pos)
    case Outside => e
  }

  /** A primary with at most one cast. */
  function Operand(ts: seq<Token>, i: nat): (r: Parsed<Tree>)
    requires Buffer(ts) && i < |ts|
    ensures i <= r.pos < |ts| && (r.out.Got? ==> i < r.pos)
    decreases |ts| - i, 2
  {
    var e := Primary(ts, i);
    if !e.out.Got? || ts[e.pos] != As then e
    else
      var ty := ParseType(ts, e.pos + 1);
      Parsed(Got(if ty.out.Got? then Cast(e.out.tree, ty.out.tree) else CastHole(e.out.tree, ts[e.pos + 1..ty.pos])),
          ty.pos)
  }

  function Expression(ts: seq<Token>, i: nat, m: nat): (r: Parsed<Tree>)
    requires Buffer(ts) && i < |ts|
    ensures i <= r.pos < |ts| && (r.out.Got? ==> i < r.pos)
    decreases |ts| - i, 3
  {
    var e := Operand(ts, i);
    if e.out.Got? then Chain(ts, e.out.tree, e.pos, m) else e
  }

  /** Extends `lhs`, which ends at j, by operators of precedence at least m. */
  function Chain(ts: seq<Token>, lhs: Tree, j: nat, m: nat): (r: Parsed<Tree>)
    requires Buffer(ts) && j < |ts|
    ensures j <= r.pos < |ts|
    decreases |ts| - j, 0
  {
    var p := Precedence(ts[j]);
    if p < m then Parsed(Got(lhs), j)
    else
      var rhs := Expression(ts, j + 1, p + 1);
      if rhs.out.Got? then Chain(ts, Binary(ts[j], lhs, rhs.out.tree), rhs.pos, m) else rhs
  }

  // ----- the specification, one step at a time

  lemma PointerStep(ts: seq<Token>, i: nat)
    requires Buffer(ts) && i < |ts| && ts[i] == Op(Star)
    ensures i + 1 < |ts| && (Qualifier(ts[i + 1]).Some? ==> ts[i + 1] != Eof && i + 2 < |ts|)
    ensures var q := Qualifier(ts[i + 1]);
      var p := ParseType(ts, if q.Some? then i + 2 else i + 1);
      ParseType(ts, i) == if p.out.Got? then Parsed(Got(Pointer(q, p.out.tree)), p.pos) else p
  {}

  lemma ReferenceStep(ts: seq<Token>, i: nat)
    requires Buffer(ts) && i < |ts| && ts[i] == Op(Amp)
    ensures i + 1 < |ts| && (ts[i + 1] == Mut ==> i + 2 < |ts|)
    ensures var p := ParseType(ts, if ts[i + 1] == Mut then i + 2 else i + 1);
      ParseType(ts, i) == if p.out.Got? then Parsed(Got(Reference(ts[i + 1] == Mut, p.out.tree)), p.pos) else p
  {}

  lemma ArrayStep(ts: seq<Token>, i: nat)
    requires Buffer(ts) && i < |ts| && ts[i] == LBracket
    ensures i + 1 < |ts| && ParseType(ts, i) == ArrayType(ts, i)
  {}

  lemma OtherTypeStep(ts: seq<Token>, i: nat)
    requires Buffer(ts) && i < |ts| && ts[i] !in {Op(Star), Op(Amp), LBracket}
    ensures ParseType(ts, i) == if ts[i].Ident? then Parsed(Got(Name(ts[i].id)), i + 1) else Parsed(Null, i)
  {}

  /** A primary that is one token, or none. */
  lemma LeafStep(ts: seq<Token>, i: nat)
    requires Buffer(ts) && i < |ts| && ts[i] !in {LParen, Op(Amp)} && !IsUnary(ts[i])
    ensures ts[i].Ident? ==> i + 1 < |ts|
    ensures Primary(ts, i) ==
      match ts[i]
      case IntLit(_) => Parsed(Got(Leaf(ts[i])), i + 1)
      case FloatLit(_) => Parsed(Got(Leaf(ts[i])), i + 1)
      case StrLit(_, ok) => Parsed(if ok then Got(Leaf(ts[i])) else Null, i + 1)
      case True => Parsed(Got(Leaf(ts[i])), i + 1)
      case False => Parsed(Got(Leaf(ts[i])), i + 1)
      case Ident(_) => Parsed(if ts[i + 1] in {Op(Bang), LParen, LBracket} then Outside else Got(Leaf(ts[i])), i + 1)
      case LBracket => Parsed(Outside, i)
      case _ => Parsed(Null, i)
  {}

  lemma ParenStep(ts: seq<Token>, i: nat)
    requires Buffer(ts) && i < |ts| && ts[i] == LParen
    ensures i + 1 < |ts|
    ensures var e := Expression(ts, i + 1, 0);
      Primary(ts, i) ==
        if !e.out.Got? then e
        else if ts[e.pos] != RParen then Parsed(Null, e.pos)
        else Parsed(Got(Paren(e.out.tree)), e.pos + 1)
  {}

  lemma UnaryStep(ts: seq<Token>, i: nat)
    requires Buffer(ts) && i < |ts| && IsUnary(ts[i])
    ensures i + 1 < |ts|
    ensures var e := Primary(ts, i + 1);
      Primary(ts, i) == if e.out.Got? then Parsed(Got(Unary(ts[i], e.out.tree)), e.pos) else e
  {}

  lemma ReferStep(ts: seq<Token>, i: nat)
    requires Buffer(ts) && i < |ts| && ts[i] == Op(Amp)
    ensures i + 1 < |ts| && (ts[i + 1] == Mut ==> i + 2 < |ts|)
    ensures var isMut, r := ts[i + 1] == Mut, Primary(ts, i);
      var j := if isMut then i + 2 else i + 1;
      var e := Primary(ts, j);
      && r.pos == e.pos
      && (e.out.Outside? ==> r.out == e.out)
      && (!e.out.Outside? ==> r.out.Got?)
      && (!e.out.Outside? ==>
        Strip(r.out.tree) == RefrExpr(isMut, if e.out.Got? then Some(Strip(e.out.tree)) else None))
  {}

  /** A cast after a primary. */
  lemma CastStep(ts: seq<Token>, i: nat)
    requires Buffer(ts) && i < |ts|
    ensures var e, r := Primary(ts, i), Operand(ts, i);
      if !e.out.Got? || ts[e.pos] != As then r == e
      else
        && e.pos + 1 < |ts|
        && var ty := ParseType(ts, e.pos + 1);
           && r.pos == ty.pos && r.out.Got?
           && Strip(r.out.tree) == AsExpr(Strip(e.out.tree), if ty.out.Got? then Some(ty.out.tree) else None)
  {
    hide Primary, ParseType;
  }

  /** An expression without an operand, and one that starts with an operand. */
  lemma ExpressionStep(ts: seq<Token>, i: nat, m: nat)
    requires Buffer(ts) && i < |ts|
    ensures !Operand(ts, i).out.Got? ==> Expression(ts, i, m) == Operand(ts, i)
    ensures Operand(ts, i).out.Got? ==>
      Expression(ts, i, m) == Chain(ts, Operand(ts, i).out.tree, Operand(ts, i).pos, m)
  {
    hide Operand, Chain;
  }

  /** One more operator, or the end of the chain. */
  lemma OperatorStep(ts: seq<Token>, lhs: Tree, j: nat, m: nat)
    requires Buffer(ts) && j < |ts|
    ensures Precedence(ts[j]) < m ==> Chain(ts, lhs, j, m) == Parsed(Got(lhs), j)
    ensures Precedence(ts[j]) >= m ==>
      && ts[j] != Eof && j + 1 < |ts|
      && var rhs := Expression(ts, j + 1, Precedence(ts[j]) + 1);
         Chain(ts, lhs, j, m) == if rhs.out.Got? then Chain(ts, Binary(ts[j], lhs, rhs.out.tree), rhs.pos, m) else rhs
  {
    hide Expression;
  }

  // ----- soundness

  lemma Slice(ts: seq<Token>, i: nat, j: nat, k: nat)
    requires i <= j <= k <= |ts|
    ensures ts[i..k] == ts[i..j] + ts[j..k]
    ensures i < |ts| ==> ts[i..i + 1] == [ts[i]]
    ensures j < |ts| ==> ts[j..j + 1] == [ts[j]]
  {}

  /** A stretch that begins with a token and an optional marker. */
  lemma Headed(ts: seq<Token>, i: nat, j: nat, k: nat, marker: seq<Token>)
    requires i < j <= k <= |ts| && ts[i + 1..j] == marker
    ensures ts[i..k] == [ts[i]] + marker + ts[j..k]
  {
    Slice(ts, i, i + 1, k);
    Slice(ts, i + 1, j, k);
  }

  /** Two stretches around a token. */
  lemma Joined(ts: seq<Token>, i: nat, j: nat, k: nat)
    requires i <= j < k <= |ts|
    ensures ts[i..k] == ts[i..j] + [ts[j]] + ts[j + 1..k]
  {
    Slice(ts, i, j, k);
    Slice(ts, j, j + 1, k);
  }

  /** A stretch between a first token and a tail. */
  lemma Enclosed(ts: seq<Token>, i: nat, j: nat, k: nat, tail: seq<Token>)
    requires i < j <= k <= |ts| && ts[j..k] == tail
    ensures ts[i..k] == [ts[i]] + ts[i + 1..j] + tail
  {
    Slice(ts, i, i + 1, k);
    Slice(ts, i + 1, j, k);
  }

  lemma {:induction false} TypeSound(ts: seq<Token>, i: nat)
    requires Buffer(ts) && i < |ts| && ParseType(ts, i).out.Got?
    ensures TypeYield(ParseType(ts, i).out.tree) == ts[i..ParseType(ts, i).pos]
    decreases |ts| - i, 1
  {
    Slice(ts, i, i, i);
    if ts[i] == Op(Star) {
      PointerSound(ts, i);
    } else if ts[i] == Op(Amp) {
      ReferenceTypeSound(ts, i);
    } else if ts[i] == LBracket {
      ArraySound(ts, i);
    }
  }

  lemma {:induction false} PointerSound(ts: seq<Token>, i: nat)
    requires Buffer(ts) && i < |ts| && ts[i] == Op(Star) && PointerType(ts, i).out.Got?
    ensures TypeYield(PointerType(ts, i).out.tree) == ts[i..PointerType(ts, i).pos]
    decreases |ts| - i, 0
  {
    var j := if Qualifier(ts[i + 1]).Some? then i + 2 else i + 1;
    TypeSound(ts, j);
    hide Buffer, ParseType;
    var marker := if ts[i + 1] == Mut then [Mut] else if ts[i + 1] == Const then [Const] else [];
    Headed(ts, i, j, PointerType(ts, i).pos, marker);
  }

  lemma {:induction false} ReferenceTypeSound(ts: seq<Token>, i: nat)
    requires Buffer(ts) && i < |ts| && ts[i] == Op(Amp) && ReferenceType(ts, i).out.Got?
    ensures TypeYield(ReferenceType(ts, i).out.tree) == ts[i..ReferenceType(ts, i).pos]
    decreases |ts| - i, 0
  {
    var j := if ts[i + 1] == Mut then i + 2 else i + 1;
    TypeSound(ts, j);
    hide Buffer, ParseType;
    Headed(ts, i, j, ReferenceType(ts, i).pos, if ts[i + 1] == Mut then [Mut] else []);
  }

  lemma {:induction false} ArraySound(ts: seq<Token>, i: nat)
    requires Buffer(ts) && i < |ts| && ts[i] == LBracket && ArrayType(ts, i).out.Got?
    ensures TypeYield(ArrayType(ts, i).out.tree) == ts[i..ArrayType(ts, i).pos]
    decreases |ts| - i, 0
  {
    TypeSound(ts, i + 1);
    var p, r := ParseType(ts, i + 1), ArrayType(ts, i);
    hide Buffer, ParseType;
    assert ts[p.pos..r.pos] == [Semicolon, IntLit(ts[p.pos + 1].id), RBracket];
    Enclosed(ts, i, p.pos, r.pos, [Semicolon, IntLit(ts[p.pos + 1].id), RBracket]);
  }

  /** What a successful parse from i says about its tree. */
  ghost predicate Sound(ts: seq<Token>, i: nat, t: Tree, j: nat) {
    i < j < |ts| && Yield(t) == ts[i..j] && Canonical(t)
  }

  ghost predicate SoundPrimary(ts: seq<Token>, i: nat, r: Parsed<Tree>) {
    r.out.Got? ==>
      && Sound(ts, i, r.out.tree, r.pos) && IsPrimary(r.out.tree)
      && !(EndsInName(r.out.tree) && Extends(ts[r.pos]))
  }

  ghost predicate SoundExpression(ts: seq<Token>, i: nat, m: int, r: Parsed<Tree>) {
    r.out.Got? ==>
      && Sound(ts, i, r.out.tree, r.pos) && AtLeast(r.out.tree, m)
      && Precedence(ts[r.pos]) < m && EndsBefore(r.out.tree, ts[r.pos])
  }

  lemma {:induction false} PrimarySound(ts: seq<Token>, i: nat)
    requires Buffer(ts) && i < |ts|
    ensures SoundPrimary(ts, i, Primary(ts, i))
    decreases |ts| - i, 1
  {
    Slice(ts, i, i, i);
    if ts[i] == LParen {
      ParenSound(ts, i);
    } else if IsUnary(ts[i]) {
      UnarySound(ts, i);
    } else if ts[i] == Op(Amp) {
      ReferSound(ts, i);
    }
  }

  lemma {:induction false} ParenSound(ts: seq<Token>, i: nat)
    requires Buffer(ts) && i < |ts| && ts[i] == LParen
    ensures SoundPrimary(ts, i, ParenPrimary(ts, i))
    decreases |ts| - i, 0
  {
    ExpressionSound(ts, i + 1, 0);
    var e, r := Expression(ts, i + 1, 0), ParenPrimary(ts, i);
    hide Buffer, Expression, Precedence, EndsBefore;
    if r.out.Got? {
      assert ts[e.pos..r.pos] == [RParen];
      Enclosed(ts, i, e.pos, r.pos, [RParen]);
    }
  }

  lemma {:induction false} UnarySound(ts: seq<Token>, i: nat)
    requires Buffer(ts) && i < |ts| && IsUnary(ts[i])
    ensures SoundPrimary(ts, i, UnaryPrimary(ts, i))
    decreases |ts| - i, 0
  {
    PrimarySound(ts, i + 1);
    var r := UnaryPrimary(ts, i);
    hide Buffer, Primary;
    if r.out.Got? { Slice(ts, i, i + 1, r.pos); }
  }

  lemma {:induction false} ReferSound(ts: seq<Token>, i: nat)
    requires Buffer(ts) && i < |ts| && ts[i] == Op(Amp)
    ensures SoundPrimary(ts, i, ReferPrimary(ts, i))
    decreases |ts| - i, 0
  {
    var j := if ts[i + 1] == Mut then i + 2 else i + 1;
    PrimarySound(ts, j);
    hide Buffer, Primary, Extends;
    Headed(ts, i, j, ReferPrimary(ts, i).pos, if ts[i + 1] == Mut then [Mut] else []);
  }

  lemma {:induction false} OperandSound(ts: seq<Token>, i: nat)
    requires Buffer(ts) && i < |ts|
    ensures var r := Operand(ts, i);
      r.out.Got? ==> Sound(ts, i, r.out.tree, r.pos) && !r.out.tree.Binary? && EndsBefore(r.out.tree, ts[r.pos])
    decreases |ts| - i, 2
  {
    PrimarySound(ts, i);
    var e, r := Primary(ts, i), Operand(ts, i);
    if e.out.Got? && ts[e.pos] == As {
      var ty := ParseType(ts, e.pos + 1);
      if ty.out.Got? { TypeSound(ts, e.pos + 1); }
      hide Buffer, Primary, ParseType;
      Casted(ts, i, e.out.tree, e.pos, ty.pos, r.out.tree);
    }
  }

  lemma Casted(ts: seq<Token>, i: nat, t: Tree, j: nat, k: nat, c: Tree)
    requires Sound(ts, i, t, j) && IsPrimary(t) && ts[j] == As && j < k < |ts|
    requires c == CastHole(t, ts[j + 1..k]) || (c.Cast? && c.value == t && TypeYield(c.target) == ts[j + 1..k])
    ensures Sound(ts, i, c, k) && EndsBefore(c, ts[k])
  {
    Joined(ts, i, j, k);
  }

  /** A parse at precedence m consumes a canonical tree whose operators bind at least that tightly,
      and stops at a token that binds less. */
  lemma {:induction false} ExpressionSound(ts: seq<Token>, i: nat, m: nat)
    requires Buffer(ts) && i < |ts|
    ensures SoundExpression(ts, i, m, Expression(ts, i, m))
    decreases |ts| - i, 3
  {
    OperandSound(ts, i);
    var e := Operand(ts, i);
    hide Operand;
    if e.out.Got? { ChainSound(ts, i, e.out.tree, e.pos, m); }
  }

  lemma {:induction false} ChainSound(ts: seq<Token>, i: nat, lhs: Tree, j: nat, m: nat)
    requires Buffer(ts) && Sound(ts, i, lhs, j) && AtLeast(lhs, m) && EndsBefore(lhs, ts[j])
    requires lhs.Binary? ==> Precedence(ts[j]) <= Precedence(lhs.op)
    ensures SoundExpression(ts, i, m, Chain(ts, lhs, j, m))
    decreases |ts| - j, 0
  {
    var p := Precedence(ts[j]);
    if p >= m {
      ExpressionSound(ts, j + 1, p + 1);
      var rhs := Expression(ts, j + 1, p + 1);
      hide Expression;
      if rhs.out.Got? {
        Extended(ts, i, lhs, j, rhs.out.tree, rhs.pos);
        ChainSound(ts, i, Binary(ts[j], lhs, rhs.out.tree), rhs.pos, m);
      }
    }
  }

  lemma Extended(ts: seq<Token>, i: nat, lhs: Tree, j: nat, rhs: Tree, k: nat)
    requires Sound(ts, i, lhs, j) && Sound(ts, j + 1, rhs, k) && EndsBefore(lhs, ts[j]) && EndsBefore(rhs, ts[k])
    requires 0 <= Precedence(ts[j]) && AtLeast(rhs, Precedence(ts[j]) + 1)
    requires lhs.Binary? ==> Precedence(ts[j]) <= Precedence(lhs.op)
    ensures Sound(ts, i, Binary(ts[j], lhs, rhs), k) && EndsBefore(Binary(ts[j], lhs, rhs), ts[k])
  {
    PrecedenceExactly(ts[j], ts[j]);
    if lhs.Binary? { PrecedenceExactly(ts[j], lhs.op); }
    if rhs.Binary? { PrecedenceExactly(rhs.op, ts[j]); }
    hide Precedence, Tighter;
    Joined(ts, i, j, k);
  }

  // ----- completeness

  /** The tokens of t stand at i. */
  ghost predicate Stands(ts: seq<Token>, i: nat, y: seq<Token>) {
    i + |y| < |ts| && ts[i..i + |y|] == y
  }

  lemma StandsParts(ts: seq<Token>, i: nat, p: seq<Token>, q: seq<Token>)
    requires Stands(ts, i, p + q)
    ensures Stands(ts, i, p) && Stands(ts, i + |p|, q)
  {
    assert ts[i..i + |p|] == ts[i..i + |p + q|][..|p|];
    assert ts[i + |p|..i + |p| + |q|] == ts[i..i + |p + q|][|p|..];
  }

  lemma StandsHead(ts: seq<Token>, i: nat, k: Token, q: seq<Token>)
    requires Stands(ts, i, [k] + q)
    ensures ts[i] == k && Stands(ts, i + 1, q)
  {
    StandsParts(ts, i, [k], q);
    assert ts[i..i + 1][0] == k;
  }

  lemma StandsRefer(ts: seq<Token>, i: nat, isMut: bool, y: seq<Token>)
    requires Stands(ts, i, [Op(Amp)] + (if isMut then [Mut] else []) + y) && y != [] && y[0] != Mut
    ensures ts[i] == Op(Amp) && (ts[i + 1] == Mut <==> isMut) && Stands(ts, if isMut then i + 2 else i + 1, y)
  {
    var rest := if isMut then [Mut] + y else y;
    assert [Op(Amp)] + (if isMut then [Mut] else []) + y == [Op(Amp)] + rest;
    StandsHead(ts, i, Op(Amp), rest);
    if isMut {
      StandsHead(ts, i + 1, Mut, y);
    } else {
      assert y == [y[0]] + y[1..];
      StandsHead(ts, i + 1, y[0], y[1..]);
    }
  }

  lemma StandsPointer(ts: seq<Token>, i: nat, q: Option<bool>, y: seq<Token>)
    requires Stands(ts, i, [Op(Star)] + (if q.None? then [] else if q.value then [Mut] else [Const]) + y)
    requires y != [] && y[0] !in {Mut, Const}
    ensures ts[i] == Op(Star) && Qualifier(ts[i + 1]) == q && Stands(ts, if q.Some? then i + 2 else i + 1, y)
  {
    var marker := if q.None? then [] else if q.value then [Mut] else [Const];
    assert [Op(Star)] + marker + y == [Op(Star)] + (marker + y);
    StandsHead(ts, i, Op(Star), marker + y);
    if q.Some? {
      StandsHead(ts, i + 1, marker[0], y);
    } else {
      assert marker + y == [y[0]] + y[1..] && marker + y == y;
      StandsHead(ts, i + 1, y[0], y[1..]);
    }
  }

  lemma {:induction false} TypeComplete(ts: seq<Token>, i: nat, t: TypeTree)
    requires Buffer(ts) && Stands(ts, i, TypeYield(t))
    ensures ParseType(ts, i) == Parsed(Got(t), i + |TypeYield(t)|)
    decreases t, 1
  {
    match t
    case Name(id) =>
      assert TypeYield(t) == [Ident(id)] + [];
      StandsHead(ts, i, Ident(id), []);
    case Pointer(q, p) => PointerComplete(ts, i, t);
    case Reference(m, r) => ReferenceComplete(ts, i, t);
    case Array(e, n) => ArrayComplete(ts, i, t);
  }

  lemma {:induction false} PointerComplete(ts: seq<Token>, i: nat, t: TypeTree)
    requires Buffer(ts) && Stands(ts, i, TypeYield(t)) && t.Pointer?
    ensures ts[i] == Op(Star) && PointerType(ts, i) == Parsed(Got(t), i + |TypeYield(t)|)
    decreases t, 0
  {
    TypeStarts(t.pointee);
    StandsPointer(ts, i, t.qualifier, TypeYield(t.pointee));
    TypeComplete(ts, if t.qualifier.Some? then i + 2 else i + 1, t.pointee);
    hide ParseType, Buffer, Qualifier;
  }

  lemma {:induction false} ReferenceComplete(ts: seq<Token>, i: nat, t: TypeTree)
    requires Buffer(ts) && Stands(ts, i, TypeYield(t)) && t.Reference?
    ensures ts[i] == Op(Amp) && ReferenceType(ts, i) == Parsed(Got(t), i + |TypeYield(t)|)
    decreases t, 0
  {
    TypeStarts(t.referent);
    StandsRefer(ts, i, t.isMut, TypeYield(t.referent));
    TypeComplete(ts, if t.isMut then i + 2 else i + 1, t.referent);
    hide ParseType, Buffer;
  }

  lemma {:induction false} ArrayComplete(ts: seq<Token>, i: nat, t: TypeTree)
    requires Buffer(ts) && Stands(ts, i, TypeYield(t)) && t.Array?
    ensures ts[i] == LBracket && ArrayType(ts, i) == Parsed(Got(t), i + |TypeYield(t)|)
    decreases t, 0
  {
    var y, tail := TypeYield(t.element), [Semicolon, IntLit(t.size), RBracket];
    assert TypeYield(t) == [LBracket] + (y + tail);
    StandsHead(ts, i, LBracket, y + tail);
    StandsParts(ts, i + 1, y, tail);
    TypeComplete(ts, i + 1, t.element);
    var j := i + 1 + |y|;
    hide ParseType, Buffer;
    assert ts[j..j + 3][0] == ts[j] && ts[j..j + 3][1] == ts[j + 1] && ts[j..j + 3][2] == ts[j + 2];
  }

  lemma {:induction false} TypeStarts(t: TypeTree)
    ensures TypeYield(t) != [] && TypeYield(t)[0] !in {Mut, Const}
    ensures TypeYield(t) == [TypeYield(t)[0]] + TypeYield(t)[1..]
  {}

  predicate NameSafe(t: Tree, next: Token) { !(EndsInName(t) && Extends(next)) }

  /** A primary is parsed back from its tokens. */
  lemma {:induction false} PrimaryComplete(ts: seq<Token>, i: nat, t: Tree)
    requires Buffer(ts) && Grammatical(t) && IsPrimary(t) && Stands(ts, i, Yield(t)) && NameSafe(t, ts[i + |Yield(t)|])
    ensures Primary(ts, i) == Parsed(Got(t), i + |Yield(t)|)
    decreases t, 1
  {
    match t
    case Leaf(k) =>
      assert Yield(t) == [k] + [];
      StandsHead(ts, i, k, []);
    case Paren(e) => ParenComplete(ts, i, t);
    case Unary(op, e) => UnaryComplete(ts, i, t);
    case Refer(m, e) => ReferComplete(ts, i, t);
  }

  /** Canonical and without holes. */
  ghost predicate Grammatical(t: Tree) {
    Canonical(t) && Whole(t)
  }

  lemma ParenComplete(ts: seq<Token>, i: nat, t: Tree)
    requires Buffer(ts) && Grammatical(t) && t.Paren? && Stands(ts, i, Yield(t))
    ensures ts[i] == LParen && ParenPrimary(ts, i) == Parsed(Got(t), i + |Yield(t)|)
    decreases t, 0
  {
    var y := Yield(t.inner);
    assert Yield(t) == [LParen] + (y + [RParen]);
    StandsHead(ts, i, LParen, y + [RParen]);
    StandsParts(ts, i + 1, y, [RParen]);
    assert [RParen] == [RParen] + [];
    StandsHead(ts, i + 1 + |y|, RParen, []);
    ExpressionComplete(ts, i + 1, 0, t.inner);
    assert |Yield(t)| == |y| + 2;
    hide Buffer, Expression, Grammatical, Yield;
  }

  lemma UnaryComplete(ts: seq<Token>, i: nat, t: Tree)
    requires Buffer(ts) && Grammatical(t) && t.Unary? && Stands(ts, i, Yield(t)) && NameSafe(t, ts[i + |Yield(t)|])
    ensures ts[i] == t.op && UnaryPrimary(ts, i) == Parsed(Got(t), i + |Yield(t)|)
    decreases t, 0
  {
    StandsHead(ts, i, t.op, Yield(t.operand));
    PrimaryComplete(ts, i + 1, t.operand);
  }

  lemma ReferComplete(ts: seq<Token>, i: nat, t: Tree)
    requires Buffer(ts) && Grammatical(t) && t.Refer? && Stands(ts, i, Yield(t)) && NameSafe(t, ts[i + |Yield(t)|])
    ensures ts[i] == Op(Amp) && ReferPrimary(ts, i) == Parsed(Got(t), i + |Yield(t)|)
    decreases t, 0
  {
    var y := Yield(t.operand);
    TreeStarts(t.operand);
    StandsRefer(ts, i, t.isMut, y);
    PrimaryComplete(ts, if t.isMut then i + 2 else i + 1, t.operand);
    assert |Yield(t)| == (if t.isMut then 2 else 1) + |y|;
    hide Primary, Buffer, Yield, Grammatical;
  }

  lemma {:induction false} TreeStarts(t: Tree)
    requires Canonical(t) && IsPrimary(t)
    ensures Yield(t) != [] && Yield(t)[0] != Mut && Yield(t) == [Yield(t)[0]] + Yield(t)[1..]
  {}

  /** Parsing where a tree stands first builds that tree and then looks for more operators. */
  lemma {:induction false} ExpressionReaches(ts: seq<Token>, i: nat, m: nat, t: Tree)
    requires Buffer(ts) && Grammatical(t) && AtLeast(t, m) && Stands(ts, i, Yield(t))
    requires var next := ts[i + |Yield(t)|]; EndsBefore(t, next) && (t.Binary? ==> Precedence(next) <= Precedence(t.op))
    ensures Expression(ts, i, m) == Chain(ts, t, i + |Yield(t)|, m)
    decreases t, 2
  {
    if t.Binary? {
      BinaryReaches(ts, i, m, t);
    } else if t.Cast? {
      CastReaches(ts, i, t);
    } else {
      PrimaryComplete(ts, i, t);
    }
  }

  lemma OperandOfCast(ts: seq<Token>, i: nat, e: Tree, j: nat, ty: TypeTree, k: nat)
    requires Buffer(ts) && i < j < k < |ts| && Primary(ts, i) == Parsed(Got(e), j)
    requires ts[j] == As && ParseType(ts, j + 1) == Parsed(Got(ty), k)
    ensures Operand(ts, i) == Parsed(Got(Cast(e, ty)), k)
  {
    hide Primary, ParseType;
  }

  lemma StandsJoined(ts: seq<Token>, i: nat, y: seq<Token>, k: Token, z: seq<Token>)
    requires Stands(ts, i, y + [k] + z)
    ensures Stands(ts, i, y) && Stands(ts, i + |y| + 1, z) && ts[i + |y|] == k
  {
    assert y + [k] + z == y + ([k] + z);
    StandsParts(ts, i, y, [k] + z);
    StandsHead(ts, i + |y|, k, z);
  }

  lemma CastParts(t: Tree)
    requires Grammatical(t) && t.Cast?
    ensures Grammatical(t.value) && IsPrimary(t.value)
    ensures Yield(t) == Yield(t.value) + [As] + TypeYield(t.target)
  {}

  lemma SafeBeforeCast(t: Tree)
    ensures NameSafe(t, As)
  {}

  lemma {:induction false} CastReaches(ts: seq<Token>, i: nat, t: Tree)
    requires Buffer(ts) && Grammatical(t) && t.Cast? && Stands(ts, i, Yield(t))
    ensures Operand(ts, i) == Parsed(Got(t), i + |Yield(t)|)
    decreases t, 1
  {
    hide *;
    var y, z := Yield(t.value), TypeYield(t.target);
    CastParts(t);
    SafeBeforeCast(t.value);
    StandsJoined(ts, i, y, As, z);
    PrimaryComplete(ts, i, t.value);
    TypeComplete(ts, i + |y| + 1, t.target);
    assert |Yield(t)| == |y| + 1 + |z|;
    OperandOfCast(ts, i, t.value, i + |y|, t.target, i + |y| + 1 + |z|);
  }

  lemma {:induction false} BinaryReaches(ts: seq<Token>, i: nat, m: nat, t: Tree)
    requires Buffer(ts) && Grammatical(t) && t.Binary? && AtLeast(t, m) && Stands(ts, i, Yield(t))
    requires var next := ts[i + |Yield(t)|]; EndsBefore(t, next) && Precedence(next) <= Precedence(t.op)
    ensures Expression(ts, i, m) == Chain(ts, t, i + |Yield(t)|, m)
    decreases t, 1
  {
    hide Precedence, Expression, Chain, Buffer, Extends, Tighter;
    var op, l, r := t.op, t.left, t.right;
    if l.Binary? { PrecedenceExactly(op, l.op); }
    if r.Binary? { PrecedenceExactly(r.op, op); }
    PrecedenceExactly(op, op);
    var j, k := i + |Yield(l)|, i + |Yield(t)|;
    StandsJoined(ts, i, Yield(l), op, Yield(r));
    assert k == j + 1 + |Yield(r)|;
    ExpressionReaches(ts, i, m, l);
    ExpressionReaches(ts, j + 1, Precedence(op) + 1, r);
    ChainStops(ts, r, k, Precedence(op) + 1);
    ChainStep(ts, l, j, m, r, k);
  }

  lemma ChainStops(ts: seq<Token>, t: Tree, k: nat, m: nat)
    requires Buffer(ts) && k < |ts| && Precedence(ts[k]) < m
    ensures Chain(ts, t, k, m) == Parsed(Got(t), k)
  {}

  lemma ChainStep(ts: seq<Token>, l: Tree, j: nat, m: nat, r: Tree, k: nat)
    requires Buffer(ts) && j < k < |ts| && Precedence(ts[j]) >= m
    requires Expression(ts, j + 1, Precedence(ts[j]) + 1) == Parsed(Got(r), k)
    ensures Chain(ts, l, j, m) == Chain(ts, Binary(ts[j], l, r), k, m)
  {}

  /** A canonical tree is what parsing its tokens gives, whatever follows that cannot extend it. */
  lemma {:induction false} ExpressionComplete(ts: seq<Token>, i: nat, m: nat, t: Tree)
    requires Buffer(ts) && Grammatical(t) && AtLeast(t, m) && Stands(ts, i, Yield(t))
    requires var next := ts[i + |Yield(t)|]; EndsBefore(t, next) && Precedence(next) < m
    ensures Expression(ts, i, m) == Parsed(Got(t), i + |Yield(t)|)
    decreases t, 3
  {
    ExpressionReaches(ts, i, m, t);
    ChainStops(ts, t, i + |Yield(t)|, m);
  }

  // ----- consequences

  lemma {:induction false} TypeTokens(t: TypeTree)
    ensures Eof !in TypeYield(t)
  {
    match t
    case Name(_) =>
    case Pointer(_, p) => TypeTokens(p);
    case Reference(_, r) => TypeTokens(r);
    case Array(e, _) => TypeTokens(e);
  }

  lemma {:induction false} TreeTokens(t: Tree)
    requires Grammatical(t)
    ensures Eof !in Yield(t) && Yield(t) != []
  {
    match t
    case Leaf(_) =>
    case Paren(e) => TreeTokens(e);
    case Unary(_, e) => TreeTokens(e);
    case Refer(_, e) => TreeTokens(e);
    case Cast(e, ty) => TreeTokens(e); TypeTokens(ty);
    case Binary(_, l, r) => TreeTokens(l); TreeTokens(r);
  }

  /** Text that is exactly one expression. */
  function Text(t: Tree): seq<Token> { Yield(t) + [Eof] }

  lemma TextParses(t: Tree)
    requires Grammatical(t)
    ensures Buffer(Text(t)) && Expression(Text(t), 0, 0) == Parsed(Got(t), |Yield(t)|)
  {
    var ts := Text(t);
    TreeTokens(t);
    assert ts[0..|Yield(t)|] == Yield(t);
    ExpressionComplete(ts, 0, 0, t);
  }

  /** Token sequences have at most one canonical tree. */
  lemma Unambiguous(t: Tree, u: Tree)
    requires Grammatical(t) && Grammatical(u) && Yield(t) == Yield(u)
    ensures t == u
  {
    TextParses(t);
    TextParses(u);
  }

  /** Writing an expression with the parentheses it needs, and parsing it, gives it back. */
  lemma RoundTrip(a: Ast)
    requires Writable(a)
    ensures Buffer(Text(Write(a)))
    ensures var r := Expression(Text(Write(a)), 0, 0);
      r.out.Got? && Strip(r.out.tree) == a && r.pos == |Text(Write(a))| - 1
  {
    WriteCanonical(a);
    TextParses(Write(a));
  }

  /** In any buffer, a tree without holes comes out exactly when its tokens stand at i and the next
      token does not continue it. */
  lemma ParsesExactly(ts: seq<Token>, i: nat, m: nat, t: Tree)
    requires Buffer(ts) && i < |ts| && Whole(t)
    ensures Expression(ts, i, m) == Parsed(Got(t), i + |Yield(t)|) <==>
      && Canonical(t) && AtLeast(t, m) && Stands(ts, i, Yield(t))
      && EndsBefore(t, ts[i + |Yield(t)|]) && Precedence(ts[i + |Yield(t)|]) < m
  {
    hide Expression, Canonical, Precedence, Yield;
    if Expression(ts, i, m) == Parsed(Got(t), i + |Yield(t)|) {
      ExpressionSound(ts, i, m);
    } else if Canonical(t) && AtLeast(t, m) && Stands(ts, i, Yield(t))
      && EndsBefore(t, ts[i + |Yield(t)|]) && Precedence(ts[i + |Yield(t)|]) < m {
      ExpressionComplete(ts, i, m, t);
    }
  }

  /** A tree without holes is the expression at i exactly when it is canonical, its tokens stand
      there, and the next token neither goes on with it nor turns its last name into a call. */
  lemma ParsesWhole(ts: seq<Token>, i: nat, t: Tree)
    requires Buffer(ts) && i < |ts| && Whole(t)
    ensures Expression(ts, i, 0) == Parsed(Got(t), i + |Yield(t)|) <==>
      && Canonical(t) && Stands(ts, i, Yield(t))
      && EndsBefore(t, ts[i + |Yield(t)|]) && !Continues(ts[i + |Yield(t)|])
  {
    ParsesExactly(ts, i, 0, t);
    hide Expression, Precedence, Yield, EndsBefore, Tighter;
    if Canonical(t) && t.Binary? { PrecedenceExactly(t.op, t.op); }
    if Stands(ts, i, Yield(t)) { PrecedenceExactly(ts[i + |Yield(t)|], ts[i + |Yield(t)|]); }
  }

  /** Two operators between three operands group to the left when the first binds at least as
      tightly, and to the right otherwise. */
  lemma Grouping(a: Token, p: Operator, b: Token, q: Operator, c: Token, i: nat, j: nat)
    requires IsLeaf(a) && IsLeaf(b) && IsLeaf(c) && p in Class(i) && q in Class(j)
    requires !(a.Ident? && p == Operator.Bang) && !(b.Ident? && q == Operator.Bang)
    ensures var ts := [a, Op(p), b, Op(q), c, Eof];
      && Buffer(ts)
      && Expression(ts, 0, 0) == Parsed(Got(
           if i <= j then Binary(Op(q), Binary(Op(p), Leaf(a), Leaf(b)), Leaf(c))
           else Binary(Op(p), Leaf(a), Binary(Op(q), Leaf(b), Leaf(c)))), 5)
  {
    hide Expression, Class;
    OneClass(p);
    OneClass(q);
    OnePair(a, p, b);
    OnePair(b, q, c);
    var l, r := Binary(Op(p), Leaf(a), Leaf(b)), Binary(Op(q), Leaf(b), Leaf(c));
    var t := if i <= j then Binary(Op(q), l, Leaf(c)) else Binary(Op(p), Leaf(a), r);
    assert Yield(Leaf(a)) == [a] && Yield(Leaf(c)) == [c];
    assert Text(t) == [a, Op(p), b, Op(q), c, Eof];
    if i <= j {
      assert EndsBefore(l, Op(q));
      assert Canonical(t);
    } else {
      assert Canonical(t);
    }
    TextParses(t);
  }

  lemma OnePair(a: Token, p: Operator, b: Token)
    requires IsLeaf(a) && IsLeaf(b) && !(a.Ident? && p == Operator.Bang)
    ensures var t := Binary(Op(p), Leaf(a), Leaf(b));
      Canonical(t) && Whole(t) && Yield(t) == [a, Op(p), b] && (EndsInName(t) <==> b.Ident?) && EndsUncast(t)
  {}
}
