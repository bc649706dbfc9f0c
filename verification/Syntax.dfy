/** Tokens, concrete trees and the expression grammar. */
module Syntax {
  import opened Wrappers

  datatype Operator =
    | PlusEqual | MinusEqual | Bang | Dot | Star | Slash | Percent | Plus | Minus
    | LessLess | GreaterGreater | Less | LessEqual | Greater | GreaterEqual
    | EqualEqual | BangEqual | Amp | Pipe | AmpAmp | PipePipe | Equal

  /** Names and literals carry an identity; a string literal may fail to decode. */
  datatype Token =
    | Ident(id: nat) | IntLit(id: nat) | FloatLit(id: nat) | StrLit(id: nat, decodes: bool) | True | False
    | LParen | RParen | LBracket | RBracket | Semicolon | As | Mut | Const | Op(op: Operator)
    | Other(kind: nat) | Eof

  /** Higher binds tighter; -1 ends an expression.  Names and numbers count as operators. */
  function Precedence(t: Token): int {
    match t
    case Op(op) => (
      match op
      case PlusEqual | MinusEqual => 17
      case Bang | Dot => 15
      case Star | Slash | Percent => 12
      case Plus | Minus => 11
      case LessLess | GreaterGreater => 10
      case Less | LessEqual | Greater | GreaterEqual => 8
      case EqualEqual | BangEqual => 7
      case Amp => 6
      case Pipe => 5
      case AmpAmp => 4
      case PipePipe => 3
      case Equal => 2)
    case Ident(_) | IntLit(_) | FloatLit(_) => 1
    case _ => -1
  }

  // ----- what binds tighter, without the numbers

  /** The classes of operators, from those that bind tightest to those that bind loosest. */
  function Class(n: nat): set<Operator> {
    if n == 0 then {PlusEqual, MinusEqual}
    else if n == 1 then {Operator.Bang, Dot}
    else if n == 2 then {Star, Slash, Percent}
    else if n == 3 then {Plus, Minus}
    else if n == 4 then {LessLess, GreaterGreater}
    else if n == 5 then {Less, LessEqual, Greater, GreaterEqual}
    else if n == 6 then {EqualEqual, BangEqual}
    else if n == 7 then {Amp}
    else if n == 8 then {Pipe}
    else if n == 9 then {AmpAmp}
    else if n == 10 then {PipePipe}
    else if n == 11 then {Equal}
    else {}
  }

  /** A name or a number, which after an operand goes on like an operator. */
  predicate Juxtaposed(t: Token) { t.Ident? || t.IntLit? || t.FloatLit? }

  /** After an operand these go on with the expression. */
  predicate Continues(t: Token) { t.Op? || Juxtaposed(t) }

  /** Names and numbers bind looser than every operator. */
  ghost predicate Tighter(t: Token, u: Token) {
    t.Op? && (Juxtaposed(u) || (u.Op? && exists i: nat, j: nat :: i < j && t.op in Class(i) && u.op in Class(j)))
  }

  /** The precedence of a class. */
  function Level(n: nat): int {
    if n < 3 then [17, 15, 12][n] else if n < 5 then 14 - n else if n < 12 then 13 - n else 0
  }

  lemma LevelsFall(i: nat, j: nat)
    requires i < j < 12
    ensures Level(i) > Level(j)
  {}

  /** An operator is in the class that has its precedence, and in no other. */
  lemma InClass(op: Operator, n: nat)
    ensures op in Class(n) <==> Precedence(Op(op)) == Level(n)
  {}

  lemma SomeClass(op: Operator) returns (n: nat)
    ensures n < 12 && op in Class(n)
  {
    var p := Precedence(Op(op));
    n := if p == 17 then 0 else if p == 15 then 1 else if p > 8 then 14 - p else 13 - p;
  }

  /** The numbers say what the classes say. */
  lemma PrecedenceExactly(t: Token, u: Token)
    ensures Precedence(t) >= 0 <==> Continues(t)
    ensures Continues(t) && Continues(u) ==> (Tighter(t, u) <==> Precedence(t) > Precedence(u))
  {
    if t.Op? && u.Op? {
      var i := SomeClass(t.op);
      var j := SomeClass(u.op);
      InClass(t.op, i);
      InClass(u.op, j);
      OneClass(t.op);
      OneClass(u.op);
      hide Precedence, Level, Class;
      if i < j { LevelsFall(i, j); }
      if j < i { LevelsFall(j, i); }
    }
  }

  lemma OneClass(op: Operator)
    ensures forall i: nat, j: nat :: op in Class(i) && op in Class(j) ==> i == j
  {
    hide Precedence;
    forall i: nat { InClass(op, i); }
  }

  /** A token that is an expression by itself. */
  predicate IsLeaf(t: Token) {
    t.Ident? || t.IntLit? || t.FloatLit? || t.True? || t.False? || (t.StrLit? && t.decodes)
  }

  predicate IsUnary(t: Token) { t == Op(Minus) || t == Op(Bang) }

  /** After a name these begin a macro call, a call or an array access. */
  predicate Extends(t: Token) { t == Op(Bang) || t == LParen || t == LBracket }

  /** Type expressions.  A raw pointer may lack its qualifier. */
  datatype TypeTree =
    | Name(id: nat) | Pointer(qualifier: Option<bool>, pointee: TypeTree)
    | Reference(isMut: bool, referent: TypeTree) | Array(element: TypeTree, size: nat)

  function TypeYield(t: TypeTree): seq<Token> {
    match t
    case Name(id) => [Ident(id)]
    case Pointer(q, p) => [Op(Star)] + (if q.None? then [] else if q.value then [Mut] else [Const]) + TypeYield(p)
    case Reference(m, r) => [Op(Amp)] + (if m then [Mut] else []) + TypeYield(r)
    case Array(e, n) => [LBracket] + TypeYield(e) + [Semicolon, IntLit(n), RBracket]
  }

  /** Concrete trees: parentheses are kept, and so are the tokens skipped where the operand of `&`
      or the type of a cast failed to parse. */
  datatype Tree =
    | Leaf(token: Token)
    | Paren(inner: Tree)
    | Unary(op: Token, operand: Tree)
    | Refer(isMut: bool, operand: Tree)
    | ReferHole(isMut: bool, skipped: seq<Token>)
    | Cast(value: Tree, target: TypeTree)
    | CastHole(value: Tree, skipped: seq<Token>)
    | Binary(op: Token, left: Tree, right: Tree)

  function Yield(t: Tree): seq<Token> {
    match t
    case Leaf(k) => [k]
    case Paren(e) => [LParen] + Yield(e) + [RParen]
    case Unary(op, e) => [op] + Yield(e)
    case Refer(m, e) => [Op(Amp)] + (if m then [Mut] else []) + Yield(e)
    case ReferHole(m, skipped) => [Op(Amp)] + (if m then [Mut] else []) + skipped
    case Cast(e, ty) => Yield(e) + [As] + TypeYield(ty)
    case CastHole(e, skipped) => Yield(e) + [As] + skipped
    case Binary(op, l, r) => Yield(l) + [op] + Yield(r)
  }

  /** Trees without holes. */
  predicate Whole(t: Tree) {
    match t
    case Leaf(_) => true
    case Paren(e) => Whole(e)
    case Unary(_, e) => Whole(e)
    case Refer(_, e) => Whole(e)
    case ReferHole(_, _) => false
    case Cast(e, _) => Whole(e)
    case CastHole(_, _) => false
    case Binary(_, l, r) => Whole(l) && Whole(r)
  }

  predicate IsPrimary(t: Tree) {
    t.Leaf? || t.Paren? || t.Unary? || t.Refer? || t.ReferHole?
  }

  /** The last token is a name that a following token could turn into a call. */
  predicate EndsInName(t: Tree) {
    match t
    case Leaf(k) => k.Ident?
    case Unary(_, e) => EndsInName(e)
    case Refer(_, e) => EndsInName(e)
    case Binary(_, _, r) => EndsInName(r)
    case _ => false
  }

  /** The last operand has no cast, so a following `as` would belong to it. */
  predicate EndsUncast(t: Tree) {
    match t
    case Cast(_, _) => false
    case CastHole(_, _) => false
    case Binary(_, _, r) => EndsUncast(r)
    case _ => true
  }

  /** The token after a tree does not continue its last operand. */
  predicate EndsBefore(t: Tree, next: Token) {
    !(EndsInName(t) && Extends(next)) && !(EndsUncast(t) && next == As)
  }

  /** Left operands bind at least as tightly as their operator, right operands more tightly. */
  ghost predicate Canonical(t: Tree) {
    match t
    case Leaf(k) => IsLeaf(k)
    case Paren(e) => Canonical(e)
    case Unary(op, e) => IsUnary(op) && IsPrimary(e) && Canonical(e)
    case Refer(_, e) => IsPrimary(e) && Canonical(e)
    case ReferHole(_, _) => true
    case Cast(e, _) => IsPrimary(e) && Canonical(e)
    case CastHole(e, _) => IsPrimary(e) && Canonical(e)
    case Binary(op, l, r) =>
      && Continues(op) && EndsBefore(l, op)
      && (l.Binary? ==> !Tighter(op, l.op))
      && (r.Binary? ==> Tighter(r.op, op))
      && Canonical(l) && Canonical(r)
  }

  predicate AtLeast(t: Tree, m: int) {
    t.Binary? ==> Precedence(t.op) >= m
  }

  // ----- abstract syntax

  datatype Ast =
    | Atom(token: Token)
    | UnaryExpr(op: Token, operand: Ast)
    | RefrExpr(isMut: bool, referent: Option<Ast>)
    | AsExpr(value: Ast, target: Option<TypeTree>)
    | BinExpr(op: Token, left: Ast, right: Ast)

  /** The tree the parser builds: parentheses leave no node, and holes are null. */
  function Strip(t: Tree): Ast {
    match t
    case Leaf(k) => Atom(k)
    case Paren(e) => Strip(e)
    case Unary(op, e) => UnaryExpr(op, Strip(e))
    case Refer(m, e) => RefrExpr(m, Some(Strip(e)))
    case ReferHole(m, _) => RefrExpr(m, None)
    case Cast(e, ty) => AsExpr(Strip(e), Some(ty))
    case CastHole(e, _) => AsExpr(Strip(e), None)
    case Binary(op, l, r) => BinExpr(op, Strip(l), Strip(r))
  }

  /** Expressions that some text denotes. */
  predicate Writable(a: Ast) {
    match a
    case Atom(k) => IsLeaf(k)
    case UnaryExpr(op, e) => IsUnary(op) && Writable(e)
    case RefrExpr(_, e) => e.Some? && Writable(e.value)
    case AsExpr(e, ty) => ty.Some? && Writable(e)
    case BinExpr(op, l, r) => Continues(op) && Writable(l) && Writable(r)
  }

  function Parenthesized(t: Tree, needed: bool): Tree {
    if needed then Paren(t) else t
  }

  /** Parentheses only where the grammar needs them. */
  function Write(a: Ast): Tree
    requires Writable(a)
  {
    match a
    case Atom(k) => Leaf(k)
    case UnaryExpr(op, e) => Unary(op, Parenthesized(Write(e), !IsPrimary(Write(e))))
    case RefrExpr(m, e) => Refer(m, Parenthesized(Write(e.value), !IsPrimary(Write(e.value))))
    case AsExpr(e, ty) => Cast(Parenthesized(Write(e), !IsPrimary(Write(e))), ty.value)
    case BinExpr(op, l, r) =>
      var wl, wr := Write(l), Write(r);
      Binary(op,
             Parenthesized(wl, (wl.Binary? && Precedence(wl.op) < Precedence(op)) || !EndsBefore(wl, op)),
             Parenthesized(wr, wr.Binary? && Precedence(wr.op) <= Precedence(op)))
  }

  /** What is written is canonical, has no holes and denotes the expression. */
  lemma {:induction false} WriteCanonical(a: Ast)
    requires Writable(a)
    ensures Canonical(Write(a)) && Whole(Write(a)) && Strip(Write(a)) == a
    decreases a
  {
    match a
    case Atom(k) =>
    case UnaryExpr(op, e) => WriteCanonical(e);
    case RefrExpr(m, e) => WriteCanonical(e.value);
    case AsExpr(e, ty) => WriteCanonical(e);
    case BinExpr(op, l, r) =>
      WriteCanonical(l);
      WriteCanonical(r);
      var wl, wr := Write(l), Write(r);
      hide Precedence, Tighter, EndsBefore;
      if wl.Binary? { PrecedenceExactly(op, wl.op); }
      if wr.Binary? { PrecedenceExactly(wr.op, op); }
  }

  /** No pair of parentheses can be left out. */
  ghost predicate Tight(t: Tree) {
    match t
    case Unary(op, e) => Tight(e) && (e.Paren? ==> !Canonical(Unary(op, e.inner)))
    case Refer(m, e) => Tight(e) && (e.Paren? ==> !Canonical(Refer(m, e.inner)))
    case Cast(e, ty) => Tight(e) && (e.Paren? ==> !Canonical(Cast(e.inner, ty)))
    case Binary(op, l, r) =>
      && Tight(l) && Tight(r)
      && (l.Paren? ==> !Canonical(Binary(op, l.inner, r))) && (r.Paren? ==> !Canonical(Binary(op, l, r.inner)))
    case Paren(e) => Tight(e)
    case _ => true
  }

  lemma {:induction false} WriteTight(a: Ast)
    requires Writable(a)
    ensures Tight(Write(a)) && !Write(a).Paren?
    decreases a
  {
    match a
    case Atom(k) =>
    case UnaryExpr(op, e) => WriteTight(e);
    case RefrExpr(m, e) => WriteTight(e.value);
    case AsExpr(e, ty) => WriteTight(e);
    case BinExpr(op, l, r) =>
      WriteTight(l);
      WriteTight(r);
      WriteCanonical(l);
      WriteCanonical(r);
      var wl, wr := Write(l), Write(r);
      hide Precedence, Tighter, EndsBefore;
      if wl.Binary? { PrecedenceExactly(op, wl.op); }
      if wr.Binary? { PrecedenceExactly(wr.op, op); }
  }

  lemma {:induction false} StripWritable(t: Tree)
    requires Canonical(t) && Whole(t)
    ensures Writable(Strip(t))
  {
    match t
    case Leaf(_) =>
    case Paren(e) => StripWritable(e);
    case Unary(_, e) => StripWritable(e);
    case Refer(_, e) => StripWritable(e);
    case Cast(e, _) => StripWritable(e);
    case Binary(_, l, r) => StripWritable(l); StripWritable(r);
  }

  /** The expressions that can be written are those that some canonical tree without holes denotes. */
  lemma WritableExactly(a: Ast)
    ensures Writable(a) <==> exists t :: Canonical(t) && Whole(t) && Strip(t) == a
  {
    if Writable(a) { WriteCanonical(a); }
    if t :| Canonical(t) && Whole(t) && Strip(t) == a { StripWritable(t); }
  }
}
