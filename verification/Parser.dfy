/** The expression parser: a cursor over the token buffer. */
module Parser {
  import opened Wrappers
  import opened Syntax
  import opened ParserSpec

  /** The outcome for callers: the tree without its parentheses. */
  function Erase(o: Outcome<Tree>): Outcome<Ast> {
    match o
    case Got(t) => Got(Strip(t))
    case Null => Null
    case Outside => Outside
  }

  class Parser {
    const Tokens: seq<Token>
    var CurrentTokenIdx: nat

    ghost predicate Valid()
      reads this
    {
      Buffer(Tokens) && CurrentTokenIdx < |Tokens|
    }

    constructor (tokens: seq<Token>)
      requires Buffer(tokens)
      ensures Valid() && Tokens == tokens && CurrentTokenIdx == 0
    {
      Tokens := tokens;
      CurrentTokenIdx := 0;
    }

    /** Past the end of the buffer the last token repeats. */
    function Peek(offset: nat): Token
      requires Valid()
      reads this
    {
      if CurrentTokenIdx + offset >= |Tokens| then Tokens[|Tokens| - 1] else Tokens[CurrentTokenIdx + offset]
    }

    predicate IsAtEnd()
      requires Valid()
      reads this
    {
      Peek(0) == Eof
    }

    method Advance()
      requires Valid()
      modifies this
      ensures Valid() && CurrentTokenIdx == if old(IsAtEnd()) then old(CurrentTokenIdx) else old(CurrentTokenIdx) + 1
    {
      if !IsAtEnd() { CurrentTokenIdx := CurrentTokenIdx + 1; }
    }

    /** Advances over the token that was asked for, and stays where another one stands. */
    method Accept(t: Token) returns (ok: bool)
      requires Valid() && t != Eof
      modifies this
      ensures Valid() && ok == (old(Peek(0)) == t)
      ensures CurrentTokenIdx == if ok then old(CurrentTokenIdx) + 1 else old(CurrentTokenIdx)
    {
      ok := Peek(0) == t;
      if ok { Advance(); }
    }

    method ParseType() returns (t: Option<TypeTree>)
      requires Valid()
      modifies this
      ensures Valid() && old(CurrentTokenIdx) <= CurrentTokenIdx
      ensures TypeParsed(ParserSpec.ParseType(Tokens, old(CurrentTokenIdx)), t)
      decreases |Tokens| - CurrentTokenIdx, 1
    {
      hide Buffer, ParserSpec.ParseType;
      ghost var i := CurrentTokenIdx;
      if Peek(0) == Op(Star) {
        t := ParsePointerType();
      } else if Peek(0) == Op(Amp) {
        t := ParseReferenceType();
      } else if Peek(0) == LBracket {
        t := ParseArrayType();
      } else if Peek(0).Ident? {
        OtherTypeStep(Tokens, i);
        t := Some(Name(Peek(0).id));
        Advance();
      } else {
        OtherTypeStep(Tokens, i);
        t := None;
      }
    }

    /** The outcome and the cursor are those of r. */
    ghost predicate TypeParsed(r: Parsed<TypeTree>, t: Option<TypeTree>)
      reads this
    {
      CurrentTokenIdx == r.pos && t == if r.out.Got? then Some(r.out.tree) else None
    }

    method ParsePointerType() returns (t: Option<TypeTree>)
      requires Valid() && Peek(0) == Op(Star)
      modifies this
      ensures Valid() && old(CurrentTokenIdx) <= CurrentTokenIdx
      ensures TypeParsed(ParserSpec.ParseType(Tokens, old(CurrentTokenIdx)), t)
      decreases |Tokens| - CurrentTokenIdx, 0
    {
      hide Buffer, ParserSpec.ParseType, Qualifier;
      PointerStep(Tokens, CurrentTokenIdx);
      Advance();
      var q := Qualifier(Peek(0));
      if q.Some? { Advance(); }
      var p := ParseType();
      return if p.Some? then Some(Pointer(q, p.value)) else None;
    }

    method ParseReferenceType() returns (t: Option<TypeTree>)
      requires Valid() && Peek(0) == Op(Amp)
      modifies this
      ensures Valid() && old(CurrentTokenIdx) <= CurrentTokenIdx
      ensures TypeParsed(ParserSpec.ParseType(Tokens, old(CurrentTokenIdx)), t)
      decreases |Tokens| - CurrentTokenIdx, 0
    {
      hide Buffer, ParserSpec.ParseType;
      ReferenceStep(Tokens, CurrentTokenIdx);
      Advance();
      var isMut := Accept(Mut);
      var p := ParseType();
      return if p.Some? then Some(Reference(isMut, p.value)) else None;
    }

    method ParseArrayType() returns (t: Option<TypeTree>)
      requires Valid() && Peek(0) == LBracket
      modifies this
      ensures Valid() && old(CurrentTokenIdx) <= CurrentTokenIdx
      ensures TypeParsed(ParserSpec.ParseType(Tokens, old(CurrentTokenIdx)), t)
      decreases |Tokens| - CurrentTokenIdx, 0
    {
      hide Buffer, ParserSpec.ParseType;
      ArrayStep(Tokens, CurrentTokenIdx);
      Advance();
      var e := ParseType();
      if e.None? { return None; }
      var semicolon := Accept(Semicolon);
      if !semicolon || !Peek(0).IntLit? { return None; }
      var size := Peek(0).id;
      Advance();
      var closed := Accept(RBracket);
      return if closed then Some(Array(e.value, size)) else None;
    }

    method ParsePrimary() returns (e: Outcome<Ast>)
      requires Valid()
      modifies this
      ensures Valid() && old(CurrentTokenIdx) <= CurrentTokenIdx
      ensures ExprParsed(Primary(Tokens, old(CurrentTokenIdx)), e)
      decreases |Tokens| - CurrentTokenIdx, 1
    {
      hide Buffer, Primary, Strip;
      var token := Peek(0);
      if token == LParen {
        e := ParseParenExpr();
      } else if IsUnary(token) {
        e := ParseUnaryExpr();
      } else if token == Op(Amp) {
        e := ParseRefrExpr();
      } else {
        LeafStep(Tokens, CurrentTokenIdx);
        LeafErased(token);
        if token.IntLit? || token.FloatLit? || token.True? || token.False? {
          Advance();
          e := Got(Atom(token));
        } else if token.StrLit? {
          Advance();
          e := if token.decodes then Got(Atom(token)) else Null;
        } else if token.Ident? {
          Advance();
          e := if Peek(0) in {Op(Bang), LParen, LBracket} then Outside else Got(Atom(token));
        } else {
          e := if token == LBracket then Outside else Null;
        }
      }
    }

    /** The outcome and the cursor are those of r. */
    ghost predicate ExprParsed(r: Parsed<Tree>, e: Outcome<Ast>)
      reads this
    {
      CurrentTokenIdx == r.pos && e == Erase(r.out)
    }

    method ParseParenExpr() returns (e: Outcome<Ast>)
      requires Valid() && Peek(0) == LParen
      modifies this
      ensures Valid() && old(CurrentTokenIdx) <= CurrentTokenIdx
      ensures ExprParsed(Primary(Tokens, old(CurrentTokenIdx)), e)
      decreases |Tokens| - CurrentTokenIdx, 0
    {
      hide Buffer, Primary, Expression, Strip;
      ghost var i := CurrentTokenIdx;
      ParenStep(Tokens, i);
      Advance();
      e := ParseExpr(0);
      if !e.Got? { return e; }
      ParenErased(Expression(Tokens, i + 1, 0).out.tree);
      var closed := Accept(RParen);
      return if closed then e else Null;
    }

    method ParseUnaryExpr() returns (e: Outcome<Ast>)
      requires Valid() && IsUnary(Peek(0))
      modifies this
      ensures Valid() && old(CurrentTokenIdx) <= CurrentTokenIdx
      ensures ExprParsed(Primary(Tokens, old(CurrentTokenIdx)), e)
      decreases |Tokens| - CurrentTokenIdx, 0
    {
      hide Buffer, Primary, Strip;
      var op := Peek(0);
      ghost var i := CurrentTokenIdx;
      UnaryStep(Tokens, i);
      Advance();
      e := ParsePrimary();
      if !e.Got? { return e; }
      UnaryErased(op, Primary(Tokens, i + 1).out.tree);
      return Got(UnaryExpr(op, e.tree));
    }

    method ParseRefrExpr() returns (e: Outcome<Ast>)
      requires Valid() && Peek(0) == Op(Amp)
      modifies this
      ensures Valid() && old(CurrentTokenIdx) <= CurrentTokenIdx
      ensures ExprParsed(Primary(Tokens, old(CurrentTokenIdx)), e)
      decreases |Tokens| - CurrentTokenIdx, 0
    {
      hide Buffer, Primary, Strip;
      ReferStep(Tokens, CurrentTokenIdx);
      Advance();
      var isMut := Accept(Mut);
      e := ParsePrimary();
      return if e.Outside? then e else Got(RefrExpr(isMut, if e.Got? then Some(e.tree) else None));
    }

    /** A primary with at most one cast. */
    method ParseOperand() returns (e: Outcome<Ast>)
      requires Valid()
      modifies this
      ensures Valid() && old(CurrentTokenIdx) <= CurrentTokenIdx
      ensures ExprParsed(Operand(Tokens, old(CurrentTokenIdx)), e)
      decreases |Tokens| - CurrentTokenIdx, 2
    {
      hide Buffer, Primary, Operand, ParserSpec.ParseType, Strip;
      ghost var start := CurrentTokenIdx;
      CastStep(Tokens, start);
      e := ParsePrimary();
      if !e.Got? { return e; }
      var cast := Accept(As);
      if cast {
        var ty := ParseType();
        e := Got(AsExpr(e.tree, ty));
      }
    }

    /** Precedence climbing.  The result and the cursor are those of the specification, so the tree
        is the only canonical one for the tokens consumed. */
    method ParseExpr(minPrecedence: nat) returns (e: Outcome<Ast>)
      requires Valid()
      modifies this
      ensures Valid() && old(CurrentTokenIdx) <= CurrentTokenIdx
      ensures ExprParsed(Expression(Tokens, old(CurrentTokenIdx), minPrecedence), e)
      decreases |Tokens| - CurrentTokenIdx, 3
    {
      hide Buffer, Operand, Expression, Chain, Precedence, Strip;
      ghost var start := CurrentTokenIdx;
      ExpressionStep(Tokens, start, minPrecedence);
      e := ParseOperand();
      if !e.Got? { return e; }
      ghost var lhs := Operand(Tokens, start).out.tree;
      while Precedence(Peek(0)) >= minPrecedence
        invariant Valid() && start < CurrentTokenIdx && e == Got(Strip(lhs))
        invariant Chain(Tokens, lhs, CurrentTokenIdx, minPrecedence) == Expression(Tokens, start, minPrecedence)
        decreases |Tokens| - CurrentTokenIdx
      {
        var op := Peek(0);
        OperatorStep(Tokens, lhs, CurrentTokenIdx, minPrecedence);
        Advance();
        ghost var rhs := Expression(Tokens, CurrentTokenIdx, Precedence(op) + 1);
        var right := ParseExpr(Precedence(op) + 1);
        if !right.Got? { return right; }
        BinaryErased(op, lhs, rhs.out.tree);
        lhs := Binary(op, lhs, rhs.out.tree);
        e := Got(BinExpr(op, e.tree, right.tree));
      }
      OperatorStep(Tokens, lhs, CurrentTokenIdx, minPrecedence);
    }
  }

  lemma LeafErased(k: Token)
    ensures Strip(Leaf(k)) == Atom(k)
  {}

  lemma ParenErased(t: Tree)
    ensures Strip(Paren(t)) == Strip(t)
  {}

  lemma UnaryErased(op: Token, t: Tree)
    ensures Strip(Unary(op, t)) == UnaryExpr(op, Strip(t))
  {}

  lemma BinaryErased(op: Token, l: Tree, r: Tree)
    ensures Strip(Binary(op, l, r)) == BinExpr(op, Strip(l), Strip(r))
  {}
}
