/** The parser's state and the recursive descent over it (lparser.c: subexpr, simpleexp, expr). */
module ParserState {
  import opened Parser
  import opened ParserGrammar

  lemma FirstUnary(t: seq<Token>, p: nat, level: nat)
    requires 0 < level <= MAXCCALLS && p <= |t| && GetUnOp(TokenAt(t, p)).Some?
    ensures p < |t|
    ensures var x := SubExpr(t, p + 1, UNARY_PRIORITY, level);
      First(t, p, level) == if x.Failed? then x else Parsed(Un(GetUnOp(t[p]).value, x.e), x.next)
  {
  }

  class LexState {
    const tokens: seq<Token>
    /** Index of the current token t. */
    var pos: nat
    var nCcalls: nat

    constructor (tokens: seq<Token>)
      ensures this.tokens == tokens && pos == 0 && nCcalls == 0
    {
      this.tokens := tokens;
      pos, nCcalls := 0, 0;
    }

    function Current(): Token
      reads this
    {
      TokenAt(tokens, pos)
    }

    /** luaX_next. */
    method Next()
      requires pos < |tokens|
      modifies this`pos
      ensures pos == old(pos) + 1
    {
      pos := pos + 1;
    }

    /** simpleexp, for literals, names and parentheses. */
    method SimpleExp() returns (r: Option<Expr>, err: Error)
      requires pos <= |tokens| && 0 < nCcalls <= MAXCCALLS && GetUnOp(Current()).None?
      modifies this
      ensures var s := First(tokens, old(pos), old(nCcalls));
        if s.Parsed? then r == Some(s.e) && pos == s.next && nCcalls == old(nCcalls)
        else r == None && err == s.error
      decreases MAXCCALLS - nCcalls + 1, 0
    {
      r, err := None, UnexpectedSymbol;
      var tok := Current();
      if tok.TkAtom? {
        Next();
        if tok.atom.Name? && Current().TkOpen? { err := CallSuffix; return; }
        r := Some(Leaf(tok.atom));
      } else if tok.TkOpen? {
        Next();
        var v, op;
        v, op, err := Subexpr(0);
        if v.None? { return; }
        if !Current().TkClose? { err := CloseExpected; return; }
        Next();
        if Current().TkOpen? { err := CallSuffix; return; }
        r := v;
      }
    }

    /** subexpr: the tree it reads, where it stops, and the operator it stops at. */
    method Subexpr(limit: nat) returns (v: Option<Expr>, op: Option<BinOp>, err: Error)
      requires pos <= |tokens| && nCcalls <= MAXCCALLS
      modifies this
      ensures var s := SubExpr(tokens, old(pos), limit, old(nCcalls));
        if s.Parsed?
        then v == Some(s.e) && pos == s.next && nCcalls == old(nCcalls) && op == GetBinOp(Current())
        else v == None && err == s.error
      decreases MAXCCALLS - nCcalls, |tokens| + 1
    {
      hide First, GetUnOp, LeftOf, RightOf;
      v, op, err := None, None, TooManyLevels;
      nCcalls := nCcalls + 1;
      if nCcalls > MAXCCALLS { return; }
      ghost var p0 := pos;
      var uop := GetUnOp(Current());
      if uop.Some? {
        FirstUnary(tokens, p0, nCcalls);
        Next();
        var inner;
        v, inner, err := Subexpr(UNARY_PRIORITY);
        if v.None? { return; }
        v := Some(Un(uop.value, v.value));
      } else {
        v, err := SimpleExp();
        if v.None? { return; }
      }
      op := GetBinOp(Current());
      assert First(tokens, p0, nCcalls) == Parsed(v.value, pos);
      assert SubExpr(tokens, p0, limit, old(nCcalls)) == Operand(tokens, p0, limit, nCcalls);
      while op.Some? && LeftOf(op.value) > limit
        invariant v.Some? && pos <= |tokens| && nCcalls == old(nCcalls) + 1 && op == GetBinOp(Current())
        invariant SubExpr(tokens, p0, limit, old(nCcalls)) == Rest(tokens, v.value, pos, limit, nCcalls)
        decreases |tokens| - pos
      {
        Next();
        var v2, nextop;
        v2, nextop, err := Subexpr(RightOf(op.value));
        if v2.None? { v := None; return; }
        v := Some(Bin(op.value, v.value, v2.value));
        op := nextop;
      }
      nCcalls := nCcalls - 1;
    }

    /** expr: the tree is derived from the tokens read, and what follows does not go on with it; a
        tree that is derived is read, unless there are fewer levels left of the 200 than tokens. */
    method ReadExpr() returns (v: Option<Expr>, err: Error)
      requires pos <= |tokens| && nCcalls <= 200
      modifies this
      ensures v.Some? ==> Derives(tokens, old(pos), pos, v.value, 1) && Ends(tokens, pos) && nCcalls == old(nCcalls)
      ensures forall e, q: nat :: Derives(tokens, old(pos), q, e, 1) && Ends(tokens, q) ==>
        (v == Some(e) && pos == q) || (v == None && err == TooManyLevels && old(nCcalls) + (q - old(pos)) > 200)
    {
      hide Derives, Ends, SubExpr;
      ExprIsDerived(tokens, pos, nCcalls);
      var op;
      v, op, err := Subexpr(0);
    }
  }
}
