/**
 * The grammar of operator expressions, by the levels of the reference manual and without priorities:
 * subexpr reads a tree exactly where the grammar derives it from the tokens.
 */
module ParserGrammar {
  import opened Parser
  import opened ParserPrint

  /** How tightly a binary operator binds: or, and, the comparisons, concatenation, sums, products,
      and power, with the unary operators between the last two. */
  function Tightness(op: BinOp): (k: nat) {
    match op
    case OpOr => 1
    case OpAnd => 2
    case OpLt => 3 case OpGt => 3 case OpLe => 3 case OpGe => 3 case OpNe => 3 case OpEq => 3
    case OpConcat => 4
    case OpAdd => 5 case OpSub => 5
    case OpMul => 6 case OpDiv => 6 case OpMod => 6
    case OpPow => 8
  }

  const UNARY := 7
  const SIMPLE := 9

  predicate GroupsRight(op: BinOp) { op == OpConcat || op == OpPow }

  /** The levels of the operands of an operator: one on its own level may stand on the side it
      groups to, and a unary expression to the right of a power. */
  function LeftLevel(op: BinOp): nat { if GroupsRight(op) then Tightness(op) + 1 else Tightness(op) }

  function RightLevel(op: BinOp): nat {
    if op == OpPow then UNARY else if GroupsRight(op) then Tightness(op) else Tightness(op) + 1
  }

  /** The tokens from p up to q are an expression of a level, and e is its tree. */
  ghost predicate Derives(t: seq<Token>, p: nat, q: nat, e: Expr, level: nat)
    decreases q - p, SIMPLE + 1 - level
  {
    p < q <= |t| &&
    if level >= SIMPLE then
      || (q == p + 1 && e.Leaf? && t[p] == TkAtom(e.atom))
      || (q > p + 2 && t[p] == TkOpen && t[q - 1] == TkClose && Derives(t, p + 1, q - 1, e, 1))
    else
      || Derives(t, p, q, e, level + 1)
      || (level == UNARY && e.Un? && t[p] == UnToken(e.uop) && Derives(t, p + 1, q, e.arg, UNARY))
      || (e.Bin? && Tightness(e.op) == level && exists m: nat :: Splits(t, p, m, q, e))
  }

  /** The operator stands at m, between its operands. */
  ghost predicate Splits(t: seq<Token>, p: nat, m: nat, q: nat, e: Expr)
    requires e.Bin? && q <= |t|
    decreases q - p, 0
  {
    p < m && m + 1 < q && t[m] == BinToken(e.op)
    && Derives(t, p, m, e.left, LeftLevel(e.op)) && Derives(t, m + 1, q, e.right, RightLevel(e.op))
  }

  /** A parenthesis at q would call what ends there, a name or a parenthesised expression. */
  predicate Called(t: seq<Token>, q: nat) {
    TokenAt(t, q).TkOpen? && !(0 < q <= |t| && t[q - 1].TkAtom? && t[q - 1].atom.Literal?)
  }

  /** What follows does not go on with the expression. */
  predicate Ends(t: seq<Token>, q: nat) { !Called(t, q) && forall op :: TokenAt(t, q) != BinToken(op) }

  /** What is read where a limit holds. */
  function LevelOf(limit: nat): nat {
    if limit < 4 then limit + 1 else if limit == 4 then 4 else if limit < 7 then limit else UNARY
  }

  /** The priority an operator may have and not be drawn into the last operand of a level. */
  function Edge(level: nat): nat {
    if level <= 3 then level else if level == 4 then 4 else if level == 5 then 6 else if level == 6 then 7 else if level <= 8 then 8 else 10
  }

  lemma Table(op: BinOp)
    ensures LevelOf(RightOf(op)) == RightLevel(op) && Tightness(op) <= 8
    ensures forall limit: nat :: limit < LeftOf(op) ==> LevelOf(limit) <= Tightness(op)
    ensures forall k: nat :: k <= Tightness(op) && k >= 1 ==> Edge(k) <= RightOf(op) && Edge(k) <= Edge(RightLevel(op))
    ensures LeftOf(op) <= Edge(LeftLevel(op))
    ensures forall limit: nat :: limit < 10 && LevelOf(limit) <= Tightness(op) ==> limit < LeftOf(op)
  {
  }

  lemma TokensOf(tok: Token, uop: UnOp, op: BinOp)
    ensures GetUnOp(tok) == Some(uop) <==> tok == UnToken(uop)
    ensures GetBinOp(tok) == Some(op) <==> tok == BinToken(op)
  {
  }

  /** After an operator, the operators that stop its right operand may have it as left operand. */
  lemma Climbs(op: BinOp, next: BinOp)
    requires LeftOf(next) <= RightOf(op)
    ensures LeftLevel(next) <= Tightness(op)
  {
  }

  lemma {:induction false} Looser(t: seq<Token>, p: nat, q: nat, e: Expr, level: nat, low: nat)
    requires Derives(t, p, q, e, level) && low <= level
    ensures Derives(t, p, q, e, low)
    decreases level - low
  {
    if low < level && low < SIMPLE {
      if level <= SIMPLE { Looser(t, p, q, e, level, low + 1); } else { Looser(t, p, q, e, SIMPLE, low + 1); }
    }
  }

  /** What subexpr reads is derived, and what the loop goes on to read is too. */
  lemma {:induction false} SubExprDerives(t: seq<Token>, p: nat, limit: nat, level: nat)
    requires level <= MAXCCALLS && p <= |t| && SubExpr(t, p, limit, level).Parsed?
    ensures var r := SubExpr(t, p, limit, level); Derives(t, p, r.next, r.e, LevelOf(limit)) && !Called(t, r.next)
    decreases MAXCCALLS - level, 2, 0
  {
    hide Derives;
    var h := First(t, p, level + 1);
    FirstDerives(t, p, level + 1);
    forall op | GetBinOp(TokenAt(t, h.next)) == Some(op) ensures Derives(t, p, h.next, h.e, LeftLevel(op)) {
      Looser(t, p, h.next, h.e, if op == OpPow then SIMPLE else UNARY, LeftLevel(op));
    }
    Looser(t, p, h.next, h.e, UNARY, LevelOf(limit));
    RestDerives(t, p, h.e, h.next, limit, level + 1);
  }

  lemma {:induction false} FirstDerives(t: seq<Token>, p: nat, level: nat)
    requires 0 < level <= MAXCCALLS && p <= |t| && First(t, p, level).Parsed?
    ensures var h := First(t, p, level);
      Derives(t, p, h.next, h.e, UNARY) && !Called(t, h.next)
      && (GetBinOp(TokenAt(t, h.next)) == Some(OpPow) ==> Derives(t, p, h.next, h.e, SIMPLE))
    decreases MAXCCALLS - level + 1, 0, 0
  {
    var h := First(t, p, level);
    var tok := TokenAt(t, p);
    if GetUnOp(tok).Some? {
      TokensOf(tok, GetUnOp(tok).value, OpAdd);
      SubExprDerives(t, p + 1, UNARY_PRIORITY, level);
      SubExprStops(t, p + 1, UNARY_PRIORITY, level);
    } else {
      if tok.TkOpen? { SubExprDerives(t, p + 1, 0, level); }
      assert Derives(t, p, h.next, h.e, SIMPLE);
      Looser(t, p, h.next, h.e, SIMPLE, UNARY);
    }
  }

  lemma {:induction false} RestDerives(t: seq<Token>, p: nat, v: Expr, at: nat, limit: nat, level: nat)
    requires 0 < level <= MAXCCALLS && p < at <= |t| && Rest(t, v, at, limit, level).Parsed?
    requires Derives(t, p, at, v, LevelOf(limit)) && !Called(t, at)
    requires forall op :: GetBinOp(TokenAt(t, at)) == Some(op) ==> Derives(t, p, at, v, LeftLevel(op))
    ensures var r := Rest(t, v, at, limit, level); Derives(t, p, r.next, r.e, LevelOf(limit)) && !Called(t, r.next)
    decreases MAXCCALLS - level + 1, 1, |t| - at
  {
    var found := GetBinOp(TokenAt(t, at));
    if found.Some? && LeftOf(found.value) > limit {
      var op := found.value;
      var x := SubExpr(t, at + 1, RightOf(op), level);
      SubExprDerives(t, at + 1, RightOf(op), level);
      SubExprStops(t, at + 1, RightOf(op), level);
      Table(op);
      TokensOf(TokenAt(t, at), OpNot, op);
      var e := Bin(op, v, x.e);
      Joined(t, p, at, x.next, e);
      Looser(t, p, x.next, e, Tightness(op), LevelOf(limit));
      forall next | GetBinOp(TokenAt(t, x.next)) == Some(next) ensures Derives(t, p, x.next, e, LeftLevel(next)) {
        Climbs(op, next);
        Looser(t, p, x.next, e, Tightness(op), LeftLevel(next));
      }
      RestDerives(t, p, e, x.next, limit, level);
    }
  }

  lemma Joined(t: seq<Token>, p: nat, m: nat, q: nat, e: Expr)
    requires e.Bin? && p < m && m + 1 < q <= |t| && t[m] == BinToken(e.op)
    requires Derives(t, p, m, e.left, LeftLevel(e.op)) && Derives(t, m + 1, q, e.right, RightLevel(e.op))
    ensures Derives(t, p, q, e, Tightness(e.op))
  {
    assert Splits(t, p, m, q, e);
  }

  /** A derived operand is read to its end and the loop goes on from there, unless calls of subexpr
      nest too deep, for which there must be more tokens than levels left. */
  lemma {:induction false} Climb(t: seq<Token>, p: nat, q: nat, e: Expr, k: nat, limit: nat, level: nat)
    requires 0 < level <= MAXCCALLS && 0 < k <= SIMPLE && limit < 10 && LevelOf(limit) <= k && Derives(t, p, q, e, k)
    requires Follow(t, q) <= Edge(k) && !Called(t, q)
    ensures var r := Operand(t, p, limit, level);
      r == Rest(t, e, q, limit, level) || (r == Failed(TooManyLevels) && level + (q - p) > MAXCCALLS + 1)
    decreases q - p, 1, SIMPLE + 1 - k
  {
    if k >= SIMPLE {
      if t[p].TkOpen? { Settled(t, p + 1, q - 1, e, 1, 0, level); }
    } else if Derives(t, p, q, e, k + 1) {
      Climb(t, p, q, e, k + 1, limit, level);
    } else if e.Un? {
      TokensOf(t[p], e.uop, OpAdd);
      Settled(t, p + 1, q, e.arg, UNARY, UNARY_PRIORITY, level);
    } else {
      var m: nat :| Splits(t, p, m, q, e);
      ClimbBin(t, p, m, q, e, limit, level);
    }
  }

  lemma {:induction false} ClimbBin(t: seq<Token>, p: nat, m: nat, q: nat, e: Expr, limit: nat, level: nat)
    requires 0 < level <= MAXCCALLS && q <= |t| && e.Bin? && Splits(t, p, m, q, e)
    requires limit < 10 && LevelOf(limit) <= Tightness(e.op)
    requires Follow(t, q) <= Edge(Tightness(e.op)) && !Called(t, q)
    ensures var r := Operand(t, p, limit, level);
      r == Rest(t, e, q, limit, level) || (r == Failed(TooManyLevels) && level + (q - p) > MAXCCALLS + 1)
    decreases q - p, 0, 0
  {
    hide Derives;
    TokensOf(t[m], OpNot, e.op);
    Table(e.op);
    Climb(t, p, m, e.left, LeftLevel(e.op), limit, level);
    Settled(t, m + 1, q, e.right, RightLevel(e.op), RightOf(e.op), level);
  }

  /** subexpr reads what is derived where its limit stops it. */
  lemma {:induction false} Settled(t: seq<Token>, p: nat, q: nat, e: Expr, k: nat, limit: nat, level: nat)
    requires level <= MAXCCALLS && 0 < k <= SIMPLE && limit < 10 && LevelOf(limit) <= k && Derives(t, p, q, e, k)
    requires Follow(t, q) <= Edge(k) && Follow(t, q) <= limit && !Called(t, q)
    ensures var r := SubExpr(t, p, limit, level);
      r == Parsed(e, q) || (r == Failed(TooManyLevels) && level + (q - p) > MAXCCALLS)
    decreases q - p, 1, SIMPLE + 2 - k
  {
    if level < MAXCCALLS {
      Climb(t, p, q, e, k, limit, level + 1);
      assert Rest(t, e, q, limit, level + 1) == Parsed(e, q);
    }
  }

  /** expr reads what the grammar derives and nothing else, and has read all of it; it gives up only
      on an expression with more tokens than there are levels left of the 200. */
  lemma ExprIsDerived(t: seq<Token>, p: nat, level: nat)
    requires level <= 200 && p <= |t|
    ensures var r := SubExpr(t, p, 0, level); r.Parsed? ==> Derives(t, p, r.next, r.e, 1) && Ends(t, r.next)
    ensures forall e, q: nat :: Derives(t, p, q, e, 1) && Ends(t, q) ==>
      var r := SubExpr(t, p, 0, level); r == Parsed(e, q) || (r == Failed(TooManyLevels) && level + (q - p) > 200)
  {
    hide Derives;
    var r := SubExpr(t, p, 0, level);
    if r.Parsed? {
      SubExprDerives(t, p, 0, level);
      SubExprStops(t, p, 0, level);
      forall op ensures TokenAt(t, r.next) != BinToken(op) { TokensOf(TokenAt(t, r.next), OpNot, op); Table(op); }
    }
    forall e, q: nat | Derives(t, p, q, e, 1) && Ends(t, q)
      ensures r == Parsed(e, q) || (r == Failed(TooManyLevels) && level + (q - p) > 200)
    {
      if Follow(t, q) > 0 { TokensOf(TokenAt(t, q), OpNot, GetBinOp(TokenAt(t, q)).value); }
      Settled(t, p, q, e, 1, 0, level);
    }
  }

  lemma AtomDerived(t: seq<Token>, p: nat, a: Atom, level: nat)
    requires p < |t| && t[p] == TkAtom(a)
    ensures Derives(t, p, p + 1, Leaf(a), level)
  {
    assert Derives(t, p, p + 1, Leaf(a), if level < SIMPLE then SIMPLE else level);
    Looser(t, p, p + 1, Leaf(a), if level < SIMPLE then SIMPLE else level, level);
  }

  lemma BinDerived(t: seq<Token>, p: nat, m: nat, q: nat, e: Expr, level: nat)
    requires e.Bin? && p < m && m + 1 < q <= |t| && t[m] == BinToken(e.op) && level <= Tightness(e.op)
    requires Derives(t, p, m, e.left, LeftLevel(e.op)) && Derives(t, m + 1, q, e.right, RightLevel(e.op))
    ensures Derives(t, p, q, e, level)
  {
    hide Derives;
    Joined(t, p, m, q, e);
    Looser(t, p, q, e, Tightness(e.op), level);
  }

  /** Whether the second of two operators goes inside: when it binds tighter, or as tight and they
      group to the right. */
  predicate Inner(op1: BinOp, op2: BinOp) {
    Tightness(op2) > Tightness(op1) || (Tightness(op2) == Tightness(op1) && GroupsRight(op1))
  }

  lemma Sides(op: BinOp)
    ensures 0 < Tightness(op) && LeftLevel(op) <= Tightness(op) + 1 && RightLevel(op) <= Tightness(op) + 1
    ensures if Tightness(op) == 4 || Tightness(op) == 8 then GroupsRight(op) && RightLevel(op) <= Tightness(op)
            else !GroupsRight(op) && LeftLevel(op) == Tightness(op)
  {
  }

  lemma InsideOrOut(op1: BinOp, op2: BinOp)
    ensures 0 < Tightness(op1) && 0 < Tightness(op2)
    ensures if Inner(op1, op2) then RightLevel(op1) <= Tightness(op2) else LeftLevel(op2) <= Tightness(op1)
  {
    hide Tightness, LeftLevel, RightLevel, GroupsRight;
    Sides(op1);
    Sides(op2);
  }

  /** `x op1 y op2 z`. */
  lemma PairGroups(t: seq<Token>, p: nat, x: Atom, op1: BinOp, y: Atom, op2: BinOp, z: Atom, level: nat)
    requires p + 5 <= |t| && t[p..p + 5] == [TkAtom(x), BinToken(op1), TkAtom(y), BinToken(op2), TkAtom(z)]
    requires Ends(t, p + 5) && level + 5 <= 200
    ensures SubExpr(t, p, 0, level) == Parsed(
      if Inner(op1, op2) then Bin(op1, Leaf(x), Bin(op2, Leaf(y), Leaf(z))) else Bin(op2, Bin(op1, Leaf(x), Leaf(y)), Leaf(z)), p + 5)
  {
    hide Derives, SubExpr, Ends, BinToken, Tightness, LeftLevel, RightLevel, Inner, GroupsRight;
    assert t[p] == t[p..p + 5][0] && t[p + 1] == t[p..p + 5][1] && t[p + 2] == t[p..p + 5][2]
        && t[p + 3] == t[p..p + 5][3] && t[p + 4] == t[p..p + 5][4];
    InsideOrOut(op1, op2);
    AtomDerived(t, p, x, LeftLevel(op1));
    AtomDerived(t, p + 4, z, RightLevel(op2));
    if Inner(op1, op2) {
      AtomDerived(t, p + 2, y, LeftLevel(op2));
      BinDerived(t, p + 2, p + 3, p + 5, Bin(op2, Leaf(y), Leaf(z)), RightLevel(op1));
      BinDerived(t, p, p + 1, p + 5, Bin(op1, Leaf(x), Bin(op2, Leaf(y), Leaf(z))), 1);
    } else {
      AtomDerived(t, p + 2, y, RightLevel(op1));
      BinDerived(t, p, p + 1, p + 3, Bin(op1, Leaf(x), Leaf(y)), LeftLevel(op2));
      BinDerived(t, p, p + 3, p + 5, Bin(op2, Bin(op1, Leaf(x), Leaf(y)), Leaf(z)), 1);
    }
    ExprIsDerived(t, p, level);
  }

  lemma UnaryDerived(t: seq<Token>, p: nat, q: nat, uop: UnOp, arg: Expr)
    requires p < q <= |t| && t[p] == UnToken(uop) && Derives(t, p + 1, q, arg, UNARY)
    ensures Derives(t, p, q, Un(uop, arg), UNARY)
  {
  }

  /** `uop x op y`: only a power goes inside the unary operator. */
  lemma UnaryGroups(t: seq<Token>, p: nat, uop: UnOp, x: Atom, op: BinOp, y: Atom, level: nat)
    requires p + 4 <= |t| && t[p..p + 4] == [UnToken(uop), TkAtom(x), BinToken(op), TkAtom(y)]
    requires Ends(t, p + 4) && level + 4 <= 200
    ensures SubExpr(t, p, 0, level) ==
      Parsed(if op == OpPow then Un(uop, Bin(op, Leaf(x), Leaf(y))) else Bin(op, Un(uop, Leaf(x)), Leaf(y)), p + 4)
  {
    hide Derives;
    assert t[p] == t[p..p + 4][0] && t[p + 1] == t[p..p + 4][1] && t[p + 2] == t[p..p + 4][2] && t[p + 3] == t[p..p + 4][3];
    AtomDerived(t, p + 3, y, RightLevel(op));
    if op == OpPow {
      AtomDerived(t, p + 1, x, LeftLevel(op));
      var inner := Bin(op, Leaf(x), Leaf(y));
      BinDerived(t, p + 1, p + 2, p + 4, inner, UNARY);
      UnaryDerived(t, p, p + 4, uop, inner);
      Looser(t, p, p + 4, Un(uop, inner), UNARY, 1);
    } else {
      AtomDerived(t, p + 1, x, UNARY);
      UnaryDerived(t, p, p + 2, uop, Leaf(x));
      Looser(t, p, p + 2, Un(uop, Leaf(x)), UNARY, LeftLevel(op));
      var e := Bin(op, Un(uop, Leaf(x)), Leaf(y));
      BinDerived(t, p, p + 2, p + 4, e, 1);
    }
    ExprIsDerived(t, p, level);
  }

  /** `x op uop y`: the unary expression is the right operand, of a power too. */
  lemma UnaryRight(t: seq<Token>, p: nat, x: Atom, op: BinOp, uop: UnOp, y: Atom, level: nat)
    requires p + 4 <= |t| && t[p..p + 4] == [TkAtom(x), BinToken(op), UnToken(uop), TkAtom(y)]
    requires Ends(t, p + 4) && level + 4 <= 200
    ensures SubExpr(t, p, 0, level) == Parsed(Bin(op, Leaf(x), Un(uop, Leaf(y))), p + 4)
  {
    hide Derives;
    assert t[p] == t[p..p + 4][0] && t[p + 1] == t[p..p + 4][1] && t[p + 2] == t[p..p + 4][2] && t[p + 3] == t[p..p + 4][3];
    AtomDerived(t, p, x, LeftLevel(op));
    AtomDerived(t, p + 3, y, UNARY);
    UnaryDerived(t, p + 2, p + 4, uop, Leaf(y));
    Looser(t, p + 2, p + 4, Un(uop, Leaf(y)), UNARY, RightLevel(op));
    var e := Bin(op, Leaf(x), Un(uop, Leaf(y)));
    BinDerived(t, p, p + 1, p + 4, e, 1);
    ExprIsDerived(t, p, level);
  }

  predicate OpensLevel(tok: Token) { tok == TkNot || tok == TkMinus || tok == TkHash || tok == TkOpen }

  /** As many unary operators and parentheses as there are levels left of the 200 are too many. */
  lemma {:induction false} TooDeep(t: seq<Token>, p: nat, limit: nat, level: nat)
    requires level <= 200 && p + (200 - level) <= |t|
    requires forall i :: p <= i < p + (200 - level) ==> OpensLevel(t[i])
    ensures SubExpr(t, p, limit, level) == Failed(TooManyLevels)
    decreases 200 - level
  {
    if level < 200 {
      assert OpensLevel(t[p]);
      TooDeep(t, p + 1, if t[p].TkOpen? then 0 else UNARY_PRIORITY, level + 1);
      assert First(t, p, level + 1) == Failed(TooManyLevels);
    }
  }
}
