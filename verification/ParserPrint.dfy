/**
 * Printing an operator tree with only the parentheses the priority table requires: parsing the
 * result gives the tree back, and no shorter token list does.
 */
module ParserPrint {
  import opened Parser

  function UnToken(op: UnOp): Token {
    match op case OpNot => TkNot case OpMinus => TkMinus case OpLen => TkHash
  }

  function BinToken(op: BinOp): Token {
    match op
    case OpAdd => TkPlus case OpSub => TkMinus case OpMul => TkStar case OpDiv => TkSlash
    case OpMod => TkPercent case OpPow => TkCaret case OpConcat => TkConcat
    case OpNe => TkNe case OpEq => TkEq case OpLt => TkLt case OpLe => TkLe
    case OpGt => TkGt case OpGe => TkGe case OpAnd => TkAnd case OpOr => TkOr
  }

  /** Left priority of the operator at p; 0 when there is none. */
  function Follow(t: seq<Token>, p: nat): nat {
    var op := GetBinOp(TokenAt(t, p));
    if op.Some? then LeftOf(op.value) else 0
  }

  /** Whether e needs no parentheses where subexpr runs with limit and an operator of left
      priority follow comes next: its own operator is taken, and the next one is not taken
      into its last operand. */
  predicate Fits(e: Expr, limit: nat, follow: nat) {
    match e
    case Leaf(_) => true
    case Un(_, _) => follow <= UNARY_PRIORITY
    case Bin(op, _, _) => limit < LeftOf(op) && follow <= RightOf(op)
  }

  function Print(e: Expr, limit: nat, follow: nat): (s: seq<Token>)
    ensures |s| > 0
    decreases e, 1
  {
    if Fits(e, limit, follow) then Bare(e, limit, follow)
    else [TkOpen] + Bare(e, 0, 0) + [TkClose]
  }

  function Bare(e: Expr, limit: nat, follow: nat): (s: seq<Token>)
    ensures |s| > 0
    decreases e, 0
  {
    match e
    case Leaf(a) => [TkAtom(a)]
    case Un(op, x) => [UnToken(op)] + Print(x, UNARY_PRIORITY, follow)
    case Bin(op, l, r) => Print(l, limit, LeftOf(op)) + [BinToken(op)] + Print(r, RightOf(op), follow)
  }

  function Max(a: nat, b: nat): nat { if a < b then b else a }

  /** How many calls of subexpr are nested inside the one that reads the printed tree. */
  function Levels(e: Expr, limit: nat, follow: nat): nat
    decreases e, 1
  {
    if Fits(e, limit, follow) then BareLevels(e, limit, follow) else 1 + BareLevels(e, 0, 0)
  }

  function BareLevels(e: Expr, limit: nat, follow: nat): nat
    decreases e, 0
  {
    match e
    case Leaf(_) => 0
    case Un(_, x) => 1 + Levels(x, UNARY_PRIORITY, follow)
    case Bin(op, l, r) => Max(Levels(l, limit, LeftOf(op)), 1 + Levels(r, RightOf(op), follow))
  }

  /** s is at p in t, and what comes after cannot be taken for call arguments. */
  ghost predicate Stands(t: seq<Token>, p: nat, s: seq<Token>) {
    p + |s| <= |t| && t[p..p + |s|] == s && !TokenAt(t, p + |s|).TkOpen?
  }

  /** subexpr(limit) stops at the first operator that does not bind tighter than limit. */
  lemma {:induction false} StopsAtLimit(t: seq<Token>, v: Expr, p: nat, limit: nat, level: nat)
    requires 0 < level <= MAXCCALLS && p <= |t| && Rest(t, v, p, limit, level).Parsed?
    ensures Follow(t, Rest(t, v, p, limit, level).next) <= limit
    decreases |t| - p
  {
    var op := GetBinOp(TokenAt(t, p));
    if op.Some? && LeftOf(op.value) > limit {
      var x := SubExpr(t, p + 1, RightOf(op.value), level);
      StopsAtLimit(t, Bin(op.value, v, x.e), x.next, limit, level);
    }
  }

  lemma SubExprStops(t: seq<Token>, p: nat, limit: nat, level: nat)
    requires level <= MAXCCALLS && p <= |t| && SubExpr(t, p, limit, level).Parsed?
    ensures Follow(t, SubExpr(t, p, limit, level).next) <= limit
  {
    var h := First(t, p, level + 1);
    StopsAtLimit(t, h.e, h.next, limit, level + 1);
  }

  /** After the operand comes q: what reading on from there gives, unless e nests too deep. */
  ghost predicate ReadsAs(t: seq<Token>, p: nat, e: Expr, q: nat, limit: nat, level: nat, levels: nat)
    requires 0 < level <= MAXCCALLS && p <= |t| && q <= |t|
  {
    Operand(t, p, limit, level) == if level + levels <= MAXCCALLS then Rest(t, e, q, limit, level) else Failed(TooManyLevels)
  }

  lemma StandsPart(t: seq<Token>, p: nat, a: seq<Token>, b: seq<Token>)
    requires Stands(t, p, a + b)
    ensures p + |a| <= |t| && t[p..p + |a|] == a && Stands(t, p + |a|, b)
    ensures b != [] && !b[0].TkOpen? ==> Stands(t, p, a)
  {
    var s := a + b;
    assert a == s[..|a|] && b == s[|a|..];
    assert t[p..p + |a|] == t[p..p + |s|][..|a|];
    assert t[p + |a|..p + |s|] == t[p..p + |s|][|a|..];
    if b != [] { assert t[p + |a|] == t[p + |a|..p + |s|][0] == b[0]; }
  }

  lemma TokensBack(uop: UnOp, op: BinOp)
    ensures GetUnOp(UnToken(uop)) == Some(uop) && GetBinOp(BinToken(op)) == Some(op)
    ensures !BinToken(op).TkOpen?
  {
  }

  /** A subexpr whose loop would stop at once at q has read exactly x. */
  lemma Inside(t: seq<Token>, p: nat, x: Expr, q: nat, limit: nat, level: nat, levels: nat)
    requires 0 < level <= MAXCCALLS && p <= |t| && q <= |t| && Follow(t, q) <= limit
    requires level < MAXCCALLS ==> ReadsAs(t, p, x, q, limit, level + 1, levels)
    ensures SubExpr(t, p, limit, level) == if level + 1 + levels <= MAXCCALLS then Parsed(x, q) else Failed(TooManyLevels)
  {
    if level < MAXCCALLS {
      assert Rest(t, x, q, limit, level + 1) == Parsed(x, q);
    }
  }

  lemma ReadsUn(t: seq<Token>, p: nat, op: UnOp, x: Expr, q: nat, limit: nat, level: nat, levels: nat)
    requires 0 < level <= MAXCCALLS && p < |t| && q <= |t| && t[p] == UnToken(op) && Follow(t, q) <= UNARY_PRIORITY
    requires level < MAXCCALLS ==> ReadsAs(t, p + 1, x, q, UNARY_PRIORITY, level + 1, levels)
    ensures ReadsAs(t, p, Un(op, x), q, limit, level, 1 + levels)
  {
    TokensBack(op, OpAdd);
    Inside(t, p + 1, x, q, UNARY_PRIORITY, level, levels);
  }

  lemma ReadsParens(t: seq<Token>, p: nat, x: Expr, q: nat, limit: nat, level: nat, levels: nat)
    requires 0 < level <= MAXCCALLS && p < q < |t| && t[p] == TkOpen && t[q] == TkClose
    requires !TokenAt(t, q + 1).TkOpen?
    requires level < MAXCCALLS ==> ReadsAs(t, p + 1, x, q, 0, level + 1, levels)
    ensures ReadsAs(t, p, x, q + 1, limit, level, 1 + levels)
  {
    Inside(t, p + 1, x, q, 0, level, levels);
  }

  lemma ReadsBin(t: seq<Token>, p: nat, l: Expr, p1: nat, op: BinOp, r: Expr, q: nat, limit: nat, level: nat, ll: nat, lr: nat)
    requires 0 < level <= MAXCCALLS && p <= |t| && p1 < |t| && q <= |t| && t[p1] == BinToken(op)
    requires limit < LeftOf(op) && Follow(t, q) <= RightOf(op)
    requires ReadsAs(t, p, l, p1, limit, level, ll)
    requires level < MAXCCALLS ==> ReadsAs(t, p1 + 1, r, q, RightOf(op), level + 1, lr)
    ensures ReadsAs(t, p, Bin(op, l, r), q, limit, level, Max(ll, 1 + lr))
  {
    TokensBack(OpNot, op);
    Inside(t, p1 + 1, r, q, RightOf(op), level, lr);
  }

  /** Reading the printed e as the first operand of subexpr(limit) leaves the loop with e. */
  lemma {:induction false} Reads(t: seq<Token>, p: nat, e: Expr, limit: nat, follow: nat, level: nat)
    requires 0 < level <= MAXCCALLS && Stands(t, p, Print(e, limit, follow))
    requires Follow(t, p + |Print(e, limit, follow)|) <= follow
    ensures ReadsAs(t, p, e, p + |Print(e, limit, follow)|, limit, level, Levels(e, limit, follow))
    decreases e, 1
  {
    hide ReadsAs, Bare, BareLevels;
    if Fits(e, limit, follow) {
      ReadsBare(t, p, e, limit, follow, level);
    } else {
      var bare := Bare(e, 0, 0);
      var q := p + 1 + |bare|;
      StandsPart(t, p, [TkOpen] + bare, [TkClose]);
      StandsPart(t, p, [TkOpen], bare);
      assert t[p] == t[p..p + 1][0] && t[q] == t[q..q + 1][0];
      if level < MAXCCALLS {
        ReadsBare(t, p + 1, e, 0, 0, level + 1);
      }
      ReadsParens(t, p, e, q, limit, level, BareLevels(e, 0, 0));
    }
  }

  lemma {:induction false} ReadsBare(t: seq<Token>, p: nat, e: Expr, limit: nat, follow: nat, level: nat)
    requires 0 < level <= MAXCCALLS && Stands(t, p, Bare(e, limit, follow)) && Fits(e, limit, follow)
    requires Follow(t, p + |Bare(e, limit, follow)|) <= follow
    ensures ReadsAs(t, p, e, p + |Bare(e, limit, follow)|, limit, level, BareLevels(e, limit, follow))
    decreases e, 0
  {
    hide ReadsAs, Print, Levels;
    match e
    case Leaf(a) => ReadsLeaf(t, p, a, limit, level);
    case Un(op, x) =>
      StandsPart(t, p, [UnToken(op)], Print(x, UNARY_PRIORITY, follow));
      assert t[p] == t[p..p + 1][0];
      if level < MAXCCALLS {
        Reads(t, p + 1, x, UNARY_PRIORITY, follow, level + 1);
      }
      ReadsUn(t, p, op, x, p + |Bare(e, limit, follow)|, limit, level, Levels(x, UNARY_PRIORITY, follow));
    case Bin(op, l, r) =>
      var p1 := p + |Print(l, limit, LeftOf(op))|;
      BinStands(t, p, op, l, r, limit, follow);
      Reads(t, p, l, limit, LeftOf(op), level);
      if level < MAXCCALLS {
        Reads(t, p1 + 1, r, RightOf(op), follow, level + 1);
      }
      ReadsBin(t, p, l, p1, op, r, p + |Bare(e, limit, follow)|, limit, level,
        Levels(l, limit, LeftOf(op)), Levels(r, RightOf(op), follow));
  }

  lemma BinStands(t: seq<Token>, p: nat, op: BinOp, l: Expr, r: Expr, limit: nat, follow: nat)
    requires Stands(t, p, Bare(Bin(op, l, r), limit, follow))
    ensures var left := Print(l, limit, LeftOf(op));
      var p1 := p + |left|;
      && Stands(t, p, left) && p1 < |t| && t[p1] == BinToken(op) && Follow(t, p1) == LeftOf(op)
      && Stands(t, p1 + 1, Print(r, RightOf(op), follow))
  {
    hide Print;
    var left, right := Print(l, limit, LeftOf(op)), Print(r, RightOf(op), follow);
    var p1 := p + |left|;
    TokensBack(OpNot, op);
    assert Bare(Bin(op, l, r), limit, follow) == left + ([BinToken(op)] + right);
    StandsPart(t, p, left, [BinToken(op)] + right);
    StandsPart(t, p1, [BinToken(op)], right);
    assert t[p1] == t[p1..p1 + 1][0];
  }

  lemma ReadsLeaf(t: seq<Token>, p: nat, a: Atom, limit: nat, level: nat)
    requires 0 < level <= MAXCCALLS && Stands(t, p, [TkAtom(a)])
    ensures ReadsAs(t, p, Leaf(a), p + 1, limit, level, 0)
  {
    assert t[p] == t[p..p + 1][0];
  }

  /** Parsing the printed tree at limit 0 gives the tree and takes every token; it fails exactly
      when the nesting exceeds the limit on C calls. */
  lemma {:induction false} PrintParses(e: Expr, level: nat)
    requires level <= MAXCCALLS
    ensures var t := Print(e, 0, 0);
      SubExpr(t, 0, 0, level) ==
      if level + 1 + Levels(e, 0, 0) <= MAXCCALLS then Parsed(e, |t|) else Failed(TooManyLevels)
  {
    var t := Print(e, 0, 0);
    assert t[0..|t|] == t;
    if level < MAXCCALLS { Reads(t, 0, e, 0, 0, level + 1); }
  }

  /** Nothing binds at 8 or 9 from the left, and right priorities are the left ones or one less. */
  predicate IsLeft(f: nat) { f <= 7 || f == 10 }

  lemma {:induction false} SameBelow(e: Expr, limit: nat, follow: nat)
    requires follow <= limit <= 9 && IsLeft(follow)
    ensures Print(e, limit, follow) == Print(e, limit, 0)
    decreases e
  {
    match e
    case Leaf(_) =>
    case Un(_, x) => if follow <= UNARY_PRIORITY { SameBelow(x, UNARY_PRIORITY, follow); }
    case Bin(op, _, r) => if follow <= RightOf(op) { SameBelow(r, RightOf(op), follow); }
  }

  lemma {:induction false} SameAbove(e: Expr, limit: nat, follow: nat)
    requires limit < follow
    ensures Print(e, limit, follow) == Print(e, 0, follow)
    decreases e
  {
    match e
    case Leaf(_) =>
    case Un(_, _) =>
    case Bin(op, l, _) => if limit < LeftOf(op) { SameAbove(l, limit, LeftOf(op)); }
  }

  /** Parentheses of its own are all that a tighter place can cost. */
  lemma {:induction false} PlaceCosts(e: Expr, limit: nat, follow: nat)
    requires IsLeft(follow)
    ensures |Print(e, limit, follow)| <= |Print(e, 0, 0)| + 2
  {
    if Fits(e, limit, follow) {
      match e
      case Leaf(_) =>
      case Un(_, x) => SameBelow(x, UNARY_PRIORITY, follow);
      case Bin(op, l, r) =>
        SameAbove(l, limit, LeftOf(op));
        SameBelow(r, RightOf(op), follow);
    }
  }

  /** Any token list that parses to e is at least as long as the printed e. */
  lemma {:induction false} Shortest(t: seq<Token>, p: nat, limit: nat, level: nat)
    requires level <= MAXCCALLS && p <= |t| && SubExpr(t, p, limit, level).Parsed?
    ensures var s := SubExpr(t, p, limit, level);
      |Print(s.e, limit, Follow(t, s.next))| <= s.next - p
    decreases MAXCCALLS - level, |t| + 1
  {
    var h := First(t, p, level + 1);
    ShortestFirst(t, p, limit, level + 1);
    ShortestRest(t, h.e, h.next, p, limit, level + 1);
  }

  lemma {:induction false} ShortestFirst(t: seq<Token>, p: nat, limit: nat, level: nat)
    requires 0 < level <= MAXCCALLS && p <= |t| && First(t, p, level).Parsed?
    ensures var h := First(t, p, level);
      |Print(h.e, limit, Follow(t, h.next))| <= h.next - p
    decreases MAXCCALLS - level + 1, 0
  {
    var tok := TokenAt(t, p);
    if GetUnOp(tok).Some? {
      Shortest(t, p + 1, UNARY_PRIORITY, level);
      SubExprStops(t, p + 1, UNARY_PRIORITY, level);
    } else if tok.TkOpen? {
      Shortest(t, p + 1, 0, level);
      SubExprStops(t, p + 1, 0, level);
      var x := SubExpr(t, p + 1, 0, level);
      PlaceCosts(x.e, limit, Follow(t, x.next + 1));
    }
  }

  lemma {:induction false} ShortestRest(t: seq<Token>, v: Expr, p: nat, start: nat, limit: nat, level: nat)
    requires 0 < level <= MAXCCALLS && start <= p <= |t| && Rest(t, v, p, limit, level).Parsed?
    requires |Print(v, limit, Follow(t, p))| <= p - start
    ensures var s := Rest(t, v, p, limit, level);
      |Print(s.e, limit, Follow(t, s.next))| <= s.next - start
    decreases MAXCCALLS - level + 1, |t| - p
  {
    var op := GetBinOp(TokenAt(t, p));
    if op.Some? && LeftOf(op.value) > limit {
      var right := RightOf(op.value);
      Shortest(t, p + 1, right, level);
      SubExprStops(t, p + 1, right, level);
      var x := SubExpr(t, p + 1, right, level);
      ShortestRest(t, Bin(op.value, v, x.e), x.next, start, limit, level);
    }
  }

  /** The printed tree is the shortest token list that parses to it. */
  lemma PrintIsShortest(t: seq<Token>, level: nat)
    requires level <= MAXCCALLS
    requires SubExpr(t, 0, 0, level).Parsed? && SubExpr(t, 0, 0, level).next == |t|
    ensures |Print(SubExpr(t, 0, 0, level).e, 0, 0)| <= |t|
  {
    Shortest(t, 0, 0, level);
  }
}
