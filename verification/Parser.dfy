/**
 * Operator expressions (lparser.c, subexpr): precedence climbing over a table of left and right
 * priorities.  A simple expression is a literal, a name or a parenthesised expression.
 */
module Parser {

  datatype UnOp = OpNot | OpMinus | OpLen

  datatype BinOp =
    | OpAdd | OpSub | OpMul | OpDiv | OpMod | OpPow | OpConcat
    | OpNe | OpEq | OpLt | OpLe | OpGt | OpGe | OpAnd | OpOr

  datatype Atom = Literal(value: int) | Name(name: int)

  /** Other stands for every token that neither starts an expression nor continues one. */
  datatype Token =
    | TkAtom(atom: Atom) | TkOpen | TkClose | TkNot | TkHash
    | TkPlus | TkMinus | TkStar | TkSlash | TkPercent | TkCaret | TkConcat
    | TkNe | TkEq | TkLt | TkLe | TkGt | TkGe | TkAnd | TkOr | TkOther

  /** The tree that luaK_prefix, luaK_infix and luaK_posfix are called in the order of. */
  datatype Expr = Leaf(atom: Atom) | Un(uop: UnOp, arg: Expr) | Bin(op: BinOp, left: Expr, right: Expr)

  datatype Option<T> = None | Some(value: T)

  datatype Error = TooManyLevels | UnexpectedSymbol | CloseExpected | CallSuffix

  datatype Result = Parsed(e: Expr, next: nat) | Failed(error: Error)

  const MAXCCALLS: nat := 200
  const UNARY_PRIORITY: nat := 8

  function GetUnOp(t: Token): Option<UnOp> {
    match t
    case TkNot => Some(OpNot)
    case TkMinus => Some(OpMinus)
    case TkHash => Some(OpLen)
    case _ => None
  }

  function GetBinOp(t: Token): Option<BinOp> {
    match t
    case TkPlus => Some(OpAdd)
    case TkMinus => Some(OpSub)
    case TkStar => Some(OpMul)
    case TkSlash => Some(OpDiv)
    case TkPercent => Some(OpMod)
    case TkCaret => Some(OpPow)
    case TkConcat => Some(OpConcat)
    case TkNe => Some(OpNe)
    case TkEq => Some(OpEq)
    case TkLt => Some(OpLt)
    case TkLe => Some(OpLe)
    case TkGt => Some(OpGt)
    case TkGe => Some(OpGe)
    case TkAnd => Some(OpAnd)
    case TkOr => Some(OpOr)
    case _ => None
  }

  function LeftOf(op: BinOp): nat {
    match op
    case OpAdd => 6 case OpSub => 6
    case OpMul => 7 case OpDiv => 7 case OpMod => 7
    case OpPow => 10 case OpConcat => 5
    case OpNe => 3 case OpEq => 3
    case OpLt => 3 case OpLe => 3 case OpGt => 3 case OpGe => 3
    case OpAnd => 2 case OpOr => 1
  }

  function RightOf(op: BinOp): nat {
    match op
    case OpAdd => 6 case OpSub => 6
    case OpMul => 7 case OpDiv => 7 case OpMod => 7
    case OpPow => 9 case OpConcat => 4
    case OpNe => 3 case OpEq => 3
    case OpLt => 3 case OpLe => 3 case OpGt => 3 case OpGe => 3
    case OpAnd => 2 case OpOr => 1
  }

  /** The token at p, or the end of the stream. */
  function TokenAt(t: seq<Token>, p: nat): Token { if p < |t| then t[p] else TkOther }

  /** subexpr entered with nCcalls == level: a first operand, then operators above limit. */
  function SubExpr(t: seq<Token>, p: nat, limit: nat, level: nat): (r: Result)
    requires level <= MAXCCALLS && p <= |t|
    ensures r.Parsed? ==> p < r.next <= |t|
    decreases MAXCCALLS - level, |t| + 2
  {
    if level == MAXCCALLS then Failed(TooManyLevels)
    else Operand(t, p, limit, level + 1)
  }

  /** The body of subexpr, one level further in. */
  function Operand(t: seq<Token>, p: nat, limit: nat, level: nat): (r: Result)
    requires 0 < level <= MAXCCALLS && p <= |t|
    ensures r.Parsed? ==> p < r.next <= |t|
    decreases MAXCCALLS - level + 1, |t| + 1
  {
    var h := First(t, p, level);
    if h.Failed? then h else Rest(t, h.e, h.next, limit, level)
  }

  /** A unary operator and its operand, or a simple expression. */
  function First(t: seq<Token>, p: nat, level: nat): (r: Result)
    requires 0 < level <= MAXCCALLS && p <= |t|
    ensures r.Parsed? ==> p < r.next <= |t|
    decreases MAXCCALLS - level + 1, 0
  {
    var tok := TokenAt(t, p);
    if GetUnOp(tok).Some? then
      var x := SubExpr(t, p + 1, UNARY_PRIORITY, level);
      if x.Failed? then x else Parsed(Un(GetUnOp(tok).value, x.e), x.next)
    else if tok.TkAtom? then
      if tok.atom.Name? && TokenAt(t, p + 1).TkOpen? then Failed(CallSuffix) else Parsed(Leaf(tok.atom), p + 1)
    else if tok.TkOpen? then
      var x := SubExpr(t, p + 1, 0, level);
      if x.Failed? then x
      else if !TokenAt(t, x.next).TkClose? then Failed(CloseExpected)
      else if TokenAt(t, x.next + 1).TkOpen? then Failed(CallSuffix)
      else Parsed(x.e, x.next + 1)
    else Failed(UnexpectedSymbol)
  }

  /** The loop: v read so far, the next token at p. */
  function Rest(t: seq<Token>, v: Expr, p: nat, limit: nat, level: nat): (r: Result)
    requires 0 < level <= MAXCCALLS && p <= |t|
    ensures r.Parsed? ==> p <= r.next <= |t|
    decreases MAXCCALLS - level + 1, |t| - p
  {
    var op := GetBinOp(TokenAt(t, p));
    if op.None? || LeftOf(op.value) <= limit then Parsed(v, p)
    else
      var x := SubExpr(t, p + 1, RightOf(op.value), level);
      if x.Failed? then x else Rest(t, Bin(op.value, v, x.e), x.next, limit, level)
  }
}
