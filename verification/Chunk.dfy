/** The binary chunk format: the bytes of numbers, strings and prototypes, and how they are read. */
module Chunk {
  import opened Bytecode
  import opened Checker
  import opened Powers

  const HEADERSIZE := 12
  const MAXCCALLS := 200

  const TNIL := 0
  const TBOOLEAN := 1
  const TNUMBER := 5
  const TSTRING := 6

  // ---------------------------------------------------------------- numbers

  function Pow256(k: nat): (r: nat)
    ensures r >= 1
  {
    if k == 0 then 1 else 256 * Pow256(k - 1)
  }

  /** k bytes, the least significant first. */
  function LittleBytes(x: nat, k: nat): (s: seq<Byte>)
    ensures |s| == k
  {
    if k == 0 then [] else [x % 256] + LittleBytes(x / 256, k - 1)
  }

  function LittleValue(s: seq<Byte>): nat { if s == [] then 0 else s[0] + 256 * LittleValue(s[1..]) }

  function Reversed(s: seq<Byte>): (r: seq<Byte>)
    ensures |r| == |s| && forall i :: 0 <= i < |s| ==> r[i] == s[|s| - 1 - i]
  {
    seq(|s|, i requires 0 <= i < |s| => s[|s| - 1 - i])
  }

  lemma ReversedTwice(s: seq<Byte>)
    ensures Reversed(Reversed(s)) == s
  {
  }

  /** The bytes of a number on a machine of some byte order. */
  function NumberBytes(x: nat, k: nat, little: bool): (s: seq<Byte>)
    ensures |s| == k
  {
    if little then LittleBytes(x, k) else Reversed(LittleBytes(x, k))
  }

  function NumberValue(s: seq<Byte>, little: bool): nat { LittleValue(if little then s else Reversed(s)) }

  lemma {:induction false} LittleTrip(x: nat, k: nat)
    requires x < Pow256(k)
    ensures LittleValue(LittleBytes(x, k)) == x
  {
    if k > 0 {
      LittleTrip(x / 256, k - 1);
      assert LittleBytes(x, k)[1..] == LittleBytes(x / 256, k - 1);
    }
  }

  /** A number reads back on any machine from the bytes for its own order. */
  lemma NumberTrip(x: nat, k: nat, little: bool)
    requires x < Pow256(k)
    ensures NumberValue(NumberBytes(x, k, little), little) == x
  {
    LittleTrip(x, k);
    ReversedTwice(LittleBytes(x, k));
  }

  lemma WordPowers()
    ensures Pow256(4) == WORDS && Pow256(8) == WORDS * WORDS
  {
    assert Pow256(2) == 0x1_0000;
    assert Pow256(4) == WORDS;
    assert Pow256(6) == WORDS * 0x1_0000;
  }

  /** A C int of 32 bits as a word. */
  function IntWord(x: int): Word
    requires -WORDS / 2 <= x < WORDS / 2
  {
    if x < 0 then x + WORDS else x
  }

  function WordInt(w: Word): int { if w >= WORDS / 2 then w - WORDS else w }

  // ---------------------------------------------------------------- what is written

  function IntBytes(x: int, little: bool): (s: seq<Byte>)
    requires -WORDS / 2 <= x < WORDS / 2
    ensures |s| == 4
  {
    NumberBytes(IntWord(x), 4, little)
  }

  /** Zeros up to a multiple of four. */
  function Padding(at: int): (s: seq<Byte>)
    ensures (at + |s|) % 4 == 0 && |s| < 4
  {
    seq((4 - at % 4) % 4, _ => 0)
  }

  function TextBytes(t: Text, little: bool): seq<Byte>
    requires TextFits(t)
  {
    match t
    case NoText => IntBytes(0, little)
    case Text(s) => IntBytes(|s| + 1, little) + s + [0]
  }

  predicate TextFits(t: Text) { t.Text? ==> |t.s| + 1 < WORDS / 2 }

  function ConstBytes(k: Const, little: bool): seq<Byte>
    requires ConstFits(k)
  {
    match k
    case KNil => [TNIL]
    case KBool(b) => [TBOOLEAN, if b then 1 else 0]
    case KNumber(x) => [TNUMBER] + NumberBytes(x, 8, little)
    case KString(t) => [TSTRING] + TextBytes(t, little)
  }

  predicate ConstFits(k: Const) { (k.KString? ==> TextFits(k.s) && k.s.Text?) && (k.KNumber? ==> k.bits < WORDS * WORDS) }

  function ConstsBytes(ks: seq<Const>, little: bool): seq<Byte>
    requires forall i :: 0 <= i < |ks| ==> ConstFits(ks[i])
  {
    if ks == [] then [] else ConstBytes(ks[0], little) + ConstsBytes(ks[1..], little)
  }

  function WordsBytes(ws: seq<Word>, little: bool): seq<Byte> {
    if ws == [] then [] else NumberBytes(ws[0], 4, little) + WordsBytes(ws[1..], little)
  }

  /** An int that luaU_dump writes and luaU_undump reads back as a size or line. */
  predicate IntFits(x: int) { 0 <= x < WORDS / 2 - 1 }

  function IntsBytes(xs: seq<int>, little: bool): seq<Byte>
    requires forall i :: 0 <= i < |xs| ==> IntFits(xs[i])
  {
    if xs == [] then []
    else
      assert IntFits(xs[0]);
      IntBytes(xs[0], little) + IntsBytes(xs[1..], little)
  }

  predicate LocVarFits(v: LocVar) { TextFits(v.varname) && IntFits(v.startpc) && IntFits(v.endpc) }

  function LocVarsBytes(vs: seq<LocVar>, little: bool): seq<Byte>
    requires forall i :: 0 <= i < |vs| ==> LocVarFits(vs[i])
  {
    if vs == [] then []
    else
      assert LocVarFits(vs[0]);
      TextBytes(vs[0].varname, little) + IntBytes(vs[0].startpc, little) + IntBytes(vs[0].endpc, little) + LocVarsBytes(vs[1..], little)
  }

  function TextsBytes(ts: seq<Text>, little: bool): seq<Byte>
    requires forall i :: 0 <= i < |ts| ==> TextFits(ts[i])
  {
    if ts == [] then [] else TextBytes(ts[0], little) + TextsBytes(ts[1..], little)
  }

  predicate IsByte(x: int) { 0 <= x < 256 }

  /** A prototype whose numbers fit and that has a source, as the compiler makes them. */
  predicate Fits(f: Proto) {
    && f.source.Text? && TextFits(f.source) && IntFits(f.linedefined) && IntFits(f.lastlinedefined)
    && IsByte(f.nups) && IsByte(f.numparams) && IsByte(f.vararg) && IsByte(f.maxstacksize)
    && IntFits(|f.code|) && IntFits(|f.k|) && IntFits(|f.p|) && IntFits(|f.lineinfo|) && IntFits(|f.locvars|) && IntFits(|f.upvalues|)
    && (forall i :: 0 <= i < |f.k| ==> ConstFits(f.k[i])) && (forall i :: 0 <= i < |f.lineinfo| ==> IntFits(f.lineinfo[i]))
    && (forall i :: 0 <= i < |f.locvars| ==> LocVarFits(f.locvars[i])) && (forall i :: 0 <= i < |f.upvalues| ==> TextFits(f.upvalues[i]))
    && (forall g :: g in f.p ==> Fits(g))
  }

  /** DumpFunction's first part: up to the code. */
  function HeadBytes(f: Proto, parent: Text, little: bool): seq<Byte>
    requires Fits(f)
  {
    TextBytes(if f.source == parent then NoText else f.source, little)
    + IntBytes(f.linedefined, little) + IntBytes(f.lastlinedefined, little)
    + [f.nups, f.numparams, f.vararg, f.maxstacksize]
  }

  function CodeBytes(f: Proto, little: bool, at: nat): seq<Byte>
    requires Fits(f)
  {
    IntBytes(|f.code|, little) + Padding(at + 4) + WordsBytes(f.code, little)
  }

  function DebugBytes(f: Proto, little: bool, at: nat): seq<Byte>
    requires Fits(f)
  {
    IntBytes(|f.lineinfo|, little) + Padding(at + 4) + IntsBytes(f.lineinfo, little)
    + IntBytes(|f.locvars|, little) + LocVarsBytes(f.locvars, little)
    + IntBytes(|f.upvalues|, little) + TextsBytes(f.upvalues, little)
  }

  /** DumpFunction, when at bytes of the chunk have been written. */
  function FunctionBytes(f: Proto, parent: Text, little: bool, at: nat): seq<Byte>
    requires Fits(f)
    decreases f
  {
    var a := HeadBytes(f, parent, little);
    var b := CodeBytes(f, little, at + |a|);
    var c := IntBytes(|f.k|, little) + ConstsBytes(f.k, little) + IntBytes(|f.p|, little);
    var d := ProtosBytes(f.p, f.source, little, at + |a| + |b| + |c|);
    a + b + c + d + DebugBytes(f, little, at + |a| + |b| + |c| + |d|)
  }

  function ProtosBytes(ps: seq<Proto>, parent: Text, little: bool, at: nat): seq<Byte>
    requires forall g :: g in ps ==> Fits(g)
    decreases ps
  {
    if ps == [] then []
    else
      var a := FunctionBytes(ps[0], parent, little, at);
      a + ProtosBytes(ps[1..], parent, little, at + |a|)
  }

  /** luaU_header for a target: sizes of int, size, instruction and number, and that numbers are not
      integral. */
  function HeaderBytes(little: bool): (s: seq<Byte>)
    ensures |s| == HEADERSIZE
  {
    [0x1B, 'L' as int, 'u' as int, 'a' as int, 0x51, 0, if little then 1 else 0, 4, 4, 4, 8, 0]
  }

  function ChunkBytes(f: Proto, little: bool): seq<Byte>
    requires Fits(f)
  {
    HeaderBytes(little) + FunctionBytes(f, NoText, little, HEADERSIZE)
  }

  // ---------------------------------------------------------------- what is read

  datatype Problem = UnexpectedEnd | BadInteger | BadConstant | TooDeep | BadCode | BadHeader | NumberSize

  /** A value read, with the position after it; or the error that luaU_undump raises. */
  datatype Read<T> = Value(v: T, pos: nat) | Failed(problem: Problem)

  function ReadBytes(buf: seq<Byte>, pos: nat, n: nat): Read<seq<Byte>> {
    if pos + n <= |buf| then Value(buf[pos..pos + n], pos + n) else Failed(UnexpectedEnd)
  }

  function ReadNumber(buf: seq<Byte>, pos: nat, k: nat, little: bool): Read<nat> {
    match ReadBytes(buf, pos, k)
    case Failed(e) => Failed(e)
    case Value(s, next) => Value(NumberValue(s, little), next)
  }

  lemma {:induction false} LittleBound(s: seq<Byte>)
    ensures LittleValue(s) < Pow256(|s|)
  {
    if s != [] { LittleBound(s[1..]); }
  }

  lemma NumberBound(s: seq<Byte>, little: bool)
    ensures NumberValue(s, little) < Pow256(|s|)
  {
    LittleBound(if little then s else Reversed(s));
  }

  function ReadWord(buf: seq<Byte>, pos: nat, little: bool): (r: Read<Word>) {
    match ReadBytes(buf, pos, 4)
    case Failed(e) => Failed(e)
    case Value(s, next) =>
      NumberBound(s, little);
      WordPowers();
      Value(NumberValue(s, little), next)
  }

  /** LoadInt: negative numbers are refused. */
  function ReadInt(buf: seq<Byte>, pos: nat, little: bool): (r: Read<int>)
    ensures r.Value? ==> r.v >= 0
  {
    match ReadWord(buf, pos, little)
    case Failed(e) => Failed(e)
    case Value(w, next) => if WordInt(w) < 0 then Failed(BadInteger) else Value(WordInt(w), next)
  }

  function ReadChar(buf: seq<Byte>, pos: nat): Read<Byte> {
    if pos < |buf| then Value(buf[pos], pos + 1) else Failed(UnexpectedEnd)
  }

  /** Align4, counted from the end of the header: the padding is skipped unread. */
  function ReadPadding(buf: seq<Byte>, pos: nat): Read<bool> {
    var n := |Padding(pos - HEADERSIZE)|;
    if pos + n <= |buf| then Value(true, pos + n) else Failed(UnexpectedEnd)
  }

  /** LoadString: the size is a signed number; no size stands for no string. */
  function ReadText(buf: seq<Byte>, pos: nat, little: bool): Read<Text> {
    match ReadWord(buf, pos, little)
    case Failed(e) => Failed(e)
    case Value(w, next) =>
      if w == 0 then Value(NoText, next)
      else
        match ReadBytes(buf, next, w)
        case Failed(e) => Failed(e)
        case Value(s, last) => Value(Text(s[..w - 1]), last)
  }

  /** The numbers of a chunk: doubles, or integers of some size. */
  datatype Numbers = Doubles | Integers(size: Byte)

  /** An integer of k bytes in two's complement. */
  function SignedValue(x: nat, k: nat): int { if x >= Pow256(k) / 2 then x - Pow256(k) else x }

  function Exponent(n: nat): (e: nat)
    requires n > 0
    ensures Pow2(e) <= n < Pow2(e + 1)
  {
    if n == 1 then 0 else 1 + Exponent(n / 2)
  }

  /** The weight of the exponent of a double, two to the 52, and its sign, two to the 63. */
  const ONE := 0x10_0000_0000_0000
  const SIGN := 2048 * ONE
  const BIAS := 1023

  /** The bits of the double whose value is an integer of 32 bits. */
  function DoubleOf(y: int): (bits: nat)
    requires -0x8000_0000 <= y < 0x8000_0000
  {
    if y == 0 then 0
    else
      var n := if y < 0 then -y else y;
      Normal(n);
      var e := Exponent(n);
      (if y < 0 then SIGN else 0) + (e + BIAS) * ONE + (n * (ONE / Pow2(e)) - ONE)
  }

  /** LoadNumber. A number of integral type is made a double; no other size of one is foreseen. */
  function ReadDouble(buf: seq<Byte>, pos: nat, little: bool, numbers: Numbers): Read<nat> {
    match numbers
    case Doubles => ReadNumber(buf, pos, 8, little)
    case Integers(size) =>
      if size != 1 && size != 2 && size != 4 then Failed(NumberSize)
      else
        match ReadNumber(buf, pos, size, little)
        case Failed(e) => Failed(e)
        case Value(x, next) =>
          SignedBound(buf[pos..pos + size], little);
          Value(DoubleOf(SignedValue(x, size)), next)
  }

  /** A number moved up to lie between one and two units. */
  lemma Normal(n: nat)
    requires 0 < n <= 0x8000_0000
    ensures var e, q := Exponent(n), ONE / Pow2(Exponent(n)); e <= 31 && q * Pow2(e) == ONE && ONE <= n * q < 2 * ONE
  {
    hide Pow2;
    var e := Exponent(n);
    SmallExponent(n);
    Two52(52);
    Pow2Divides(e, 52);
    var q, p := Pow2(52 - e), Pow2(e);
    DivModUnique(ONE, p, q, 0);
    TwicePow2(e);
    Between(n, p, q);
  }

  lemma Between(n: nat, p: nat, q: nat)
    requires p <= n < 2 * p && q > 0
    ensures q * p <= n * q < 2 * (q * p)
  {
    assert (n - p) * q >= 0;
    assert (2 * p - n - 1) * q >= 0;
  }

  lemma TwicePow2(e: nat)
    ensures Pow2(e + 1) == 2 * Pow2(e)
  {
  }

  lemma SmallExponent(n: nat)
    requires 0 < n <= 0x8000_0000
    ensures Exponent(n) <= 31
  {
    var e := Exponent(n);
    if e > 31 {
      Pow2Mono(32, e);
      TwoTo32();
    }
  }

  lemma Two52(p: nat)
    requires p == 52
    ensures Pow2(p) == ONE
  {
    assert Pow2(13) == 0x2000;
    Pow2Divides(13, 26);
    Pow2Divides(26, 52);
  }

  /** The value of these bits is y: their sign is its sign, and the fraction with its leading one,
      at the place that the exponent says, is its size. */
  lemma DoubleOfMeans(y: int)
    requires -0x8000_0000 <= y < 0x8000_0000 && y != 0
    ensures var bits := DoubleOf(y);
      var e := bits / ONE % 2048 - BIAS;
      && bits < 2 * SIGN && (bits / SIGN == 1 <==> y < 0)
      && 0 <= e <= 31 && (ONE + bits % ONE) * Pow2(e) == (if y < 0 then -y else y) * ONE
  {
    hide Pow2, Exponent;
    var n := if y < 0 then -y else y;
    var e := Exponent(n);
    Normal(n);
    var q, p := ONE / Pow2(e), Pow2(e);
    var m := n * q - ONE;
    assert (ONE + m) * p == n * ONE by { assert (n * q) * p == n * (q * p); }
    var s := if y < 0 then 1 else 0;
    assert DoubleOf(y) == (2048 * s + e + BIAS) * ONE + m;
    Fields(DoubleOf(y), s, e + BIAS, m);
  }

  lemma Fields(bits: nat, s: nat, x: nat, m: nat)
    requires bits == (2048 * s + x) * ONE + m && m < ONE && x < 2048 && s < 2
    ensures bits % ONE == m && bits / ONE % 2048 == x && bits / SIGN == s && bits < 2 * SIGN
  {
  }

  lemma TwoTo32()
    ensures Pow2(32) == 0x1_0000_0000
  {
    assert Pow2(8) == 256;
    assert Pow2(16) == 0x1_0000;
    assert Pow2(24) == 0x100_0000;
  }

  lemma SignedBound(s: seq<Byte>, little: bool)
    requires |s| == 1 || |s| == 2 || |s| == 4
    ensures -0x8000_0000 <= SignedValue(NumberValue(s, little), |s|) < 0x8000_0000
  {
    NumberBound(s, little);
    WordPowers();
  }

  function ReadConst(buf: seq<Byte>, pos: nat, little: bool, numbers: Numbers): Read<Const> {
    match ReadChar(buf, pos)
    case Failed(e) => Failed(e)
    case Value(t, next) =>
      if t == TNIL then Value(KNil, next)
      else if t == TBOOLEAN then
        match ReadChar(buf, next)
        case Failed(e) => Failed(e)
        case Value(b, last) => Value(KBool(b != 0), last)
      else if t == TNUMBER then
        match ReadDouble(buf, next, little, numbers)
        case Failed(e) => Failed(e)
        case Value(x, last) => Value(KNumber(x), last)
      else if t == TSTRING then
        match ReadText(buf, next, little)
        case Failed(e) => Failed(e)
        case Value(s, last) => Value(KString(s), last)
      else Failed(BadConstant)
  }

  function ReadConsts(buf: seq<Byte>, pos: nat, n: nat, little: bool, numbers: Numbers): Read<seq<Const>>
    decreases n
  {
    if n == 0 then Value([], pos)
    else
      match ReadConst(buf, pos, little, numbers)
      case Failed(e) => Failed(e)
      case Value(k, next) =>
        match ReadConsts(buf, next, n - 1, little, numbers)
        case Failed(e) => Failed(e)
        case Value(ks, last) => Value([k] + ks, last)
  }

  function ReadWords(buf: seq<Byte>, pos: nat, n: nat, little: bool): Read<seq<Word>>
    decreases n
  {
    if n == 0 then Value([], pos)
    else
      match ReadWord(buf, pos, little)
      case Failed(e) => Failed(e)
      case Value(w, next) =>
        match ReadWords(buf, next, n - 1, little)
        case Failed(e) => Failed(e)
        case Value(ws, last) => Value([w] + ws, last)
  }

  function Signed(ws: seq<Word>): seq<int> { seq(|ws|, i requires 0 <= i < |ws| => WordInt(ws[i])) }

  function ReadLocVar(buf: seq<Byte>, pos: nat, little: bool): Read<LocVar> {
    match ReadText(buf, pos, little)
    case Failed(e) => Failed(e)
    case Value(name, a) =>
      match ReadInt(buf, a, little)
      case Failed(e) => Failed(e)
      case Value(startpc, b) =>
        match ReadInt(buf, b, little)
        case Failed(e) => Failed(e)
        case Value(endpc, c) => Value(LocVar(name, startpc, endpc), c)
  }

  function ReadLocVars(buf: seq<Byte>, pos: nat, n: nat, little: bool): Read<seq<LocVar>>
    decreases n
  {
    if n == 0 then Value([], pos)
    else
      match ReadLocVar(buf, pos, little)
      case Failed(e) => Failed(e)
      case Value(v, next) =>
        match ReadLocVars(buf, next, n - 1, little)
        case Failed(e) => Failed(e)
        case Value(vs, last) => Value([v] + vs, last)
  }

  function ReadTexts(buf: seq<Byte>, pos: nat, n: nat, little: bool): Read<seq<Text>>
    decreases n
  {
    if n == 0 then Value([], pos)
    else
      match ReadText(buf, pos, little)
      case Failed(e) => Failed(e)
      case Value(t, next) =>
        match ReadTexts(buf, next, n - 1, little)
        case Failed(e) => Failed(e)
        case Value(ts, last) => Value([t] + ts, last)
  }

  datatype Head = Head(source: Text, linedefined: int, lastlinedefined: int, bytes: seq<Byte>)

  /** LoadFunction up to the code. */
  function ReadHead(buf: seq<Byte>, pos: nat, parent: Text, little: bool): (r: Read<Head>)
    ensures r.Value? ==> |r.v.bytes| == 4
  {
    match ReadText(buf, pos, little)
    case Failed(e) => Failed(e)
    case Value(source, a) =>
      match ReadInt(buf, a, little)
      case Failed(e) => Failed(e)
      case Value(line, b) =>
        match ReadInt(buf, b, little)
        case Failed(e) => Failed(e)
        case Value(last, c) =>
          match ReadBytes(buf, c, 4)
          case Failed(e) => Failed(e)
          case Value(s, d) => Value(Head(if source.NoText? then parent else source, line, last, s), d)
  }

  /** LoadCode, and LoadDebug's line numbers: a count, padding, words. */
  function ReadAligned(buf: seq<Byte>, pos: nat, little: bool): Read<seq<Word>> {
    match ReadInt(buf, pos, little)
    case Failed(e) => Failed(e)
    case Value(n, a) =>
      match ReadPadding(buf, a)
      case Failed(e) => Failed(e)
      case Value(_, b) => ReadWords(buf, b, n, little)
  }

  function ReadConstPart(buf: seq<Byte>, pos: nat, little: bool, numbers: Numbers): Read<seq<Const>> {
    match ReadInt(buf, pos, little)
    case Failed(e) => Failed(e)
    case Value(n, a) => ReadConsts(buf, a, n, little, numbers)
  }

  datatype Debug = Debug(lineinfo: seq<int>, locvars: seq<LocVar>, upvalues: seq<Text>)

  function ReadDebug(buf: seq<Byte>, pos: nat, little: bool): Read<Debug> {
    match ReadAligned(buf, pos, little)
    case Failed(e) => Failed(e)
    case Value(lines, a) =>
      match ReadInt(buf, a, little)
      case Failed(e) => Failed(e)
      case Value(n, b) =>
        match ReadLocVars(buf, b, n, little)
        case Failed(e) => Failed(e)
        case Value(vars, c) =>
          match ReadInt(buf, c, little)
          case Failed(e) => Failed(e)
          case Value(m, d) =>
            match ReadTexts(buf, d, m, little)
            case Failed(e) => Failed(e)
            case Value(ups, last) => Value(Debug(Signed(lines), vars, ups), last)
  }

  function MakeProto(h: Head, code: seq<Word>, k: seq<Const>, p: seq<Proto>, d: Debug): Proto
    requires |h.bytes| == 4
  {
    Proto(h.source, h.linedefined, h.lastlinedefined, h.bytes[0], h.bytes[1], h.bytes[2], h.bytes[3],
          code, k, p, d.lineinfo, d.locvars, d.upvalues)
  }

  /** LoadFunction at a nesting depth of C calls; the code must pass the checker. */
  ghost function ReadFunction(buf: seq<Byte>, pos: nat, parent: Text, depth: nat, little: bool, numbers: Numbers): Read<Proto>
    decreases MAXCCALLS - depth, 1, 0
  {
    if depth + 1 > MAXCCALLS then Failed(TooDeep)
    else
      match ReadHead(buf, pos, parent, little)
      case Failed(e) => Failed(e)
      case Value(h, a) =>
        match ReadAligned(buf, a, little)
        case Failed(e) => Failed(e)
        case Value(code, b) =>
          match ReadConstPart(buf, b, little, numbers)
          case Failed(e) => Failed(e)
          case Value(k, c) =>
            match ReadInt(buf, c, little)
            case Failed(e) => Failed(e)
            case Value(n, d) =>
              match ReadProtos(buf, d, n, h.source, depth + 1, little, numbers)
              case Failed(e) => Failed(e)
              case Value(p, e) =>
                match ReadDebug(buf, e, little)
                case Failed(e) => Failed(e)
                case Value(debug, last) =>
                  var f := MakeProto(h, code, k, p, debug);
                  if Accepts(f) then Value(f, last) else Failed(BadCode)
  }

  ghost function ReadProtos(buf: seq<Byte>, pos: nat, n: nat, parent: Text, depth: nat, little: bool, numbers: Numbers): Read<seq<Proto>>
    decreases MAXCCALLS - depth, 2, n
  {
    if n == 0 then Value([], pos)
    else
      match ReadFunction(buf, pos, parent, depth, little, numbers)
      case Failed(e) => Failed(e)
      case Value(f, next) =>
        match ReadProtos(buf, next, n - 1, parent, depth, little, numbers)
        case Failed(e) => Failed(e)
        case Value(ps, last) => Value([f] + ps, last)
  }

  datatype Format = Format(little: bool, numbers: Numbers)

  /** The flag of integral numbers is a char above 0; chars may be signed. */
  predicate IntegralFlag(x: Byte, signed: bool) { 0 < x && (signed ==> x < 128) }

  /** LoadHeader: the byte order may differ, which is made good by swapping, numbers may be integral,
      which is made good by conversion, and their size is not looked at; everything else must be as
      this machine has it. */
  function ReadHeader(buf: seq<Byte>, machine: bool, signed: bool): Read<Format> {
    match ReadBytes(buf, 0, HEADERSIZE)
    case Failed(e) => Failed(e)
    case Value(s, next) =>
      var h := HeaderBytes(machine);
      var little := if s[6] != h[6] then !machine else machine;
      var integral := IntegralFlag(s[11], signed);
      if s[..6] == h[..6] && s[7..10] == h[7..10] && (integral || s[11] == 0)
      then Value(Format(little, if integral then Integers(s[10]) else Doubles), next)
      else Failed(BadHeader)
  }

  /** luaU_undump. */
  ghost function ReadChunk(buf: seq<Byte>, depth: nat, machine: bool, signed: bool): Read<Proto> {
    match ReadHeader(buf, machine, signed)
    case Failed(e) => Failed(e)
    case Value(format, pos) => ReadFunction(buf, pos, UNKNOWN, depth, format.little, format.numbers)
  }

  /** The source of a main function without one, "=?". */
  const UNKNOWN := Text(['=' as int, '?' as int])
}
