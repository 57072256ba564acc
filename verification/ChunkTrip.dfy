/** A dumped function loads as the same function, whatever the byte orders of the machines. */
module ChunkTrip {
  import opened Bytecode
  import opened Checker
  import opened Chunk

  /** The bytes are in the buffer from pos on. */
  ghost predicate HasAt(buf: seq<Byte>, pos: nat, bytes: seq<Byte>) {
    pos + |bytes| <= |buf| && buf[pos..pos + |bytes|] == bytes
  }

  lemma HasParts(buf: seq<Byte>, pos: nat, a: seq<Byte>, b: seq<Byte>)
    ensures HasAt(buf, pos, a + b) <==> HasAt(buf, pos, a) && HasAt(buf, pos + |a|, b)
  {
    if HasAt(buf, pos, a + b) {
      assert buf[pos..pos + |a|] == buf[pos..pos + |a + b|][..|a|] == a;
      assert buf[pos + |a|..pos + |a| + |b|] == buf[pos..pos + |a + b|][|a|..] == b;
    }
    if HasAt(buf, pos, a) && HasAt(buf, pos + |a|, b) {
      assert buf[pos..pos + |a + b|] == buf[pos..pos + |a|] + buf[pos + |a|..pos + |a| + |b|];
    }
  }

  lemma WordBack(buf: seq<Byte>, pos: nat, w: Word, little: bool)
    requires HasAt(buf, pos, NumberBytes(w, 4, little))
    ensures ReadWord(buf, pos, little) == Value(w, pos + 4)
  {
    WordPowers();
    NumberTrip(w, 4, little);
  }

  lemma IntBack(buf: seq<Byte>, pos: nat, x: int, little: bool)
    requires 0 <= x < WORDS / 2 && HasAt(buf, pos, IntBytes(x, little))
    ensures ReadInt(buf, pos, little) == Value(x, pos + 4)
  {
    WordBack(buf, pos, IntWord(x), little);
  }

  lemma CharBack(buf: seq<Byte>, pos: nat, b: Byte)
    requires HasAt(buf, pos, [b])
    ensures ReadChar(buf, pos) == Value(b, pos + 1)
  {
    assert buf[pos..pos + 1][0] == b;
  }

  lemma TextBack(buf: seq<Byte>, pos: nat, t: Text, little: bool)
    requires TextFits(t) && HasAt(buf, pos, TextBytes(t, little))
    ensures ReadText(buf, pos, little) == Value(t, pos + |TextBytes(t, little)|)
  {
    match t
    case NoText => WordBack(buf, pos, 0, little);
    case Text(s) =>
      HasParts(buf, pos, IntBytes(|s| + 1, little), s + [0]);
      assert IntBytes(|s| + 1, little) + (s + [0]) == TextBytes(t, little);
      WordBack(buf, pos, |s| + 1, little);
  }

  lemma ConstBack(buf: seq<Byte>, pos: nat, k: Const, little: bool)
    requires ConstFits(k) && HasAt(buf, pos, ConstBytes(k, little))
    ensures ReadConst(buf, pos, little, Doubles) == Value(k, pos + |ConstBytes(k, little)|)
  {
    hide HasAt, ReadText, TextBytes, ReadChar;
    match k
    case KNil => CharBack(buf, pos, TNIL);
    case KBool(b) =>
      HasParts(buf, pos, [TBOOLEAN], [if b then 1 else 0]);
      assert [TBOOLEAN] + [if b then 1 else 0] == ConstBytes(k, little);
      CharBack(buf, pos, TBOOLEAN);
      CharBack(buf, pos + 1, if b then 1 else 0);
    case KNumber(x) =>
      HasParts(buf, pos, [TNUMBER], NumberBytes(x, 8, little));
      CharBack(buf, pos, TNUMBER);
      NumberBack(buf, pos + 1, x, little);
    case KString(t) =>
      HasParts(buf, pos, [TSTRING], TextBytes(t, little));
      CharBack(buf, pos, TSTRING);
      TextBack(buf, pos + 1, t, little);
  }

  lemma NumberBack(buf: seq<Byte>, pos: nat, x: nat, little: bool)
    requires x < WORDS * WORDS && HasAt(buf, pos, NumberBytes(x, 8, little))
    ensures ReadNumber(buf, pos, 8, little) == Value(x, pos + 8)
  {
    WordPowers();
    NumberTrip(x, 8, little);
  }

  lemma {:induction false} ConstsBack(buf: seq<Byte>, pos: nat, ks: seq<Const>, little: bool)
    requires (forall i :: 0 <= i < |ks| ==> ConstFits(ks[i])) && HasAt(buf, pos, ConstsBytes(ks, little))
    ensures ReadConsts(buf, pos, |ks|, little, Doubles) == Value(ks, pos + |ConstsBytes(ks, little)|)
    decreases |ks|
  {
    hide HasAt, ConstBytes, ReadConst, ConstFits;
    if ks != [] {
      HasParts(buf, pos, ConstBytes(ks[0], little), ConstsBytes(ks[1..], little));
      ConstBack(buf, pos, ks[0], little);
      ConstsBack(buf, pos + |ConstBytes(ks[0], little)|, ks[1..], little);
      assert [ks[0]] + ks[1..] == ks;
    }
  }

  lemma {:induction false} WordsBack(buf: seq<Byte>, pos: nat, ws: seq<Word>, little: bool)
    requires HasAt(buf, pos, WordsBytes(ws, little))
    ensures |WordsBytes(ws, little)| == 4 * |ws|
    ensures ReadWords(buf, pos, |ws|, little) == Value(ws, pos + 4 * |ws|)
    decreases |ws|
  {
    hide HasAt, NumberBytes, ReadWord;
    if ws != [] {
      HasParts(buf, pos, NumberBytes(ws[0], 4, little), WordsBytes(ws[1..], little));
      WordBack(buf, pos, ws[0], little);
      WordsBack(buf, pos + 4, ws[1..], little);
      assert [ws[0]] + ws[1..] == ws;
    }
  }

  function IntWords(xs: seq<int>): (ws: seq<Word>)
    requires forall i :: 0 <= i < |xs| ==> IntFits(xs[i])
    ensures |ws| == |xs|
  {
    if xs == [] then []
    else
      assert IntFits(xs[0]);
      [IntWord(xs[0])] + IntWords(xs[1..])
  }

  /** Line numbers are written one by one as ints and read in one go as words. */
  lemma {:induction false} IntsAreWords(xs: seq<int>, little: bool)
    requires forall i :: 0 <= i < |xs| ==> IntFits(xs[i])
    ensures IntsBytes(xs, little) == WordsBytes(IntWords(xs), little) && Signed(IntWords(xs)) == xs
  {
    if xs != [] {
      assert IntFits(xs[0]);
      IntsAreWords(xs[1..], little);
      assert IntWords(xs)[1..] == IntWords(xs[1..]);
      assert Signed(IntWords(xs)) == [WordInt(IntWord(xs[0]))] + Signed(IntWords(xs[1..]));
    }
  }

  lemma LocVarBack(buf: seq<Byte>, pos: nat, v: LocVar, little: bool)
    requires LocVarFits(v)
    requires HasAt(buf, pos, TextBytes(v.varname, little) + IntBytes(v.startpc, little) + IntBytes(v.endpc, little))
    ensures ReadLocVar(buf, pos, little) == Value(v, pos + |TextBytes(v.varname, little)| + 8)
  {
    hide HasAt, TextBytes, IntBytes, ReadText, ReadInt;
    var a, b, c := TextBytes(v.varname, little), IntBytes(v.startpc, little), IntBytes(v.endpc, little);
    HasParts(buf, pos, a + b, c);
    HasParts(buf, pos, a, b);
    TextBack(buf, pos, v.varname, little);
    IntBack(buf, pos + |a|, v.startpc, little);
    IntBack(buf, pos + |a| + 4, v.endpc, little);
  }

  lemma {:induction false} LocVarsBack(buf: seq<Byte>, pos: nat, vs: seq<LocVar>, little: bool)
    requires (forall i :: 0 <= i < |vs| ==> LocVarFits(vs[i])) && HasAt(buf, pos, LocVarsBytes(vs, little))
    ensures ReadLocVars(buf, pos, |vs|, little) == Value(vs, pos + |LocVarsBytes(vs, little)|)
    decreases |vs|
  {
    hide HasAt, TextBytes, IntBytes, ReadLocVar, LocVarFits;
    if vs != [] {
      FirstVar(vs);
      var a := TextBytes(vs[0].varname, little) + IntBytes(vs[0].startpc, little) + IntBytes(vs[0].endpc, little);
      assert LocVarsBytes(vs, little) == a + LocVarsBytes(vs[1..], little);
      HasParts(buf, pos, a, LocVarsBytes(vs[1..], little));
      LocVarBack(buf, pos, vs[0], little);
      LocVarsBack(buf, pos + |a|, vs[1..], little);
      assert [vs[0]] + vs[1..] == vs;
    }
  }

  lemma FirstVar(vs: seq<LocVar>)
    requires (forall i :: 0 <= i < |vs| ==> LocVarFits(vs[i])) && vs != []
    ensures TextFits(vs[0].varname) && IntFits(vs[0].startpc) && IntFits(vs[0].endpc)
  {
    assert LocVarFits(vs[0]);
  }

  lemma {:induction false} TextsBack(buf: seq<Byte>, pos: nat, ts: seq<Text>, little: bool)
    requires (forall i :: 0 <= i < |ts| ==> TextFits(ts[i])) && HasAt(buf, pos, TextsBytes(ts, little))
    ensures ReadTexts(buf, pos, |ts|, little) == Value(ts, pos + |TextsBytes(ts, little)|)
    decreases |ts|
  {
    hide HasAt, TextBytes, ReadText, TextFits;
    if ts != [] {
      HasParts(buf, pos, TextBytes(ts[0], little), TextsBytes(ts[1..], little));
      TextBack(buf, pos, ts[0], little);
      TextsBack(buf, pos + |TextBytes(ts[0], little)|, ts[1..], little);
      assert [ts[0]] + ts[1..] == ts;
    }
  }

  // ---------------------------------------------------------------- the parts of a function

  /** The two counters agree: one counts the header, the other starts after it. */
  lemma SamePadding(pos: nat)
    ensures Padding(pos - HEADERSIZE) == Padding(pos)
  {
  }

  lemma AlignedBack(buf: seq<Byte>, pos: nat, ws: seq<Word>, little: bool)
    requires IntFits(|ws|) && HasAt(buf, pos, IntBytes(|ws|, little) + Padding(pos + 4) + WordsBytes(ws, little))
    ensures ReadAligned(buf, pos, little) == Value(ws, pos + |IntBytes(|ws|, little) + Padding(pos + 4) + WordsBytes(ws, little)|)
  {
    hide IntBytes, WordsBytes, ReadInt, ReadWords;
    var a, b, c := IntBytes(|ws|, little), Padding(pos + 4), WordsBytes(ws, little);
    HasParts(buf, pos, a + b, c);
    HasParts(buf, pos, a, b);
    IntBack(buf, pos, |ws|, little);
    SamePadding(pos + 4);
    WordsBack(buf, pos + |a| + |b|, ws, little);
  }

  lemma HasFour(buf: seq<Byte>, pos: nat, a: seq<Byte>, b: seq<Byte>, c: seq<Byte>, d: seq<Byte>)
    requires HasAt(buf, pos, a + b + c + d)
    ensures HasAt(buf, pos, a) && HasAt(buf, pos + |a|, b) && HasAt(buf, pos + |a| + |b|, c) && HasAt(buf, pos + |a| + |b| + |c|, d)
  {
    hide HasAt;
    HasParts(buf, pos, a + b + c, d);
    HasParts(buf, pos, a + b, c);
    HasParts(buf, pos, a, b);
  }

  lemma HeadBack(buf: seq<Byte>, pos: nat, f: Proto, parent: Text, p: Text, little: bool)
    requires Fits(f) && HasAt(buf, pos, HeadBytes(f, parent, little)) && (parent.Text? ==> p == parent)
    ensures ReadHead(buf, pos, p, little) == Value(Head(f.source, f.linedefined, f.lastlinedefined, [f.nups, f.numparams, f.vararg, f.maxstacksize]),
                                                   pos + |HeadBytes(f, parent, little)|)
  {
    hide HasAt, TextBytes, IntBytes, ReadText, ReadInt, Fits, TextFits, IntFits, ReadBytes;
    HeadFits(f);
    var t := if f.source == parent then NoText else f.source;
    HasFour(buf, pos, TextBytes(t, little), IntBytes(f.linedefined, little), IntBytes(f.lastlinedefined, little),
            [f.nups, f.numparams, f.vararg, f.maxstacksize]);
    HeadParts(buf, pos, t, f.linedefined, f.lastlinedefined, [f.nups, f.numparams, f.vararg, f.maxstacksize], p, little);
  }

  lemma HeadParts(buf: seq<Byte>, pos: nat, t: Text, line: int, last: int, d: seq<Byte>, p: Text, little: bool)
    requires TextFits(t) && IntFits(line) && IntFits(last) && |d| == 4
    requires var n := |TextBytes(t, little)|;
             && HasAt(buf, pos, TextBytes(t, little)) && HasAt(buf, pos + n, IntBytes(line, little))
             && HasAt(buf, pos + n + 4, IntBytes(last, little)) && HasAt(buf, pos + n + 8, d)
    ensures ReadHead(buf, pos, p, little) == Value(Head(if t.NoText? then p else t, line, last, d), pos + |TextBytes(t, little)| + 12)
  {
    hide HasAt, TextBytes, IntBytes, ReadText, ReadInt, TextFits, IntFits, ReadBytes;
    var n := |TextBytes(t, little)|;
    TextBack(buf, pos, t, little);
    IntFitsRange(line);
    IntFitsRange(last);
    IntBack(buf, pos + n, line, little);
    IntBack(buf, pos + n + 4, last, little);
    BytesBack(buf, pos + n + 8, d);
  }

  lemma HeadFits(f: Proto)
    requires Fits(f)
    ensures TextFits(f.source) && TextFits(NoText) && f.source.Text? && IntFits(f.linedefined) && IntFits(f.lastlinedefined)
    ensures IsByte(f.nups) && IsByte(f.numparams) && IsByte(f.vararg) && IsByte(f.maxstacksize)
  {
  }

  lemma IntFitsRange(x: int)
    requires IntFits(x)
    ensures 0 <= x < WORDS / 2
  {
  }

  lemma BytesBack(buf: seq<Byte>, pos: nat, s: seq<Byte>)
    requires HasAt(buf, pos, s)
    ensures ReadBytes(buf, pos, |s|) == Value(s, pos + |s|)
  {
  }

  lemma DebugBack(buf: seq<Byte>, pos: nat, f: Proto, little: bool)
    requires Fits(f) && HasAt(buf, pos, DebugBytes(f, little, pos))
    ensures ReadDebug(buf, pos, little) == Value(Debug(f.lineinfo, f.locvars, f.upvalues), pos + |DebugBytes(f, little, pos)|)
  {
    hide HasAt, TextsBytes, IntBytes, LocVarsBytes, IntsBytes, WordsBytes, ReadDebug, Fits, IntFits, Signed, Padding, LocVarFits, TextFits, IntWords;
    DebugFits(f);
    IntsAreWords(f.lineinfo, little);
    var ws := IntWords(f.lineinfo);
    var a := IntBytes(|ws|, little) + Padding(pos + 4) + WordsBytes(ws, little);
    var b, c := IntBytes(|f.locvars|, little), LocVarsBytes(f.locvars, little);
    var d, e := IntBytes(|f.upvalues|, little), TextsBytes(f.upvalues, little);
    assert DebugBytes(f, little, pos) == a + b + c + d + e;
    HasParts(buf, pos, a + b + c + d, e);
    HasFour(buf, pos, a, b, c, d);
    DebugParts(buf, pos, ws, f.locvars, f.upvalues, little);
  }

  lemma DebugParts(buf: seq<Byte>, pos: nat, ws: seq<Word>, vs: seq<LocVar>, ts: seq<Text>, little: bool)
    requires IntFits(|ws|) && IntFits(|vs|) && IntFits(|ts|)
    requires (forall i :: 0 <= i < |vs| ==> LocVarFits(vs[i])) && (forall i :: 0 <= i < |ts| ==> TextFits(ts[i]))
    requires HasAt(buf, pos, IntBytes(|ws|, little) + Padding(pos + 4) + WordsBytes(ws, little))
    requires var a := |IntBytes(|ws|, little) + Padding(pos + 4) + WordsBytes(ws, little)|; var n := |LocVarsBytes(vs, little)|;
             && HasAt(buf, pos + a, IntBytes(|vs|, little)) && HasAt(buf, pos + a + 4, LocVarsBytes(vs, little))
             && HasAt(buf, pos + a + 4 + n, IntBytes(|ts|, little)) && HasAt(buf, pos + a + 4 + n + 4, TextsBytes(ts, little))
    ensures ReadDebug(buf, pos, little)
            == Value(Debug(Signed(ws), vs, ts), pos + |IntBytes(|ws|, little) + Padding(pos + 4) + WordsBytes(ws, little)| + 8
                                                + |LocVarsBytes(vs, little)| + |TextsBytes(ts, little)|)
  {
    hide HasAt, TextsBytes, IntBytes, LocVarsBytes, WordsBytes, ReadTexts, ReadInt, ReadLocVars, ReadAligned, IntFits, Signed, Padding, LocVarFits, TextFits;
    IntFitsRange(|ws|);
    var a, n := |IntBytes(|ws|, little) + Padding(pos + 4) + WordsBytes(ws, little)|, |LocVarsBytes(vs, little)|;
    AlignedBack(buf, pos, ws, little);
    IntFitsRange(|vs|);
    IntFitsRange(|ts|);
    IntBack(buf, pos + a, |vs|, little);
    LocVarsBack(buf, pos + a + 4, vs, little);
    IntBack(buf, pos + a + 4 + n, |ts|, little);
    TextsBack(buf, pos + a + 4 + n + 4, ts, little);
  }

  lemma DebugFits(f: Proto)
    requires Fits(f)
    ensures IntFits(|f.lineinfo|) && IntFits(|f.locvars|) && IntFits(|f.upvalues|)
    ensures forall i :: 0 <= i < |f.lineinfo| ==> IntFits(f.lineinfo[i])
    ensures forall i :: 0 <= i < |f.locvars| ==> LocVarFits(f.locvars[i])
    ensures forall i :: 0 <= i < |f.upvalues| ==> TextFits(f.upvalues[i])
  {
  }

  // ---------------------------------------------------------------- whole functions

  function Depth(f: Proto): nat
    decreases f
  {
    1 + DepthOf(f.p)
  }

  function DepthOf(ps: seq<Proto>): nat
    decreases ps
  {
    if ps == [] then 0 else Max(Depth(ps[0]), DepthOf(ps[1..]))
  }

  function Max(a: nat, b: nat): nat { if a < b then b else a }

  /** The checker accepts the function and all functions in it. */
  ghost predicate AllAccepted(f: Proto)
    decreases f
  {
    Accepts(f) && forall g :: g in f.p ==> AllAccepted(g)
  }

  /** The parts of FunctionBytes. */
  lemma FunctionParts(buf: seq<Byte>, pos: nat, f: Proto, parent: Text, little: bool)
    requires Fits(f) && HasAt(buf, pos, FunctionBytes(f, parent, little, pos))
    ensures var a := HeadBytes(f, parent, little); var b := CodeBytes(f, little, pos + |a|);
            var c := IntBytes(|f.k|, little) + ConstsBytes(f.k, little); var n := IntBytes(|f.p|, little);
            var d := ProtosBytes(f.p, f.source, little, pos + |a| + |b| + |c| + 4);
            var e := DebugBytes(f, little, pos + |a| + |b| + |c| + 4 + |d|);
            && HasAt(buf, pos, a) && HasAt(buf, pos + |a|, b) && HasAt(buf, pos + |a| + |b|, c)
            && HasAt(buf, pos + |a| + |b| + |c|, n) && HasAt(buf, pos + |a| + |b| + |c| + 4, d)
            && HasAt(buf, pos + |a| + |b| + |c| + 4 + |d|, e)
            && |FunctionBytes(f, parent, little, pos)| == |a| + |b| + |c| + 4 + |d| + |e|
  {
    hide HasAt, HeadBytes, CodeBytes, ConstsBytes, IntBytes, DebugBytes, ProtosBytes, Fits, ConstFits, IntFits;
    PartsFit(f);
    var a := HeadBytes(f, parent, little);
    var b := CodeBytes(f, little, pos + |a|);
    var c, n := IntBytes(|f.k|, little) + ConstsBytes(f.k, little), IntBytes(|f.p|, little);
    var d := ProtosBytes(f.p, f.source, little, pos + |a| + |b| + |c + n|);
    var e := DebugBytes(f, little, pos + |a| + |b| + |c + n| + |d|);
    assert FunctionBytes(f, parent, little, pos) == a + b + (c + n) + d + e;
    HasParts(buf, pos, a + b + (c + n) + d, e);
    HasFour(buf, pos, a, b, c + n, d);
    HasParts(buf, pos + |a| + |b|, c, n);
  }

  lemma PartsFit(f: Proto)
    requires Fits(f)
    ensures IntFits(|f.k|) && IntFits(|f.p|) && IntFits(|f.code|) && (forall i :: 0 <= i < |f.k| ==> ConstFits(f.k[i])) && forall g :: g in f.p ==> Fits(g)
  {
  }

  lemma {:induction false} FunctionBack(buf: seq<Byte>, pos: nat, f: Proto, parent: Text, p: Text, depth: nat, little: bool)
    requires Fits(f) && AllAccepted(f) && depth + Depth(f) <= MAXCCALLS && (parent.Text? ==> p == parent)
    requires HasAt(buf, pos, FunctionBytes(f, parent, little, pos))
    ensures ReadFunction(buf, pos, p, depth, little, Doubles) == Value(f, pos + |FunctionBytes(f, parent, little, pos)|)
    decreases f, |f.p| + 1
  {
    hide HasAt, HeadBytes, CodeBytes, ConstsBytes, IntBytes, DebugBytes, ProtosBytes, FunctionBytes, Fits, Accepts, IntFits, ConstFits,
         ReadHead, ReadAligned, ReadConstPart, ReadInt, ReadDebug, ReadProtos;
    PartsFit(f);
    FunctionParts(buf, pos, f, parent, little);
    var a := |HeadBytes(f, parent, little)|;
    var b := |CodeBytes(f, little, pos + a)|;
    var c := |IntBytes(|f.k|, little) + ConstsBytes(f.k, little)|;
    var d := |ProtosBytes(f.p, f.source, little, pos + a + b + c + 4)|;
    HeadBack(buf, pos, f, parent, p, little);
    CodeBack(buf, pos + a, f, little);
    ConstPartBack(buf, pos + a + b, f.k, little);
    IntFitsRange(|f.p|);
    IntBack(buf, pos + a + b + c, |f.p|, little);
    SourceIsText(f);
    assert f.p[0..] == f.p;
    ProtosBack(buf, pos + a + b + c + 4, f, 0, depth + 1, little);
    DebugBack(buf, pos + a + b + c + 4 + d, f, little);
    Made(f);
  }

  lemma SourceIsText(f: Proto)
    requires Fits(f)
    ensures f.source.Text?
  {
  }

  lemma Made(f: Proto)
    requires Fits(f)
    ensures MakeProto(Head(f.source, f.linedefined, f.lastlinedefined, [f.nups, f.numparams, f.vararg, f.maxstacksize]), f.code, f.k, f.p,
                      Debug(f.lineinfo, f.locvars, f.upvalues)) == f
  {
  }

  lemma CodeBack(buf: seq<Byte>, pos: nat, f: Proto, little: bool)
    requires Fits(f) && HasAt(buf, pos, CodeBytes(f, little, pos))
    ensures ReadAligned(buf, pos, little) == Value(f.code, pos + |CodeBytes(f, little, pos)|)
  {
    hide HasAt, ReadAligned, IntFits, Fits, IntBytes, WordsBytes;
    PartsFit(f);
    AlignedBack(buf, pos, f.code, little);
  }

  lemma ConstPartBack(buf: seq<Byte>, pos: nat, ks: seq<Const>, little: bool)
    requires IntFits(|ks|) && (forall i :: 0 <= i < |ks| ==> ConstFits(ks[i])) && HasAt(buf, pos, IntBytes(|ks|, little) + ConstsBytes(ks, little))
    ensures ReadConstPart(buf, pos, little, Doubles) == Value(ks, pos + |IntBytes(|ks|, little) + ConstsBytes(ks, little)|)
  {
    hide HasAt, ReadConsts, IntFits, ConstFits, ReadInt, IntBytes, ConstsBytes;
    IntFitsRange(|ks|);
    HasParts(buf, pos, IntBytes(|ks|, little), ConstsBytes(ks, little));
    IntBack(buf, pos, |ks|, little);
    ConstsBack(buf, pos + 4, ks, little);
  }

  lemma {:induction false} ProtosBack(buf: seq<Byte>, pos: nat, f: Proto, i: nat, depth: nat, little: bool)
    requires f.source.Text? && i <= |f.p|
    requires (forall g :: g in f.p ==> Fits(g)) && (forall g :: g in f.p ==> AllAccepted(g)) && depth + DepthOf(f.p[i..]) <= MAXCCALLS
    requires (forall g :: g in f.p[i..] ==> Fits(g)) && HasAt(buf, pos, ProtosBytes(f.p[i..], f.source, little, pos))
    ensures ReadProtos(buf, pos, |f.p| - i, f.source, depth, little, Doubles)
            == Value(f.p[i..], pos + |ProtosBytes(f.p[i..], f.source, little, pos)|)
    decreases f, |f.p| - i
  {
    hide HasAt, FunctionBytes, Fits, AllAccepted, ReadFunction, Depth, Max;
    if i < |f.p| {
      assert f.p[i..][0] == f.p[i] && f.p[i..][1..] == f.p[i + 1..] && f.p[i] in f.p;
      MaxBounds(Depth(f.p[i]), DepthOf(f.p[i + 1..]));
      var a := FunctionBytes(f.p[i], f.source, little, pos);
      HasParts(buf, pos, a, ProtosBytes(f.p[i + 1..], f.source, little, pos + |a|));
      FunctionBack(buf, pos, f.p[i], f.source, f.source, depth, little);
      ProtosBack(buf, pos + |a|, f, i + 1, depth, little);
      assert [f.p[i]] + f.p[i + 1..] == f.p[i..];
    }
  }

  lemma MaxBounds(a: nat, b: nat)
    ensures a <= Max(a, b) && b <= Max(a, b)
  {
  }

  lemma HeaderBack(buf: seq<Byte>, target: bool, machine: bool, signed: bool)
    requires HasAt(buf, 0, HeaderBytes(target))
    ensures ReadHeader(buf, machine, signed) == Value(Format(target, Doubles), HEADERSIZE)
  {
    assert buf[0..HEADERSIZE] == HeaderBytes(target);
  }

  /** luaU_undump gives back what luaU_dump wrote: the target's byte order and the one of the
      machine that loads may be any. */
  lemma ChunkTrip(f: Proto, target: bool, machine: bool, signed: bool, depth: nat)
    requires Fits(f) && AllAccepted(f) && depth + Depth(f) <= MAXCCALLS
    ensures ReadChunk(ChunkBytes(f, target), depth, machine, signed) == Value(f, |ChunkBytes(f, target)|)
  {
    hide Fits, AllAccepted, FunctionBytes, ReadFunction, ReadHeader, HeaderBytes, Depth;
    var buf := ChunkBytes(f, target);
    HasParts(buf, 0, HeaderBytes(target), FunctionBytes(f, NoText, target, HEADERSIZE));
    assert HasAt(buf, 0, buf);
    HeaderBack(buf, target, machine, signed);
    FunctionBack(buf, HEADERSIZE, f, NoText, UNKNOWN, depth, target);
  }
}
