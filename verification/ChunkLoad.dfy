/** luaU_undump: reading a chunk, with numbers swapped in place for this machine. */
module ChunkLoad {
  import opened Bytecode
  import opened Checker
  import opened Chunk

  datatype Result<T> = Got(v: T) | Raised(problem: Problem)

  /** A loading step gives what the format says, and leaves the stream after it. */
  ghost predicate Gives<T(!new)>(r: Result<T>, pos: nat, spec: Read<T>) {
    match spec
    case Value(v, next) => r == Got(v) && pos == next
    case Failed(e) => r == Raised(e)
  }

  /** Each element of some size is reversed. */
  function Swapped(s: seq<Byte>, size: nat): (r: seq<Byte>)
    requires size > 0
    ensures |r| == |s|
    decreases |s|
  {
    if |s| < size then s else Reversed(s[..size]) + Swapped(s[size..], size)
  }

  function ElementSwapped(s: seq<Byte>, p: nat, size: nat): (r: seq<Byte>)
    requires p + size <= |s|
    ensures |r| == |s|
  {
    s[..p] + Reversed(s[p..p + size]) + s[p + size..]
  }

  lemma ElementPoints(s: seq<Byte>, p: nat, size: nat, t: seq<Byte>)
    requires p + size <= |s| == |t|
    requires forall k :: 0 <= k < |s| && (k < p || k >= p + size) ==> t[k] == s[k]
    requires forall k :: p <= k < p + size ==> t[k] == s[p + (p + size - 1) - k]
    ensures t == ElementSwapped(s, p, size)
  {
    var r := Reversed(s[p..p + size]);
    forall k | p <= k < p + size ensures t[k] == r[k - p] {
      assert r[k - p] == s[p..p + size][size - 1 - (k - p)];
    }
  }

  class LoadState {
    const buf: seq<Byte>
    const machine: bool
    const signed: bool
    var pos: nat
    var total: nat
    var swap: bool
    var toflt: bool
    var numsize: Byte
    var ncalls: nat

    constructor (buf: seq<Byte>, machine: bool, signed: bool, depth: nat)
      ensures this.buf == buf && this.machine == machine && this.signed == signed && pos == 0 && ncalls == depth
    {
      this.buf := buf;
      this.machine := machine;
      this.signed := signed;
      pos, total, swap, ncalls := 0, 0, false, depth;
      toflt, numsize := false, 0;
    }

    /** The header has been read: total counts from its end. */
    predicate Valid()
      reads this
    {
      total + HEADERSIZE == pos <= |buf|
    }

    /** The byte order of the chunk. */
    function Little(): bool
      reads this
    {
      machine != swap
    }

    function Numbered(): Numbers
      reads this
    {
      if toflt then Integers(numsize) else Doubles
    }

    /** LoadBlock. */
    method LoadBlock(size: nat) returns (r: Result<seq<Byte>>)
      modifies this`pos, this`total
      ensures Gives(r, pos, ReadBytes(buf, old(pos), size)) && (old(Valid()) && r.Got? ==> Valid())
    {
      if pos + size > |buf| { return Raised(UnexpectedEnd); }
      r := Got(buf[pos..pos + size]);
      pos := pos + size;
      total := total + size;
    }

    /** The swap of one element, in place. */
    method SwapElement(b: array<Byte>, p: nat, size: nat)
      requires p + size <= b.Length
      modifies b
      ensures b[..] == ElementSwapped(old(b[..]), p, size)
    {
      hide ElementSwapped;
      var last := p + size - 1;
      var i := p;
      while i < p + size / 2
        invariant p <= i <= p + size / 2
        invariant forall k :: 0 <= k < b.Length && (k < p || k > last) ==> b[k] == old(b[k])
        invariant forall k :: p <= k < i ==> b[k] == old(b[p + last - k])
        invariant forall k :: p + last - i < k <= last ==> b[k] == old(b[p + last - k])
        invariant forall k :: i <= k <= p + last - i ==> b[k] == old(b[k])
      {
        b[i], b[p + last - i] := b[p + last - i], b[i];
        i := i + 1;
      }
      ElementPoints(old(b[..]), p, size, b[..]);
    }

    /** The swap of LoadMem. */
    method SwapElements(b: array<Byte>, n0: nat, size: nat)
      requires size > 0 && b.Length == n0 * size
      modifies b
      ensures b[..] == Swapped(old(b[..]), size)
    {
      hide Swapped, Reversed, ElementSwapped, Whole;
      ghost var s := b[..];
      var n, p := n0, 0;
      SwappedNone(size);
      while n > 0
        invariant 0 <= p <= |s| == b.Length && p + n * size == b.Length && s == old(b[..])
        invariant b[..] == Swapped(s[..p], size) + s[p..] && Whole(p, size)
      {
        MulStep(n, size);
        ghost var before := b[..];
        n := n - 1;
        SwapElement(b, p, size);
        SwapProgress(s, p, size, before, b[..]);
        p := p + size;
      }
      assert s[..p] == s && s[p..] == [];
    }

    /** LoadMem: n elements of some size, as they end up in memory. */
    method LoadMem(n: nat, size: nat) returns (r: Result<seq<Byte>>)
      requires size > 0
      modifies this`pos, this`total
      ensures ReadBytes(buf, old(pos), n * size).Failed? ==> r == Raised(UnexpectedEnd)
      ensures ReadBytes(buf, old(pos), n * size).Value? ==>
              var s := ReadBytes(buf, old(pos), n * size).v; r == Got(if swap then Swapped(s, size) else s) && pos == old(pos) + n * size
      ensures old(Valid()) && r.Got? ==> Valid()
    {
      r := LoadBlock(n * size);
      if r.Got? && swap {
        var s := r.v;
        var b := new Byte[|s|](i requires 0 <= i < |s| => s[i]);
        assert b[..] == s;
        SwapElements(b, n, size);
        r := Got(b[..]);
      }
    }

    /** LoadVar of an unsigned number. */
    method LoadVar(k: nat) returns (r: Result<nat>)
      requires k > 0
      modifies this`pos, this`total
      ensures Gives(r, pos, ReadNumber(buf, old(pos), k, Little())) && (old(Valid()) && r.Got? ==> Valid())
    {
      var m := LoadMem(1, k);
      if m.Raised? { return Raised(m.problem); }
      ghost var s := buf[old(pos)..old(pos) + k];
      OneElement(s, k);
      ReversedTwice(s);
      r := Got(NumberValue(m.v, machine));
    }

    /** LoadNumber. */
    method LoadNumber() returns (r: Result<nat>)
      modifies this`pos, this`total
      ensures Gives(r, pos, ReadDouble(buf, old(pos), Little(), Numbered())) && (old(Valid()) && r.Got? ==> Valid())
    {
      hide DoubleOf, ReadNumber, SignedValue;
      if !toflt {
        r := LoadVar(8);
        return;
      }
      if numsize != 1 && numsize != 2 && numsize != 4 { return Raised(NumberSize); }
      ghost var start := pos;
      var y := LoadVar(numsize);
      if y.Raised? { return Raised(y.problem); }
      ReadSigned(buf, start, numsize, Little());
      r := Got(DoubleOf(SignedValue(y.v, numsize)));
    }

    method LoadWord() returns (r: Result<Word>)
      modifies this`pos, this`total
      ensures Gives(r, pos, ReadWord(buf, old(pos), Little())) && (old(Valid()) && r.Got? ==> Valid())
    {
      hide NumberValue;
      var x := LoadVar(4);
      if x.Raised? { return Raised(x.problem); }
      NumberBound(buf[old(pos)..old(pos) + 4], Little());
      WordPowers();
      r := Got(x.v);
    }

    method LoadInt() returns (r: Result<int>)
      modifies this`pos, this`total
      ensures Gives(r, pos, ReadInt(buf, old(pos), Little())) && (old(Valid()) && r.Got? ==> Valid())
    {
      var w := LoadWord();
      if w.Raised? { return Raised(w.problem); }
      r := if WordInt(w.v) < 0 then Raised(BadInteger) else Got(WordInt(w.v));
    }

    method LoadChar() returns (r: Result<Byte>)
      modifies this`pos, this`total
      ensures Gives(r, pos, ReadChar(buf, old(pos))) && (old(Valid()) && r.Got? ==> Valid())
    {
      var b := LoadBlock(1);
      r := if b.Got? then Got(b.v[0]) else Raised(UnexpectedEnd);
    }

    /** Align4. */
    method Align4() returns (r: Result<bool>)
      requires Valid()
      modifies this`pos, this`total
      ensures Gives(r, pos, ReadPadding(buf, old(pos))) && (r.Got? ==> Valid())
    {
      ghost var n := |Padding(pos - HEADERSIZE)|;
      while total % 4 != 0
        invariant Valid() && old(pos) <= pos <= old(pos) + n && (pos > old(pos) ==> pos <= |buf|)
        decreases old(pos) + n - pos
      {
        PaddingLeft(old(total), total);
        var c := LoadChar();
        if c.Raised? { return Raised(UnexpectedEnd); }
      }
      PaddingDone(old(total), total);
      if pos > |buf| { return Raised(UnexpectedEnd); }
      r := Got(true);
    }

    /** LoadString. */
    method LoadString() returns (r: Result<Text>)
      modifies this`pos, this`total
      ensures Gives(r, pos, ReadText(buf, old(pos), Little())) && (old(Valid()) && r.Got? ==> Valid())
    {
      hide ReadWord;
      var size := LoadWord();
      if size.Raised? { return Raised(size.problem); }
      if size.v == 0 { return Got(NoText); }
      var s := LoadBlock(size.v);
      if s.Raised? { return Raised(s.problem); }
      r := Got(Text(s.v[..size.v - 1]));
    }

    /** One round of the first loop of LoadConstants. */
    method LoadConstant() returns (r: Result<Const>)
      modifies this`pos, this`total
      ensures Gives(r, pos, ReadConst(buf, old(pos), Little(), Numbered())) && (old(Valid()) && r.Got? ==> Valid())
    {
      hide ReadText, ReadNumber, ReadChar;
      var t := LoadChar();
      if t.Raised? { return Raised(t.problem); }
      if t.v == TNIL { return Got(KNil); }
      if t.v == TBOOLEAN {
        var b := LoadChar();
        return if b.Got? then Got(KBool(b.v != 0)) else Raised(b.problem);
      }
      if t.v == TNUMBER {
        var x := LoadNumber();
        return if x.Got? then Got(KNumber(x.v)) else Raised(x.problem);
      }
      if t.v == TSTRING {
        var s := LoadString();
        return if s.Got? then Got(KString(s.v)) else Raised(s.problem);
      }
      r := Raised(BadConstant);
    }

    /** LoadVector of n words, swapped all at once. */
    method LoadWords(n: nat) returns (r: Result<seq<Word>>)
      requires Valid()
      modifies this`pos, this`total
      ensures Gives(r, pos, ReadWords(buf, old(pos), n, Little())) && (r.Got? ==> Valid())
    {
      hide ReadWords, Swapped, WordsOf;
      WordsAtOnce(buf, pos, n, machine, swap);
      var m := LoadMem(n, 4);
      if m.Raised? { return Raised(m.problem); }
      r := Got(WordsOf(m.v, machine));
    }

    method LoadLocVar() returns (r: Result<LocVar>)
      modifies this`pos, this`total
      ensures Gives(r, pos, ReadLocVar(buf, old(pos), Little())) && (old(Valid()) && r.Got? ==> Valid())
    {
      hide ReadText, ReadInt;
      var name := LoadString();
      if name.Raised? { return Raised(name.problem); }
      var startpc := LoadInt();
      if startpc.Raised? { return Raised(startpc.problem); }
      var endpc := LoadInt();
      if endpc.Raised? { return Raised(endpc.problem); }
      r := Got(LocVar(name.v, startpc.v, endpc.v));
    }

    method LoadConsts(n: nat) returns (r: Result<seq<Const>>)
      requires Valid()
      modifies this`pos, this`total
      ensures Gives(r, pos, ReadConsts(buf, old(pos), n, Little(), Numbered())) && (r.Got? ==> Valid())
    {
      hide ReadConst;
      var vs: seq<Const> := [];
      var i := 0;
      ghost var start := pos;
      PrependNone(ReadConsts(buf, pos, n, Little(), Numbered()));
      while i < n
        invariant 0 <= i <= n && Valid()
        invariant ReadConsts(buf, start, n, Little(), Numbered()) == Prepend(vs, ReadConsts(buf, pos, n - i, Little(), Numbered()))
      {
        ghost var p := pos;
        var x := LoadConstant();
        if x.Raised? { return Raised(x.problem); }
        PrependNext(vs, x.v, ReadConsts(buf, pos, n - i - 1, Little(), Numbered()));
        vs := vs + [x.v];
        i := i + 1;
      }
      assert vs + [] == vs;
      r := Got(vs);
    }

    method LoadLocVars(n: nat) returns (r: Result<seq<LocVar>>)
      requires Valid()
      modifies this`pos, this`total
      ensures Gives(r, pos, ReadLocVars(buf, old(pos), n, Little())) && (r.Got? ==> Valid())
    {
      hide ReadLocVar;
      var vs: seq<LocVar> := [];
      var i := 0;
      ghost var start := pos;
      PrependNone(ReadLocVars(buf, pos, n, Little()));
      while i < n
        invariant 0 <= i <= n && Valid()
        invariant ReadLocVars(buf, start, n, Little()) == Prepend(vs, ReadLocVars(buf, pos, n - i, Little()))
      {
        ghost var p := pos;
        var x := LoadLocVar();
        if x.Raised? { return Raised(x.problem); }
        PrependNext(vs, x.v, ReadLocVars(buf, pos, n - i - 1, Little()));
        vs := vs + [x.v];
        i := i + 1;
      }
      assert vs + [] == vs;
      r := Got(vs);
    }

    method LoadTexts(n: nat) returns (r: Result<seq<Text>>)
      requires Valid()
      modifies this`pos, this`total
      ensures Gives(r, pos, ReadTexts(buf, old(pos), n, Little())) && (r.Got? ==> Valid())
    {
      hide ReadText;
      var vs: seq<Text> := [];
      var i := 0;
      ghost var start := pos;
      PrependNone(ReadTexts(buf, pos, n, Little()));
      while i < n
        invariant 0 <= i <= n && Valid()
        invariant ReadTexts(buf, start, n, Little()) == Prepend(vs, ReadTexts(buf, pos, n - i, Little()))
      {
        ghost var p := pos;
        var x := LoadString();
        if x.Raised? { return Raised(x.problem); }
        PrependNext(vs, x.v, ReadTexts(buf, pos, n - i - 1, Little()));
        vs := vs + [x.v];
        i := i + 1;
      }
      assert vs + [] == vs;
      r := Got(vs);
    }

    /** LoadCode, and the line numbers of LoadDebug. */
    method LoadAligned() returns (r: Result<seq<Word>>)
      requires Valid()
      modifies this`pos, this`total
      ensures Gives(r, pos, ReadAligned(buf, old(pos), Little())) && (r.Got? ==> Valid())
    {
      hide ReadInt, ReadPadding, ReadWords;
      var n := LoadInt();
      if n.Raised? { return Raised(n.problem); }
      var a := Align4();
      if a.Raised? { return Raised(a.problem); }
      r := LoadWords(n.v);
    }

    method LoadConstPart() returns (r: Result<seq<Const>>)
      requires Valid()
      modifies this`pos, this`total
      ensures Gives(r, pos, ReadConstPart(buf, old(pos), Little(), Numbered())) && (r.Got? ==> Valid())
    {
      hide ReadInt, ReadConsts;
      var n := LoadInt();
      if n.Raised? { return Raised(n.problem); }
      r := LoadConsts(n.v);
    }

    /** LoadDebug. */
    method LoadDebug() returns (r: Result<Debug>)
      requires Valid()
      modifies this`pos, this`total
      ensures Gives(r, pos, ReadDebug(buf, old(pos), Little())) && (r.Got? ==> Valid())
    {
      hide ReadInt, ReadAligned, ReadLocVars, ReadTexts, Signed;
      var lines := LoadAligned();
      if lines.Raised? { return Raised(lines.problem); }
      var n := LoadInt();
      if n.Raised? { return Raised(n.problem); }
      var vars := LoadLocVars(n.v);
      if vars.Raised? { return Raised(vars.problem); }
      var m := LoadInt();
      if m.Raised? { return Raised(m.problem); }
      var ups := LoadTexts(m.v);
      if ups.Raised? { return Raised(ups.problem); }
      r := Got(Debug(Signed(lines.v), vars.v, ups.v));
    }

    method LoadHead(parent: Text) returns (r: Result<Head>)
      requires Valid()
      modifies this`pos, this`total
      ensures Gives(r, pos, ReadHead(buf, old(pos), parent, Little())) && (r.Got? ==> Valid() && |r.v.bytes| == 4)
    {
      hide ReadText, ReadInt;
      var source := LoadString();
      if source.Raised? { return Raised(source.problem); }
      var line := LoadInt();
      if line.Raised? { return Raised(line.problem); }
      var last := LoadInt();
      if last.Raised? { return Raised(last.problem); }
      var four := LoadBlock(4);
      if four.Raised? { return Raised(four.problem); }
      r := Got(Head(if source.v.NoText? then parent else source.v, line.v, last.v, four.v));
    }

    /** LoadFunction; ncalls bounds the nesting. */
    method LoadFunction(parent: Text) returns (r: Result<Proto>)
      requires Valid()
      modifies this`pos, this`total, this`ncalls
      ensures Gives(r, pos, ReadFunction(buf, old(pos), parent, old(ncalls), Little(), Numbered())) && (r.Got? ==> Valid() && ncalls == old(ncalls))
      decreases MAXCCALLS - ncalls, 1, 0
    {
      hide ReadHead, ReadAligned, ReadConstPart, ReadInt, ReadProtos, ReadDebug, Accepts, MakeProto;
      ncalls := ncalls + 1;
      if ncalls > MAXCCALLS { return Raised(TooDeep); }
      var h := LoadHead(parent);
      if h.Raised? { return Raised(h.problem); }
      var code := LoadAligned();
      if code.Raised? { return Raised(code.problem); }
      var k := LoadConstPart();
      if k.Raised? { return Raised(k.problem); }
      var n := LoadInt();
      if n.Raised? { return Raised(n.problem); }
      var p := LoadProtos(n.v, h.v.source);
      if p.Raised? { return Raised(p.problem); }
      var d := LoadDebug();
      if d.Raised? { return Raised(d.problem); }
      var f := MakeProto(h.v, code.v, k.v, p.v, d.v);
      var ok := CheckCode(f);
      if !ok { return Raised(BadCode); }
      ncalls := ncalls - 1;
      r := Got(f);
    }

    /** The second loop of LoadConstants. */
    method LoadProtos(n: nat, parent: Text) returns (r: Result<seq<Proto>>)
      requires Valid()
      modifies this`pos, this`total, this`ncalls
      ensures Gives(r, pos, ReadProtos(buf, old(pos), n, parent, old(ncalls), Little(), Numbered())) && (r.Got? ==> Valid() && ncalls == old(ncalls))
      decreases MAXCCALLS - ncalls, 2, n
    {
      hide ReadFunction;
      var ps: seq<Proto> := [];
      var i := 0;
      ghost var start, depth := pos, ncalls;
      PrependNone(ReadProtos(buf, pos, n, parent, depth, Little(), Numbered()));
      while i < n
        invariant 0 <= i <= n && Valid() && ncalls == depth == old(ncalls)
        invariant ReadProtos(buf, start, n, parent, depth, Little(), Numbered()) == Prepend(ps, ReadProtos(buf, pos, n - i, parent, depth, Little(), Numbered()))
      {
        var f := LoadFunction(parent);
        if f.Raised? { return Raised(f.problem); }
        PrependNext(ps, f.v, ReadProtos(buf, pos, n - i - 1, parent, depth, Little(), Numbered()));
        ps := ps + [f.v];
        i := i + 1;
      }
      assert ps + [] == ps;
      r := Got(ps);
    }

    /** luaU_undump. */
    method Undump() returns (r: Result<Proto>)
      requires pos == 0
      modifies this
      ensures Gives(r, pos, ReadChunk(buf, old(ncalls), machine, signed))
    {
      hide ReadFunction, HeaderBytes;
      var s := LoadBlock(HEADERSIZE);
      if s.Raised? { return Raised(s.problem); }
      var h := HeaderBytes(machine);
      swap, numsize, toflt := s.v[6] != h[6], s.v[10], IntegralFlag(s.v[11], signed);
      var read := s.v[6 := h[6]];
      h := h[10 := s.v[10]];
      if toflt { read := read[11 := h[11]]; }
      SameHeader(s.v, machine, toflt, read, h);
      if h != read { return Raised(BadHeader); }
      total := 0;
      r := LoadFunction(UNKNOWN);
    }
  }

  lemma ReadSigned(buf: seq<Byte>, pos: nat, size: nat, little: bool)
    requires (size == 1 || size == 2 || size == 4) && ReadNumber(buf, pos, size, little).Value?
    ensures -0x8000_0000 <= SignedValue(ReadNumber(buf, pos, size, little).v, size) < 0x8000_0000
  {
    SignedBound(buf[pos..pos + size], little);
  }

  /** What the comparison of headers finds. */
  lemma SameHeader(s: seq<Byte>, machine: bool, toflt: bool, read: seq<Byte>, own: seq<Byte>)
    requires |s| == HEADERSIZE && own == HeaderBytes(machine)[10 := s[10]]
    requires var h := HeaderBytes(machine); read == if toflt then s[6 := h[6]][11 := own[11]] else s[6 := h[6]]
    ensures var h := HeaderBytes(machine); own == read <==> s[..6] == h[..6] && s[7..10] == h[7..10] && (toflt || s[11] == 0)
  {
    var h := HeaderBytes(machine);
    if own == read {
      forall i | 0 <= i < 6 ensures s[i] == h[i] { assert own[i] == read[i]; }
      forall i | 7 <= i < 10 ensures s[i] == h[i] { assert own[i] == read[i]; }
      assert own[11] == read[11];
    } else if s[..6] == h[..6] && s[7..10] == h[7..10] && (toflt || s[11] == 0) {
      forall i | 0 <= i < HEADERSIZE ensures own[i] == read[i] {
        if i < 6 { assert s[..6][i] == h[..6][i]; }
        if 7 <= i < 10 { assert s[7..10][i - 7] == h[7..10][i - 7]; }
      }
    }
  }

  /** A list that begins with what has been read. */
  function Prepend<T>(a: seq<T>, r: Read<seq<T>>): Read<seq<T>> {
    match r
    case Failed(e) => Failed(e)
    case Value(b, pos) => Value(a + b, pos)
  }

  lemma PrependNone<T>(r: Read<seq<T>>)
    ensures Prepend([], r) == r
  {
    if r.Value? { assert [] + r.v == r.v; }
  }

  lemma PrependNext<T>(a: seq<T>, x: T, r: Read<seq<T>>)
    ensures Prepend(a, Prepend([x], r)) == Prepend(a + [x], r)
  {
    if r.Value? { assert a + ([x] + r.v) == (a + [x]) + r.v; }
  }

  function WordsOf(s: seq<Byte>, little: bool): seq<Word> {
    if |s| < 4 then []
    else
      NumberBound(s[..4], little);
      WordPowers();
      [NumberValue(s[..4], little)] + WordsOf(s[4..], little)
  }

  /** Words read one by one, or swapped together and then taken from memory. */
  lemma {:induction false} WordsAtOnce(buf: seq<Byte>, pos: nat, n: nat, machine: bool, swap: bool)
    requires pos <= |buf|
    ensures pos + n * 4 > |buf| ==> ReadWords(buf, pos, n, machine != swap) == Failed(UnexpectedEnd)
    ensures pos + n * 4 <= |buf| ==>
            var s := buf[pos..pos + n * 4];
            ReadWords(buf, pos, n, machine != swap) == Value(WordsOf(if swap then Swapped(s, 4) else s, machine), pos + n * 4)
    decreases n
  {
    hide NumberValue, Reversed;
    if n > 0 && pos + 4 <= |buf| {
      WordsAtOnce(buf, pos + 4, n - 1, machine, swap);
      if pos + n * 4 <= |buf| {
        var s := buf[pos..pos + n * 4];
        assert s[..4] == buf[pos..pos + 4] && s[4..] == buf[pos + 4..pos + 4 + (n - 1) * 4];
        FirstWord(s, machine, swap);
      }
    }
  }

  lemma FirstWord(s: seq<Byte>, machine: bool, swap: bool)
    requires |s| >= 4
    ensures NumberValue(s[..4], machine != swap) == NumberValue(if swap then Reversed(s[..4]) else s[..4], machine)
    ensures var m := if swap then Swapped(s, 4) else s;
            m[..4] == (if swap then Reversed(s[..4]) else s[..4]) && m[4..] == (if swap then Swapped(s[4..], 4) else s[4..])
  {
    ReversedTwice(s[..4]);
  }

  lemma MulStep(n: nat, size: nat)
    requires n > 0
    ensures n * size == (n - 1) * size + size && (n - 1) * size >= 0
  {
  }

  /** Some number of elements of the size. */
  ghost predicate Whole(n: nat, size: nat)
    requires size > 0
    decreases n
  {
    n == 0 || (n >= size && Whole(n - size, size))
  }

  lemma SwappedNone(size: nat)
    requires size > 0
    ensures Swapped([], size) == [] && Whole(0, size)
    ensures forall s: seq<Byte> :: s[..0] == []
  {
  }

  lemma {:induction false} SwappedJoin(a: seq<Byte>, b: seq<Byte>, size: nat)
    requires size > 0 && Whole(|a|, size) && |b| == size
    ensures Swapped(a + b, size) == Swapped(a, size) + Reversed(b) && Whole(|a| + size, size)
    decreases |a|
  {
    hide Reversed;
    if a == [] {
      assert a + b == b && b[..size] == b && b[size..] == [];
      assert Swapped(b, size) == Reversed(b[..size]) + Swapped(b[size..], size);
      assert Whole(size, size);
    } else {
      SwappedJoin(a[size..], b, size);
      assert (a + b)[..size] == a[..size] && (a + b)[size..] == a[size..] + b;
    }
  }

  lemma SwappedNext(s: seq<Byte>, p: nat, size: nat)
    requires size > 0 && Whole(p, size) && p + size <= |s|
    ensures Whole(p + size, size) && Swapped(s[..p + size], size) == Swapped(s[..p], size) + Reversed(s[p..p + size])
  {
    assert s[..p + size] == s[..p] + s[p..p + size];
    SwappedJoin(s[..p], s[p..p + size], size);
  }

  /** One more element has been swapped. */
  lemma SwapProgress(s: seq<Byte>, p: nat, size: nat, before: seq<Byte>, after: seq<Byte>)
    requires size > 0 && p + size <= |s| && Whole(p, size) && before == Swapped(s[..p], size) + s[p..]
    requires after == ElementSwapped(before, p, size)
    ensures after == Swapped(s[..p + size], size) + s[p + size..] && Whole(p + size, size)
  {
    hide Swapped, Reversed, Whole;
    SwappedNext(s, p, size);
    assert before[..p] == Swapped(s[..p], size) && before[p..p + size] == s[p..p + size] && before[p + size..] == s[p + size..];
  }

  lemma OneElement(s: seq<Byte>, k: nat)
    requires k > 0 && |s| == k
    ensures Swapped(s, k) == Reversed(s)
  {
    assert s[..k] == s && s[k..] == [];
  }

  lemma PaddingLeft(t0: int, t: int)
    requires t0 <= t <= t0 + |Padding(t0)| && t % 4 != 0
    ensures t < t0 + |Padding(t0)|
  {
  }

  lemma PaddingDone(t0: int, t: int)
    requires t0 <= t <= t0 + |Padding(t0)| && t % 4 == 0
    ensures t == t0 + |Padding(t0)|
  {
  }
}
