/** luaU_dump: writing a chunk, with numbers swapped in place for the target's byte order. */
module ChunkDump {
  import opened Bytecode
  import opened Chunk

  const INTOVERFLOW := 101

  class DumpState {
    const machine: bool
    const target: bool
    var out: seq<Byte>
    var wrote: nat
    var status: int

    constructor (machine: bool, target: bool)
      ensures Valid() && out == [] && this.machine == machine && this.target == target
    {
      this.machine := machine;
      this.target := target;
      out := [];
      wrote := 0;
      status := 0;
    }

    /** Nothing has gone wrong, and wrote counts what has been written. */
    predicate Valid()
      reads this
    {
      status == 0 && wrote == |out|
    }

    /** DumpBlock, with a writer that does not fail. */
    method DumpBlock(b: seq<Byte>)
      modifies this`out, this`wrote
      ensures status == 0 ==> out == old(out) + b && wrote == old(wrote) + |b|
      ensures status != 0 ==> out == old(out) && wrote == old(wrote)
    {
      if status == 0 {
        out := out + b;
        wrote := wrote + |b|;
      }
    }

    method DumpChar(y: Byte)
      modifies this`out, this`wrote
      ensures status == 0 ==> out == old(out) + [y] && wrote == old(wrote) + 1
      ensures status != 0 ==> out == old(out) && wrote == old(wrote)
    {
      DumpBlock([y]);
    }

    /** Align4: it ends because nothing has gone wrong so far. */
    method Align4()
      requires Valid()
      modifies this`out, this`wrote
      ensures Valid() && out == old(out) + Padding(|old(out)|)
    {
      while wrote % 4 != 0
        invariant Valid() && |out| < |old(out)| + 4 && |old(out)| <= |out|
        invariant out == old(out) + Zeros(|out| - |old(out)|)
        invariant forall k :: |old(out)| <= k < |out| ==> k % 4 != 0
        decreases |old(out)| + 4 - |out|
      {
        NotFour(|old(out)|, |out|);
        DumpChar(0);
      }
      PaddingIs(|old(out)|, |out| - |old(out)|);
    }

    /** MaybeByteSwap, in place. */
    method MaybeByteSwap(number: array<Byte>)
      modifies number
      ensures number[..] == if machine != target then Reversed(old(number[..])) else old(number[..])
    {
      if machine != target {
        var n := number.Length;
        var i := 0;
        while i < n / 2
          invariant 0 <= i <= n / 2
          invariant forall k :: 0 <= k < i ==> number[k] == old(number[n - 1 - k]) && number[n - 1 - k] == old(number[k])
          invariant forall k :: i <= k < n - i ==> number[k] == old(number[k])
        {
          number[i], number[n - 1 - i] := number[n - 1 - i], number[i];
          i := i + 1;
        }
        assert number[..] == Reversed(old(number[..]));
      }
    }

    /** A number in this machine's memory goes out in the target's order. */
    method DumpNumberOf(x: nat, size: nat)
      requires Valid()
      modifies this`out, this`wrote
      ensures Valid() && out == old(out) + NumberBytes(x, size, target)
    {
      var memory := NumberBytes(x, size, machine);
      var y := new Byte[size](i requires 0 <= i < size => memory[i]);
      assert y[..] == memory;
      MaybeByteSwap(y);
      ReversedTwice(LittleBytes(x, size));
      DumpBlock(y[..]);
    }

    /** DumpInt: the bounds are one short of those of the type. */
    method DumpInt(x: int)
      requires Valid() && -WORDS / 2 <= x < WORDS / 2
      modifies this`out, this`wrote, this`status
      ensures IntFits(x) ==> Valid() && out == old(out) + IntBytes(x, target)
      ensures status == (if x > 0x7fff_fffe || x < -0x7fff_ffff then INTOVERFLOW else 0)
    {
      if x > 0x7fff_fffe || x < -0x7fff_ffff { status := INTOVERFLOW; }
      if status == 0 { DumpNumberOf(IntWord(x), 4); }
    }

    method DumpString(s: Text)
      requires Valid() && TextFits(s)
      modifies this`out, this`wrote
      ensures Valid() && out == old(out) + TextBytes(s, target)
    {
      match s
      case NoText => DumpNumberOf(0, 4);
      case Text(t) =>
        DumpNumberOf(|t| + 1, 4);
        DumpBlock(t + [0]);
        assert TextBytes(s, target) == NumberBytes(|t| + 1, 4, target) + (t + [0]);
    }

    method DumpCode(f: Proto)
      requires Valid() && Fits(f)
      modifies this`out, this`wrote, this`status
      ensures Valid() && out == old(out) + CodeBytes(f, target, |old(out)|)
    {
      hide Fits, Padding, NumberBytes;
      SizesFit(f);
      ghost var at := |out|;
      DumpInt(|f.code|);
      Align4();
      ghost var start := out;
      var i := 0;
      while i < |f.code|
        invariant 0 <= i <= |f.code| && Valid() && out == start + WordsBytes(f.code[..i], target)
      {
        DumpNumberOf(f.code[i], 4);
        WordsNext(f.code, i, target);
        i := i + 1;
      }
      assert f.code[..i] == f.code;
    }

    method DumpConst(k: Const)
      requires Valid() && ConstFits(k)
      modifies this`out, this`wrote
      ensures Valid() && out == old(out) + ConstBytes(k, target)
    {
      hide NumberBytes, TextBytes, TextFits;
      match k
      case KNil => DumpChar(TNIL);
      case KBool(b) =>
        DumpChar(TBOOLEAN);
        DumpChar(if b then 1 else 0);
      case KNumber(x) =>
        DumpChar(TNUMBER);
        DumpNumberOf(x, 8);
      case KString(s) =>
        DumpChar(TSTRING);
        DumpString(s);
    }

    /** The first half of DumpConstants, up to the number of nested functions. */
    method DumpConstants(f: Proto)
      requires Valid() && Fits(f)
      modifies this`out, this`wrote, this`status
      ensures Valid() && out == old(out) + (IntBytes(|f.k|, target) + ConstsBytes(f.k, target) + IntBytes(|f.p|, target))
    {
      hide Fits, ConstBytes, IntBytes, ConstFits;
      SizesFit(f);
      var n := |f.k|;
      DumpInt(n);
      ghost var start := out;
      var i := 0;
      while i < n
        invariant 0 <= i <= n && Valid() && out == start + ConstsBytes(f.k[..i], target)
      {
        DumpConst(f.k[i]);
        ConstsNext(f.k, i, target);
        i := i + 1;
      }
      assert f.k[..i] == f.k;
      DumpInt(|f.p|);
    }

    method DumpDebug(f: Proto)
      requires Valid() && Fits(f)
      modifies this`out, this`wrote, this`status
      ensures Valid() && out == old(out) + DebugBytes(f, target, |old(out)|)
    {
      hide Fits, TextBytes, IntBytes, Padding, TextFits;
      SizesFit(f);
      ghost var start := out;
      DumpLines(f.lineinfo);
      ghost var lines := out;
      DumpInt(|f.locvars|);
      DumpLocVars(f.locvars);
      DumpInt(|f.upvalues|);
      DumpUpvalues(f.upvalues);
    }

    method DumpLines(xs: seq<int>)
      requires Valid() && IntFits(|xs|) && forall i :: 0 <= i < |xs| ==> IntFits(xs[i])
      modifies this`out, this`wrote, this`status
      ensures Valid() && out == old(out) + (IntBytes(|xs|, target) + Padding(|old(out)| + 4) + IntsBytes(xs, target))
    {
      hide IntBytes, Padding;
      DumpInt(|xs|);
      Align4();
      ghost var start := out;
      var i := 0;
      while i < |xs|
        invariant 0 <= i <= |xs| && Valid() && out == start + IntsBytes(xs[..i], target)
      {
        assert IntFits(xs[i]);
        DumpInt(xs[i]);
        IntsNext(xs, i, target);
        i := i + 1;
      }
      assert xs[..i] == xs;
    }

    method DumpLocVars(vs: seq<LocVar>)
      requires Valid() && forall i :: 0 <= i < |vs| ==> LocVarFits(vs[i])
      modifies this`out, this`wrote, this`status
      ensures Valid() && out == old(out) + LocVarsBytes(vs, target)
    {
      hide IntBytes, TextBytes;
      ghost var start := out;
      var i := 0;
      while i < |vs|
        invariant 0 <= i <= |vs| && Valid() && out == start + LocVarsBytes(vs[..i], target)
      {
        assert LocVarFits(vs[i]);
        DumpString(vs[i].varname);
        DumpInt(vs[i].startpc);
        DumpInt(vs[i].endpc);
        LocVarsNext(vs, i, target);
        i := i + 1;
      }
      assert vs[..i] == vs;
    }

    method DumpUpvalues(ts: seq<Text>)
      requires Valid() && forall i :: 0 <= i < |ts| ==> TextFits(ts[i])
      modifies this`out, this`wrote
      ensures Valid() && out == old(out) + TextsBytes(ts, target)
    {
      hide TextBytes, TextFits;
      ghost var start := out;
      var i := 0;
      while i < |ts|
        invariant 0 <= i <= |ts| && Valid() && out == start + TextsBytes(ts[..i], target)
      {
        DumpString(ts[i]);
        TextsNext(ts, i, target);
        i := i + 1;
      }
      assert ts[..i] == ts;
    }

    method DumpHead(f: Proto, parent: Text)
      requires Valid() && Fits(f)
      modifies this`out, this`wrote, this`status
      ensures Valid() && out == old(out) + HeadBytes(f, parent, target)
    {
      hide Fits, TextBytes, IntBytes, TextFits;
      SizesFit(f);
      DumpString(if f.source == parent then NoText else f.source);
      DumpInt(f.linedefined);
      DumpInt(f.lastlinedefined);
      DumpChar(f.nups);
      DumpChar(f.numparams);
      DumpChar(f.vararg);
      DumpChar(f.maxstacksize);
    }

    method DumpFunction(f: Proto, parent: Text)
      requires Valid() && Fits(f)
      modifies this`out, this`wrote, this`status
      ensures Valid() && out == old(out) + FunctionBytes(f, parent, target, |old(out)|)
      decreases f, |f.p| + 1
    {
      hide Fits, HeadBytes, CodeBytes, ConstsBytes, DebugBytes, ProtosBytes, IntBytes;
      SizesFit(f);
      DumpHead(f, parent);
      DumpCode(f);
      DumpConstants(f);
      DumpProtos(f, |f.p|);
      assert f.p[..|f.p|] == f.p;
      DumpDebug(f);
    }

    /** The second half of DumpConstants: the first n nested functions. */
    method DumpProtos(f: Proto, n: nat)
      requires Valid() && Fits(f) && n <= |f.p|
      modifies this`out, this`wrote, this`status
      ensures (forall g :: g in f.p[..n] ==> Fits(g)) && Valid() && out == old(out) + ProtosBytes(f.p[..n], f.source, target, |old(out)|)
      decreases f, n
    {
      hide Fits, FunctionBytes;
      SizesFit(f);
      if n > 0 {
        DumpProtos(f, n - 1);
        assert f.p[n - 1] in f.p;
        DumpFunction(f.p[n - 1], f.source);
        ProtosNext(f.p, n - 1, f.source, target, |old(out)|);
      }
    }

    /** luaU_dump. */
    method Dump(f: Proto)
      requires Valid() && out == [] && Fits(f)
      modifies this`out, this`wrote, this`status
      ensures Valid() && out == ChunkBytes(f, target)
    {
      hide Fits, FunctionBytes;
      DumpBlock(HeaderBytes(target));
      DumpFunction(f, NoText);
    }
  }

  function Zeros(n: nat): (s: seq<Byte>)
    ensures |s| == n
  {
    seq(n, _ => 0)
  }

  /** A multiple of four comes before four bytes are written. */
  lemma NotFour(at: nat, now: nat)
    requires at <= now < at + 4 && now % 4 != 0 && forall k :: at <= k < now ==> k % 4 != 0
    ensures now + 1 < at + 4
  {
    var m := at + (4 - at % 4) % 4;
    assert at <= m < at + 4 && m % 4 == 0;
  }

  lemma PaddingIs(at: nat, n: nat)
    requires (at + n) % 4 == 0 && n < 4 && forall k :: at <= k < at + n ==> k % 4 != 0
    ensures Zeros(n) == Padding(at)
  {
    assert |Padding(at)| == n;
  }

  lemma SizesFit(f: Proto)
    requires Fits(f)
    ensures IntFits(|f.code|) && IntFits(|f.k|) && IntFits(|f.p|) && IntFits(|f.lineinfo|) && IntFits(|f.locvars|) && IntFits(|f.upvalues|)
    ensures forall g :: g in f.p ==> Fits(g)
    ensures (forall i :: 0 <= i < |f.k| ==> ConstFits(f.k[i])) && (forall i :: 0 <= i < |f.lineinfo| ==> IntFits(f.lineinfo[i]))
    ensures (forall i :: 0 <= i < |f.locvars| ==> LocVarFits(f.locvars[i])) && (forall i :: 0 <= i < |f.upvalues| ==> TextFits(f.upvalues[i]))
    ensures TextFits(f.source) && TextFits(NoText) && IntFits(f.linedefined) && IntFits(f.lastlinedefined)
    ensures IsByte(f.nups) && IsByte(f.numparams) && IsByte(f.vararg) && IsByte(f.maxstacksize)
  {
  }

  // ---------------------------------------------------------------- one more element at the end

  lemma {:induction false} WordsJoin(a: seq<Word>, b: seq<Word>, little: bool)
    ensures WordsBytes(a + b, little) == WordsBytes(a, little) + WordsBytes(b, little)
  {
    hide NumberBytes;
    if a == [] {
      assert a + b == b;
    } else {
      WordsJoin(a[1..], b, little);
      assert (a + b)[1..] == a[1..] + b;
    }
  }

  lemma WordsNext(ws: seq<Word>, i: nat, little: bool)
    requires i < |ws|
    ensures WordsBytes(ws[..i + 1], little) == WordsBytes(ws[..i], little) + NumberBytes(ws[i], 4, little)
  {
    assert ws[..i + 1] == ws[..i] + [ws[i]];
    WordsJoin(ws[..i], [ws[i]], little);
  }

  lemma {:induction false} ConstsJoin(a: seq<Const>, b: seq<Const>, little: bool)
    requires (forall i :: 0 <= i < |a| ==> ConstFits(a[i])) && (forall i :: 0 <= i < |b| ==> ConstFits(b[i]))
    ensures ConstsBytes(a + b, little) == ConstsBytes(a, little) + ConstsBytes(b, little)
  {
    hide ConstBytes, ConstFits;
    if a == [] {
      assert a + b == b;
    } else {
      ConstsJoin(a[1..], b, little);
      assert (a + b)[1..] == a[1..] + b;
    }
  }

  lemma ConstsNext(ks: seq<Const>, i: nat, little: bool)
    requires i < |ks| && forall i :: 0 <= i < |ks| ==> ConstFits(ks[i])
    ensures ConstsBytes(ks[..i + 1], little) == ConstsBytes(ks[..i], little) + ConstBytes(ks[i], little)
  {
    assert ks[..i + 1] == ks[..i] + [ks[i]];
    ConstsJoin(ks[..i], [ks[i]], little);
  }

  lemma {:induction false} IntsJoin(a: seq<int>, b: seq<int>, little: bool)
    requires (forall i :: 0 <= i < |a| ==> IntFits(a[i])) && (forall i :: 0 <= i < |b| ==> IntFits(b[i]))
    ensures IntsBytes(a + b, little) == IntsBytes(a, little) + IntsBytes(b, little)
  {
    hide IntBytes;
    if a == [] {
      assert a + b == b;
    } else {
      IntsJoin(a[1..], b, little);
      assert (a + b)[1..] == a[1..] + b;
    }
  }

  lemma IntsNext(xs: seq<int>, i: nat, little: bool)
    requires i < |xs| && forall i :: 0 <= i < |xs| ==> IntFits(xs[i])
    ensures IntFits(xs[i]) && IntsBytes(xs[..i + 1], little) == IntsBytes(xs[..i], little) + IntBytes(xs[i], little)
  {
    assert xs[..i + 1] == xs[..i] + [xs[i]];
    IntsJoin(xs[..i], [xs[i]], little);
  }

  lemma {:induction false} LocVarsJoin(a: seq<LocVar>, b: seq<LocVar>, little: bool)
    requires (forall i :: 0 <= i < |a| ==> LocVarFits(a[i])) && (forall i :: 0 <= i < |b| ==> LocVarFits(b[i]))
    ensures LocVarsBytes(a + b, little) == LocVarsBytes(a, little) + LocVarsBytes(b, little)
  {
    hide TextBytes, IntBytes;
    if a == [] {
      assert a + b == b;
    } else {
      LocVarsJoin(a[1..], b, little);
      assert (a + b)[1..] == a[1..] + b;
    }
  }

  lemma LocVarsNext(vs: seq<LocVar>, i: nat, little: bool)
    requires i < |vs| && forall i :: 0 <= i < |vs| ==> LocVarFits(vs[i])
    ensures LocVarFits(vs[i])
    ensures LocVarsBytes(vs[..i + 1], little) == LocVarsBytes(vs[..i], little)
            + TextBytes(vs[i].varname, little) + IntBytes(vs[i].startpc, little) + IntBytes(vs[i].endpc, little)
  {
    assert vs[..i + 1] == vs[..i] + [vs[i]];
    LocVarsJoin(vs[..i], [vs[i]], little);
  }

  lemma {:induction false} TextsJoin(a: seq<Text>, b: seq<Text>, little: bool)
    requires (forall i :: 0 <= i < |a| ==> TextFits(a[i])) && (forall i :: 0 <= i < |b| ==> TextFits(b[i]))
    ensures TextsBytes(a + b, little) == TextsBytes(a, little) + TextsBytes(b, little)
  {
    hide TextBytes, TextFits;
    if a == [] {
      assert a + b == b;
    } else {
      TextsJoin(a[1..], b, little);
      assert (a + b)[1..] == a[1..] + b;
    }
  }

  lemma TextsNext(ts: seq<Text>, i: nat, little: bool)
    requires i < |ts| && forall i :: 0 <= i < |ts| ==> TextFits(ts[i])
    ensures TextsBytes(ts[..i + 1], little) == TextsBytes(ts[..i], little) + TextBytes(ts[i], little)
  {
    assert ts[..i + 1] == ts[..i] + [ts[i]];
    TextsJoin(ts[..i], [ts[i]], little);
  }

  lemma {:induction false} ProtosJoin(a: seq<Proto>, b: seq<Proto>, parent: Text, little: bool, at: nat)
    requires (forall g :: g in a ==> Fits(g)) && (forall g :: g in b ==> Fits(g))
    ensures ProtosBytes(a + b, parent, little, at)
            == ProtosBytes(a, parent, little, at) + ProtosBytes(b, parent, little, at + |ProtosBytes(a, parent, little, at)|)
    decreases |a|
  {
    hide FunctionBytes, Fits;
    if a == [] {
      assert a + b == b;
    } else {
      var first := FunctionBytes(a[0], parent, little, at);
      ProtosJoin(a[1..], b, parent, little, at + |first|);
      assert (a + b)[1..] == a[1..] + b;
    }
  }

  lemma ProtosNext(ps: seq<Proto>, i: nat, parent: Text, little: bool, at: nat)
    requires i < |ps| && forall g :: g in ps ==> Fits(g)
    ensures var n := |ProtosBytes(ps[..i], parent, little, at)|;
            ProtosBytes(ps[..i + 1], parent, little, at) == ProtosBytes(ps[..i], parent, little, at) + FunctionBytes(ps[i], parent, little, at + n)
  {
    hide FunctionBytes, Fits;
    assert ps[..i + 1] == ps[..i] + [ps[i]];
    ProtosJoin(ps[..i], [ps[i]], parent, little, at);
  }
}
