/** The bytes of a chunk by their positions. */
module ChunkLayout {
  import opened Bytecode
  import opened Chunk
  import opened Powers

  /** The twelve bytes that every chunk starts with. */
  lemma HeaderLayout(f: Proto, little: bool)
    requires Fits(f)
    ensures var s := ChunkBytes(f, little);
      && |s| >= 12 && s[0] == 27 && s[1] == 76 && s[2] == 117 && s[3] == 97 && s[4] == 81 && s[5] == 0
      && s[6] == (if little then 1 else 0) && s[7] == 4 && s[8] == 4 && s[9] == 4 && s[10] == 8 && s[11] == 0
  {
    hide FunctionBytes, Fits;
    assert 'L' as int == 76 && 'u' as int == 117 && 'a' as int == 97;
    var h, b := HeaderBytes(little), FunctionBytes(f, NoText, little, HEADERSIZE);
    assert forall i :: 0 <= i < 12 ==> (h + b)[i] == h[i];
  }

  /** A word, the least significant byte first or last. */
  lemma WordLayout(x: Word, little: bool)
    ensures var s, d := NumberBytes(x, 4, little), [x % 256, x / 256 % 256, x / 65536 % 256, x / 16777216];
      forall i :: 0 <= i < 4 ==> s[i] == if little then d[i] else d[3 - i]
  {
    assert LittleBytes(x, 4) == [x % 256] + LittleBytes(x / 256, 3);
    assert LittleBytes(x / 256, 3) == [x / 256 % 256] + LittleBytes(x / 65536, 2) by { assert x / 256 / 256 == x / 65536; }
    assert LittleBytes(x / 65536, 2) == [x / 65536 % 256] + LittleBytes(x / 16777216, 1) by { assert x / 65536 / 256 == x / 16777216; }
    assert LittleBytes(x / 16777216, 1) == [x / 16777216] + LittleBytes(0, 0);
  }

  /** Any number: byte i of it counts 256 to the i. */
  lemma {:induction false} NumberLayout(x: nat, k: nat, i: nat, little: bool)
    requires i < k
    ensures NumberBytes(x, k, little)[if little then i else k - 1 - i] == x / Pow256(i) % 256
  {
    LittleLayout(x, k, i);
  }

  lemma {:induction false} LittleLayout(x: nat, k: nat, i: nat)
    requires i < k
    ensures LittleBytes(x, k)[i] == x / Pow256(i) % 256
  {
    if i > 0 {
      LittleLayout(x / 256, k - 1, i - 1);
      DivTwice(x, Pow256(i - 1));
    }
  }

  lemma DivTwice(x: nat, p: nat)
    requires p > 0
    ensures x / 256 / p == x / (256 * p)
  {
    var y := x / 256;
    var q, r := y / p, y % p;
    assert x == (q * p + r) * 256 + x % 256;
    assert (q * p + r) * 256 == q * (256 * p) + r * 256;
    assert 256 * p >= (r + 1) * 256;
    DivModUnique(x, 256 * p, q, r * 256 + x % 256);
  }

  /** Constants by their tags. */
  lemma ConstLayout(k: Const, little: bool)
    requires ConstFits(k)
    ensures k.KNil? ==> ConstBytes(k, little) == [0]
    ensures k.KBool? ==> ConstBytes(k, little) == [1, if k.b then 1 else 0]
    ensures k.KNumber? ==> var s := ConstBytes(k, little); |s| == 9 && s[0] == 5 && s[1..] == NumberBytes(k.bits, 8, little)
    ensures k.KString? ==> var s := ConstBytes(k, little); |s| == |k.s.s| + 6 && s[0] == 6 && s[1..] == TextBytes(k.s, little)
  {
  }

  /** A string: its size with the zero at its end, its characters and the zero; no string has size 0. */
  lemma TextLayout(t: Text, little: bool)
    requires TextFits(t)
    ensures t.NoText? ==> TextBytes(t, little) == [0, 0, 0, 0]
    ensures t.Text? ==> var s := TextBytes(t, little);
      |s| == |t.s| + 5 && s[..4] == NumberBytes(|t.s| + 1, 4, little) && s[4..|s| - 1] == t.s && s[|s| - 1] == 0
  {
    if t.NoText? { WordLayout(0, little); }
  }

  /** A prototype starts with its source, unless that is its parent's, its lines and four counts. */
  lemma HeadLayout(f: Proto, parent: Text, little: bool)
    requires Fits(f)
    ensures var s, t := HeadBytes(f, parent, little), if f.source == parent then [0, 0, 0, 0] else TextBytes(f.source, little);
      var n := |t|;
      && |s| == n + 12 && s[..n] == t && s[n..n + 4] == NumberBytes(f.linedefined, 4, little)
      && s[n + 4..n + 8] == NumberBytes(f.lastlinedefined, 4, little)
      && s[n + 8] == f.nups && s[n + 9] == f.numparams && s[n + 10] == f.vararg && s[n + 11] == f.maxstacksize
  {
    hide TextBytes, NumberBytes, TextFits;
    TextLayout(NoText, little);
  }

  /** The code begins at a multiple of four, zeros being put before it. */
  lemma CodeLayout(f: Proto, little: bool, at: nat)
    requires Fits(f)
    ensures var s, z := CodeBytes(f, little, at), (4 - at % 4) % 4;
      && |s| >= 4 + z && s[..4] == NumberBytes(|f.code|, 4, little) && (at + 4 + z) % 4 == 0
      && (forall i :: 4 <= i < 4 + z ==> s[i] == 0) && s[4 + z..] == WordsBytes(f.code, little)
  {
  }

  /** A function inside 200 others is refused, whatever its bytes. */
  lemma DepthLimit(buf: seq<Byte>, pos: nat, parent: Text, depth: nat, little: bool, numbers: Numbers)
    requires depth >= 200
    ensures ReadFunction(buf, pos, parent, depth, little, numbers) == Failed(TooDeep)
  {
  }
}
