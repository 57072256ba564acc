/** The mark byte of lgc.h: the bit operations of the macros do to the bytes of a heap what the
    collector of module Gc does to colours, and sweeplist's bit test is its test. */
module GcBits {
  import opened GcHeap
  import opened GcColours
  import opened Gc

  const WHITE0: bv8 := 1
  const WHITE1: bv8 := 2
  const WHITEBITS: bv8 := 3
  const BLACK: bv8 := 4
  const FIXED: bv8 := 32
  const SFIXED: bv8 := 64
  const MASKMARKS: bv8 := 0xF8

  /** At most one of the three colour bits is set. */
  predicate Proper(m: bv8) {
    m & (WHITEBITS | BLACK) == 0 || m & (WHITEBITS | BLACK) == WHITE0 || m & (WHITEBITS | BLACK) == WHITE1
    || m & (WHITEBITS | BLACK) == BLACK
  }

  function ColorOf(m: bv8): Color
    requires Proper(m)
  {
    if m & WHITE0 != 0 then White(false) else if m & WHITE1 != 0 then White(true) else if m & BLACK != 0 then Black else Gray
  }

  /** currentwhite holds one white bit, and whether fixed objects survive. */
  predicate OneWhite(cw: bv8) { cw & WHITEBITS == WHITE0 || cw & WHITEBITS == WHITE1 }

  function WhiteOf(cw: bv8): bool
    requires OneWhite(cw)
  {
    cw & WHITEBITS == WHITE1
  }

  function OtherWhite(cw: bv8): (r: bv8)
    requires OneWhite(cw)
    ensures OneWhite(r) && WhiteOf(r) == !WhiteOf(cw) && r & FIXED == cw & FIXED
  {
    cw ^ WHITEBITS
  }

  function MakeWhite(m: bv8, cw: bv8): (r: bv8)
    requires Proper(m) && OneWhite(cw)
    ensures Proper(r) && ColorOf(r) == White(WhiteOf(cw)) && r & MASKMARKS == m & MASKMARKS
  {
    (m & MASKMARKS) | (cw & WHITEBITS)
  }

  function White2Gray(m: bv8): (r: bv8)
    requires Proper(m) && ColorOf(m).White?
    ensures Proper(r) && ColorOf(r) == Gray && r & MASKMARKS == m & MASKMARKS
  {
    m & !WHITEBITS
  }

  function Gray2Black(m: bv8): (r: bv8)
    requires Proper(m) && ColorOf(m) == Gray
    ensures Proper(r) && ColorOf(r) == Black && r & MASKMARKS == m & MASKMARKS
  {
    m | BLACK
  }

  function Black2Gray(m: bv8): (r: bv8)
    requires Proper(m) && ColorOf(m) == Black
    ensures Proper(r) && ColorOf(r) == Gray && r & MASKMARKS == m & MASKMARKS
  {
    m & !BLACK
  }

  function ChangeWhite(m: bv8): (r: bv8)
    requires Proper(m) && ColorOf(m).White?
    ensures Proper(r) && ColorOf(r) == White(!ColorOf(m).w) && r & MASKMARKS == m & MASKMARKS
  {
    m ^ WHITEBITS
  }

  function IsDeadMark(m: bv8, cw: bv8): (r: bool)
    requires Proper(m) && OneWhite(cw)
    ensures r <==> ColorOf(m) == White(!WhiteOf(cw))
  {
    m & OtherWhite(cw) & WHITEBITS != 0
  }

  /** sweeplist's test: with FIXEDBIT in currentwhite (lua_newstate) an object survives when it is
      not dead or is fixed; luaC_freeall's mask lets only the super fixed main thread survive. */
  function SurvivesMark(m: bv8, cw: bv8): (r: bool)
    requires Proper(m)
    ensures OneWhite(cw) && cw & !WHITEBITS == FIXED ==> (r <==> ColorOf(m) != White(!WhiteOf(cw)) || m & FIXED != 0)
    ensures cw == WHITEBITS | SFIXED ==> (r <==> m & SFIXED != 0)
  {
    var deadmask := cw ^ WHITEBITS;
    (m ^ WHITEBITS) & deadmask != 0
  }

  // ---------------------------------------------------------------- bytes and the collector

  /** m is the mark byte of o. */
  ghost predicate MarkOf(o: Obj, m: bv8) { Proper(m) && ColorOf(m) == o.color && (o.fixed <==> m & FIXED != 0) }

  /** marks holds the mark byte of every object. */
  ghost predicate Bytes(h: Heap, marks: map<Ref, bv8>) { marks.Keys == h.Keys && forall r :: r in h ==> MarkOf(h[r], marks[r]) }

  /** Changing the colour bits of one byte is painting one object. */
  lemma PaintByte(h: Heap, marks: map<Ref, bv8>, r: Ref, m: bv8)
    requires Bytes(h, marks) && r in h && Proper(m) && m & MASKMARKS == marks[r] & MASKMARKS
    ensures Bytes(Paint(h, r, ColorOf(m)), marks[r := m])
  {
    assert MarkOf(h[r], marks[r]);
    assert m & FIXED == (m & MASKMARKS) & FIXED;
    assert marks[r] & FIXED == (marks[r] & MASKMARKS) & FIXED;
  }

  /** Every macro, on the byte of an object of the colour it is for, is the collector's step. */
  lemma MacrosPaint(h: Heap, marks: map<Ref, bv8>, r: Ref, cw: bv8)
    requires Bytes(h, marks) && r in h && OneWhite(cw)
    ensures Bytes(Paint(h, r, White(WhiteOf(cw))), marks[r := MakeWhite(marks[r], cw)])
    ensures h[r].color.White? ==>
      && Bytes(Paint(h, r, Gray), marks[r := White2Gray(marks[r])])
      && Bytes(Paint(h, r, White(!h[r].color.w)), marks[r := ChangeWhite(marks[r])])
    ensures h[r].color.Gray? ==> Bytes(Paint(h, r, Black), marks[r := Gray2Black(marks[r])])
    ensures h[r].color.Black? ==> Bytes(Paint(h, r, Gray), marks[r := Black2Gray(marks[r])])
  {
    hide Bytes, ColorOf, Proper, MakeWhite, White2Gray, ChangeWhite, Gray2Black, Black2Gray, WhiteOf, OneWhite;
    ByteOf(h, marks, r);
    var m := marks[r];
    PaintByte(h, marks, r, MakeWhite(m, cw));
    if h[r].color.White? {
      PaintByte(h, marks, r, White2Gray(m));
      PaintByte(h, marks, r, ChangeWhite(m));
    } else if h[r].color.Gray? {
      PaintByte(h, marks, r, Gray2Black(m));
    } else {
      PaintByte(h, marks, r, Black2Gray(m));
    }
  }

  lemma ByteOf(h: Heap, marks: map<Ref, bv8>, r: Ref)
    requires Bytes(h, marks) && r in h
    ensures r in marks && MarkOf(h[r], marks[r])
  {
  }

  /** isdead, sweeplist's test and the flip of atomic, on bytes and in the collector. */
  lemma BitTests(g: GlobalState, marks: map<Ref, bv8>, r: Ref, cw: bv8)
    requires Bytes(g.heap, marks) && r in g.heap
    requires OneWhite(cw) && cw & !WHITEBITS == FIXED && WhiteOf(cw) == g.currentwhite
    ensures IsDeadMark(marks[r], cw) <==> IsDead(g.heap, g.currentwhite, r)
    ensures SurvivesMark(marks[r], cw) <==> g.Survives(r)
    ensures WhiteOf(OtherWhite(cw)) == !g.currentwhite && OtherWhite(cw) & !WHITEBITS == FIXED
  {
    hide Bytes, ColorOf, Proper, WhiteOf, IsDeadMark, SurvivesMark;
    ByteOf(g.heap, marks, r);
    FlipKeeps(cw);
  }

  lemma FlipKeeps(cw: bv8)
    requires OneWhite(cw)
    ensures OtherWhite(cw) & !WHITEBITS == cw & !WHITEBITS
  {
  }
}
