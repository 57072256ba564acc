/** What marking does to the colours of a heap. */
module GcColours {
  import opened GcHeap

  /** The roots that never change are marked from the start of the mark phase. */
  ghost predicate Anchored(h: Heap, mainthread: Ref, registry: Value) {
    mainthread in h && !IsWhite(h, mainthread) && (registry.Object? ==> registry.r in h && !IsWhite(h, registry.r))
  }

  ghost predicate MarkedClosed(h: Heap) { forall r :: r in h && !IsWhite(h, r) ==> KidsMarked(h, r) }

  lemma RootsMarkedStay(h: Heap, h': Heap, roots: set<Ref>, keep: set<Ref>)
    requires Darker(h, h', keep) && RootsMarked(h, roots)
    ensures RootsMarked(h', roots)
  {
  }

  lemma NoThreads(h: Heap)
    ensures ThreadsDone(h, [])
  {
  }

  ghost predicate RootsMarked(h: Heap, roots: set<Ref>) { forall r :: r in roots ==> r in h && !IsWhite(h, r) }

  lemma RingMarked(h: Heap, h': Heap, uvhead: seq<Ref>, keep: set<Ref>)
    requires Darker(h, h', keep) && forall r :: IsOpen(h, r) ==> r in uvhead
    requires forall k :: 0 <= k < |uvhead| && IsOpen(h', uvhead[k]) && !IsWhite(h', uvhead[k]) ==> KidsMarked(h', uvhead[k])
    ensures UpvalsMarked(h')
  {
    hide KidsMarked;
    forall r | r in h' && IsOpen(h', r) && !IsWhite(h', r) ensures KidsMarked(h', r) {
      assert IsOpen(h, r);
      var k :| 0 <= k < |uvhead| && uvhead[k] == r;
    }
  }

  ghost predicate ThreadsDone(h: Heap, g: seq<Ref>) {
    forall x :: x in g ==> x in h && h[x].body.Thread? && KidsMarked(h, x)
  }

  ghost predicate UpvalsMarked(h: Heap) {
    forall r :: r in h && IsOpen(h, r) && !IsWhite(h, r) ==> KidsMarked(h, r)
  }

  lemma DarkerSelf(h: Heap, keep: set<Ref>)
    ensures Darker(h, h, keep)
  {
  }

  lemma ThreadsStayDone(h: Heap, h': Heap, o: Ref, g: seq<Ref>, g': seq<Ref>, keep: set<Ref>)
    requires Darker(h, h', keep) && (g' == g || Regrayed(h', o, g, g'))
    ensures ThreadsDone(h, g) ==> ThreadsDone(h', g')
  {
    KidsStayMarked(h, h', keep);
  }

  lemma StillOpen(h: Heap, h': Heap, r: Ref, keep: set<Ref>)
    requires Darker(h, h', keep) && IsOpen(h, r)
    ensures IsOpen(h', r) && h'[r].body == h[r].body
  {
  }

  lemma UpvalKeep(h: Heap, r: Ref, keep: set<Ref>)
    requires ClosedIn(h, keep) && MarkedWithin(h, keep) && IsOpen(h, r) && !IsWhite(h, r)
    ensures ValueRefs(UpvalValue(h, h[r].body.loc)) <= keep
  {
    KeepRefs(h, r, keep);
  }

  lemma UpvalsStayMarked(h: Heap, h': Heap, uvs: seq<Ref>, keep: set<Ref>)
    requires Marked(h, h', keep)
    requires forall k :: 0 <= k < |uvs| && IsOpen(h, uvs[k]) && !IsWhite(h, uvs[k]) ==> KidsMarked(h, uvs[k])
    ensures forall k :: 0 <= k < |uvs| && IsOpen(h', uvs[k]) && !IsWhite(h', uvs[k]) ==> KidsMarked(h', uvs[k])
  {
    MarkedDarker(h, h', keep);
    KidsStayMarked(h, h', keep);
  }

  lemma NeverBlack(h: Heap, gray: seq<Ref>, grayagain: seq<Ref>, r: Ref)
    requires Tricolour(h, gray, grayagain, {}) && IsOpen(h, r)
    ensures !h[r].color.Black?
  {
  }

  lemma UpvalsStay(h: Heap, h': Heap, keep: set<Ref>)
    requires Darker(h, h', keep) && UpvalsMarked(h)
    ensures UpvalsMarked(h')
  {
    KidsStayMarked(h, h', keep);
  }

  lemma AgainIsGray(h: Heap, grayagain: seq<Ref>)
    requires Tricolour(h, [], grayagain, {})
    ensures Tricolour(h, grayagain, [], {})
  {
    assert [] + grayagain == grayagain + [];
  }

  lemma RootsStay(h: Heap, h': Heap, keep: set<Ref>)
    requires Darker(h, h', keep)
    ensures forall r :: r in h && !IsWhite(h, r) ==> r in h' && !IsWhite(h', r)
  {
  }

  /** Nothing gray is left but threads and open upvalues that have been traversed. */
  lemma AllMarkedClosed(h: Heap, grayagain: seq<Ref>)
    requires Tricolour(h, [], grayagain, {}) && ThreadsDone(h, grayagain) && UpvalsMarked(h)
    ensures MarkedClosed(h)
  {
  }

  /** A thread goes from gray to grayagain. */
  lemma Requeue(h: Heap, gray: seq<Ref>, grayagain: seq<Ref>)
    requires Tricolour(h, gray, grayagain, {}) && gray != []
    ensures Tricolour(h, gray[1..], [gray[0]] + grayagain, {})
  {
    var a, b := gray + grayagain, gray[1..] + ([gray[0]] + grayagain);
    forall r | r in gray ensures r == gray[0] || r in gray[1..] {}
    forall i, j | 0 <= i < j < |b| ensures b[i] != b[j] {
      var n := |gray| - 1;
      var fi := if i < n then i + 1 else if i == n then 0 else i;
      var fj := if j < n then j + 1 else if j == n then 0 else j;
      assert b[i] == a[fi] && b[j] == a[fj];
      assert if fi < fj then a[fi] != a[fj] else a[fj] != a[fi];
    }
  }

  /** Any other object leaves the gray list black, its references still to be marked. */
  lemma Dequeue(h: Heap, gray: seq<Ref>, grayagain: seq<Ref>, keep: set<Ref>)
    requires Tricolour(h, gray, grayagain, {}) && gray != [] && !h[gray[0]].body.Thread? && ClosedIn(h, keep)
    ensures Tricolour(Paint(h, gray[0], Black), gray[1..], grayagain, {gray[0]}) && ClosedIn(Paint(h, gray[0], Black), keep)
  {
    var o := gray[0];
    SameKids(h, Paint(h, o, Black));
    var a := gray + grayagain;
    assert gray[1..] + grayagain == a[1..] && a[0] == o;
    forall r | r in gray ensures r == o || r in gray[1..] {}
    forall r | r in gray[1..] || r in grayagain ensures r in a[1..] && r != o {}
  }

  lemma Blackened(h: Heap, h1: Heap, h2: Heap, gray: seq<Ref>, grayagain: seq<Ref>, o: Ref, keep: set<Ref>)
    requires o in h && h[o].color.Gray? && h1 == Paint(h, o, Black) && Marked(h1, h2, keep)
    requires h[o].body.Holder? && Tricolour(h2, gray, grayagain, {o}) && KidsMarked(h2, o)
    ensures Tricolour(h2, gray, grayagain, {}) && Darker(h, h2, keep)
  {
  }

  lemma KeepThreadRefs(h: Heap, th: Ref, keep: set<Ref>)
    requires ClosedIn(h, keep) && th in keep && h[th].body.Thread?
    ensures ValueRefs(h[th].body.globals) <= keep
    ensures forall v :: v in h[th].body.stack ==> ValueRefs(v) <= keep
  {
    assert Kids(h, th) <= keep;
  }

  lemma ThreadMarked(h: Heap, h1: Heap, h2: Heap, th: Ref, keep: set<Ref>)
    requires th in h && h[th].body.Thread? && Marked(h, h1, keep) && Marked(h1, h2, keep)
    requires h[th].body.globals.Object? ==> h[th].body.globals.r in h1 && !IsWhite(h1, h[th].body.globals.r)
    requires forall v :: v in h1[th].body.stack && v.Object? ==> v.r in h2 && !IsWhite(h2, v.r)
    ensures th in h2 && h2[th].body == h[th].body && KidsMarked(h2, th)
  {
  }

  lemma WithinDarker(h: Heap, h': Heap, keep: set<Ref>)
    requires MarkedWithin(h, keep) && Darker(h, h', keep)
    ensures MarkedWithin(h', keep)
  {
  }

  function Paint(h: Heap, r: Ref, c: Color): Heap
    requires r in h
  {
    h[r := h[r].(color := c)]
  }

  lemma PaintShrinks(h: Heap, o: Ref, c: Color)
    requires o in h && IsWhite(h, o) && !c.White?
    ensures WhiteSet(Paint(h, o, c)) < WhiteSet(h)
  {
    assert o in WhiteSet(h) && o !in WhiteSet(Paint(h, o, c));
  }

  lemma PaintClosed(h: Heap, o: Ref, c: Color, keep: set<Ref>)
    requires o in h && ClosedIn(h, keep)
    ensures ClosedIn(Paint(h, o, c), keep)
  {
    assert SameBodies(h, Paint(h, o, c));
    SameKids(h, Paint(h, o, c));
  }

  lemma KeepRefs(h: Heap, o: Ref, keep: set<Ref>)
    requires ClosedIn(h, keep) && o in keep
    ensures h[o].body.Holder? ==> forall x :: x in h[o].body.refs ==> x in keep
    ensures h[o].body.Upval? ==> ValueRefs(UpvalValue(h, h[o].body.loc)) <= keep
  {
    assert Kids(h, o) <= keep;
  }

  lemma AllMarked(h: Heap, h': Heap, o: Ref, keep: set<Ref>)
    requires o in h && h[o].body.Holder? && Marked(h, h', keep)
    requires forall x :: x in h[o].body.refs ==> x in h' && !IsWhite(h', x)
    ensures o in h' && h'[o].body == h[o].body && KidsMarked(h', o)
    ensures !IsWhite(h, o) ==> h'[o] == h[o]
  {
  }

  lemma ValueMarked(h: Heap, h': Heap, o: Ref, keep: set<Ref>)
    requires o in h && h[o].body.Upval? && Marked(h, h', keep)
    requires forall x :: x in ValueRefs(UpvalValue(h, h[o].body.loc)) ==> x in h' && !IsWhite(h', x)
    ensures o in h' && h'[o].body == h[o].body && KidsMarked(h', o)
    ensures !IsWhite(h, o) ==> h'[o] == h[o]
  {
    SameKids(h, h');
  }

  lemma ShadeString(h: Heap, gray: seq<Ref>, grayagain: seq<Ref>, busy: set<Ref>, o: Ref, keep: set<Ref>)
    requires Tricolour(h, gray, grayagain, busy) && o in h && IsWhite(h, o) && h[o].body.StringBody? && o in keep
    ensures Tricolour(Paint(h, o, Gray), gray, grayagain, busy) && Marked(h, Paint(h, o, Gray), keep)
  {
    SameKids(h, Paint(h, o, Gray));
  }

  lemma ShadeQueued(h: Heap, gray: seq<Ref>, grayagain: seq<Ref>, busy: set<Ref>, o: Ref, keep: set<Ref>)
    requires Tricolour(h, gray, grayagain, busy) && o in h && IsWhite(h, o) && Queued(h[o].body) && o in keep
    ensures Tricolour(Paint(h, o, Gray), [o] + gray, grayagain, busy) && Marked(h, Paint(h, o, Gray), keep)
  {
    SameKids(h, Paint(h, o, Gray));
    assert [o] + gray + grayagain == [o] + (gray + grayagain);
    forall x | x in gray + grayagain ensures x in gray || x in grayagain {}
  }

  /** o is being marked: nothing is claimed of it yet. */
  lemma ShadeBusy(h: Heap, gray: seq<Ref>, grayagain: seq<Ref>, busy: set<Ref>, o: Ref, c: Color)
    requires Tricolour(h, gray, grayagain, busy) && o in h && IsWhite(h, o)
    requires c.Gray? || (c.Black? && h[o].body.Holder?)
    ensures Tricolour(Paint(h, o, c), gray, grayagain, busy + {o})
  {
    SameKids(h, Paint(h, o, c));
  }

  /** o, painted c1 before its references were marked, ends up with colour c2. */
  lemma ShadeDone(h: Heap, h1: Heap, h2: Heap, gray: seq<Ref>, grayagain: seq<Ref>, busy: set<Ref>, o: Ref,
                  c1: Color, c2: Color, keep: set<Ref>)
    requires o in h && IsWhite(h, o) && o in keep && h1 == Paint(h, o, c1) && !c1.White? && Marked(h1, h2, keep)
    requires Tricolour(h2, gray, grayagain, busy + {o}) && KidsMarked(h2, o)
    requires h[o].body.Upval? || (h[o].body.Holder? && h[o].body.tag == TUserdata)
    requires c2 == if IsOpen(h, o) then Gray else Black
    ensures Tricolour(Paint(h2, o, c2), gray, grayagain, busy) && Marked(h, Paint(h2, o, c2), keep)
  {
    hide Tricolour, KidsMarked;
    assert h2[o].body == h[o].body && !IsWhite(h2, o);
    ShadeDoneMarked(h, h1, h2, o, c1, c2, keep);
    ShadeDoneColour(h2, gray, grayagain, busy, o, c2);
  }

  lemma ShadeDoneMarked(h: Heap, h1: Heap, h2: Heap, o: Ref, c1: Color, c2: Color, keep: set<Ref>)
    requires o in h && IsWhite(h, o) && o in keep && h1 == Paint(h, o, c1) && !c1.White? && Marked(h1, h2, keep)
    requires KidsMarked(h2, o) && !c2.White? && !Queued(h[o].body)
    ensures Marked(h, Paint(h2, o, c2), keep)
  {
    var h3 := Paint(h2, o, c2);
    ShadeDoneBodies(h, h1, h2, o, c1, c2, keep);
    ShadeDoneOpen(h, h1, h2, o, c1, c2, keep);
    hide SameBodies, Kids, KidsMarked, IsOpen;
    forall r | r in h && r != o ensures h1[r] == h[r] && h3[r] == h2[r] {}
  }

  lemma ShadeDoneBodies(h: Heap, h1: Heap, h2: Heap, o: Ref, c1: Color, c2: Color, keep: set<Ref>)
    requires o in h && h1 == Paint(h, o, c1) && Marked(h1, h2, keep)
    ensures o in h2 && SameBodies(h, h2) && SameBodies(h, Paint(h2, o, c2))
  {
    hide Kids, KidsMarked, IsOpen;
  }

  lemma ShadeDoneOpen(h: Heap, h1: Heap, h2: Heap, o: Ref, c1: Color, c2: Color, keep: set<Ref>)
    requires o in h && h1 == Paint(h, o, c1) && !c1.White? && Marked(h1, h2, keep)
    requires KidsMarked(h2, o) && !c2.White?
    ensures o in h2 && SameBodies(h, h2)
    ensures forall r :: r in h && IsWhite(h, r) && !IsWhite(Paint(h2, o, c2), r) && IsOpen(h, r) ==> KidsMarked(Paint(h2, o, c2), r)
  {
    hide Kids, KidsMarked;
    ShadeDoneBodies(h, h1, h2, o, c1, c2, keep);
    var h3 := Paint(h2, o, c2);
    SameKids(h2, h3);
    forall r | r in h2 && KidsMarked(h2, r) ensures KidsMarked(h3, r) { KidsStay(h2, h3, r); }
    forall r | r in h && IsWhite(h, r) && !IsWhite(h3, r) && IsOpen(h, r) ensures KidsMarked(h3, r) {
      if r != o { assert h1[r] == h[r] && IsOpen(h1, r); }
    }
  }

  lemma KidsStay(h: Heap, h': Heap, r: Ref)
    requires r in h && KidsMarked(h, r) && r in h' && Kids(h', r) == Kids(h, r)
    requires forall x :: x in h && !IsWhite(h, x) ==> x in h' && !IsWhite(h', x)
    ensures KidsMarked(h', r)
  {
  }

  lemma ShadeDoneColour(h: Heap, gray: seq<Ref>, grayagain: seq<Ref>, busy: set<Ref>, o: Ref, c: Color)
    requires o in h && !IsWhite(h, o) && Tricolour(h, gray, grayagain, busy + {o}) && KidsMarked(h, o)
    requires h[o].body.Upval? || (h[o].body.Holder? && h[o].body.tag == TUserdata)
    requires c == if IsOpen(h, o) then Gray else Black
    ensures Tricolour(Paint(h, o, c), gray, grayagain, busy)
  {
    SameKids(h, Paint(h, o, c));
    assert o !in gray && o !in grayagain;
  }

  /** White objects only get fewer, and the gray list grows only when they do. */
  ghost predicate Progress(h: Heap, g: seq<Ref>, h': Heap, g': seq<Ref>) {
    WhiteSet(h') <= WhiteSet(h) && (g' == g || WhiteSet(h') < WhiteSet(h))
  }

  /** What a longer piece of the mark phase does: objects get darker, those of keep only. */
  ghost predicate Darker(h: Heap, h': Heap, keep: set<Ref>) {
    && SameBodies(h, h')
    && (forall r :: r in h && !IsWhite(h, r) ==> !IsWhite(h', r))
    && (forall r :: r in h && IsWhite(h, r) && !IsWhite(h', r) ==> r in keep)
    && (forall r :: r in h && IsWhite(h, r) && IsWhite(h', r) ==> h'[r] == h[r])
    && (forall r :: r in h && IsWhite(h, r) && !IsWhite(h', r) && IsOpen(h, r) ==> KidsMarked(h', r))
  }

  lemma MarkedDarker(h: Heap, h': Heap, keep: set<Ref>)
    requires Marked(h, h', keep)
    ensures Darker(h, h', keep)
  {
  }

  ghost predicate Regrayed(h: Heap, o: Ref, g: seq<Ref>, g': seq<Ref>) {
    g' == [o] + g && o in h && h[o].body.Thread? && KidsMarked(h, o)
  }

  lemma PaintGray(h: Heap, o: Ref)
    requires o in h && h[o].color.Gray?
    ensures WhiteSet(Paint(h, o, Black)) == WhiteSet(h)
  {
    forall r ensures r in WhiteSet(Paint(h, o, Black)) <==> r in WhiteSet(h) {}
  }

  lemma MarkedSelfBody(h: Heap, h': Heap, o: Ref, keep: set<Ref>)
    requires o in h && !IsWhite(h, o) && Marked(h, h', keep)
    ensures o in h' && h'[o] == h[o]
  {
  }

  lemma KidsStayMarked(h: Heap, h': Heap, keep: set<Ref>)
    requires Darker(h, h', keep)
    ensures forall r :: r in h && KidsMarked(h, r) ==> KidsMarked(h', r)
  {
    SameKids(h, h');
  }

  lemma DarkerTrans(a: Heap, b: Heap, c: Heap, keep: set<Ref>)
    requires Darker(a, b, keep) && Darker(b, c, keep)
    ensures Darker(a, c, keep)
  {
    SameKids(a, b);
    KidsStayMarked(b, c, keep);
  }

  /** Nothing outside keep has been marked. */
  ghost predicate MarkedWithin(h: Heap, keep: set<Ref>) { forall r :: r in h && !IsWhite(h, r) ==> r in keep }

  lemma MarkedStays(h: Heap, h': Heap, keep: set<Ref>)
    requires Marked(h, h', keep)
    ensures forall r :: r in h && !IsWhite(h, r) ==> r in h' && !IsWhite(h', r)
  {
  }

  lemma MarkedSelf(h: Heap, keep: set<Ref>)
    ensures Marked(h, h, keep)
  {
  }
}
