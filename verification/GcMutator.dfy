/** What the mutator's changes to the heap do to the invariant. */
module GcMutator {
  import opened GcHeap
  import opened GcColours
  import opened GcLists
  import opened GcSweeping

  /** What the mutator sees of a heap. */
  function Graph(h: Heap): map<Ref, Body> { map r | r in h :: h[r].body }

  lemma SameGraph(h: Heap, h': Heap)
    requires SameBodies(h, h')
    ensures Graph(h') == Graph(h)
  {
  }

  function Put(h: Heap, o: Ref, b: Body): Heap
    requires o in h
  {
    h[o := h[o].(body := b)]
  }

  /** A change of references that adds none but live ones. */
  ghost predicate Adds(h: Heap, h': Heap, cw: bool, vs: set<Ref>) {
    h'.Keys == h.Keys && vs <= AliveSet(h, cw) && forall r :: r in h ==> Kids(h', r) <= Kids(h, r) + vs
  }

  lemma StoreSafe(h: Heap, o: Ref, b: Body, cw: bool, roots: set<Ref>, vs: set<Ref>)
    requires o in h && Safe(h, cw, roots) && Adds(h, Put(h, o, b), cw, vs)
    ensures Safe(Put(h, o, b), cw, roots)
  {
    var h' := Put(h, o, b);
    hide Kids;
    assert AliveSet(h', cw) == AliveSet(h, cw);
  }

  lemma AddsHolder(h: Heap, o: Ref, refs: seq<Ref>, cw: bool, vs: set<Ref>)
    requires o in h && h[o].body.Holder? && vs <= AliveSet(h, cw)
    requires forall x :: x in refs ==> x in h[o].body.refs || x in vs
    ensures Adds(h, Put(h, o, h[o].body.(refs := refs)), cw, vs)
    ensures Alike(h[o].body, h[o].body.(refs := refs))
  {
    var h' := Put(h, o, h[o].body.(refs := refs));
    forall loc ensures UpvalValue(h', loc) == UpvalValue(h, loc) {}
  }

  lemma AddsClosed(h: Heap, o: Ref, v: Value, cw: bool)
    requires o in h && h[o].body.Upval? && h[o].body.loc.Closed? && ValueRefs(v) <= AliveSet(h, cw)
    ensures Adds(h, Put(h, o, Upval(Closed(v))), cw, ValueRefs(v)) && Alike(h[o].body, Upval(Closed(v)))
  {
    var h' := Put(h, o, Upval(Closed(v)));
    forall loc ensures UpvalValue(h', loc) == UpvalValue(h, loc) {}
  }

  /** A stack with one slot written, or one more slot. */
  function Stacked(b: Body, slot: nat, v: Value): Body
    requires b.Thread? && slot <= |b.stack|
  {
    b.(stack := if slot < |b.stack| then b.stack[slot := v] else b.stack + [v])
  }

  lemma AddsStacked(h: Heap, th: Ref, slot: nat, v: Value, cw: bool)
    requires th in h && h[th].body.Thread? && slot <= |h[th].body.stack| && ValueRefs(v) <= AliveSet(h, cw)
    ensures Adds(h, Put(h, th, Stacked(h[th].body, slot, v)), cw, ValueRefs(v)) && Alike(h[th].body, Stacked(h[th].body, slot, v))
  {
    var b := h[th].body;
    var h' := Put(h, th, Stacked(b, slot, v));
    forall loc ensures ValueRefs(UpvalValue(h', loc)) <= ValueRefs(UpvalValue(h, loc)) + ValueRefs(v) {}
    forall w | w in h'[th].body.stack ensures w in b.stack || w == v {
      var i :| 0 <= i < |h'[th].body.stack| && h'[th].body.stack[i] == w;
    }
  }

  // ---------------------------------------------------------------- stores without a barrier

  /** A body is changed for one like it. */
  lemma StorePhase(h: Heap, o: Ref, b: Body, c: View)
    requires PhaseOk(h, c) && o in h && Alike(h[o].body, b) && TheThreads(h, c.mainthread, c.running)
    requires c.phase == GCSpropagate ==> !h[o].color.Black?
    ensures PhaseOk(Put(h, o, b), c)
  {
    var h' := Put(h, o, b);
    match c.phase
    case GCSpropagate => StoreTricolour(h, o, b, c.gray, c.grayagain);
    case GCSsweep =>
      forall i | 0 <= i < c.sweepgc && i < |c.rootgc| ensures Done(h', c.cw, c.rootgc[i]) { assert Done(h, c.cw, c.rootgc[i]); }
    case _ =>
  }

  lemma StoreTricolour(h: Heap, o: Ref, b: Body, gray: seq<Ref>, grayagain: seq<Ref>)
    requires Tricolour(h, gray, grayagain, {}) && o in h && Alike(h[o].body, b) && !h[o].color.Black?
    ensures Tricolour(Put(h, o, b), gray, grayagain, {})
  {
    var h' := Put(h, o, b);
    forall r | r in h && h'[r].color.Black? ensures KidsMarked(h', r) {
      assert KidsMarked(h, r) && !IsOpen(h, r) && r != o;
    }
  }

  lemma StoreValid(h: Heap, o: Ref, b: Body, c: View, vs: set<Ref>)
    requires Invariant(h, c) && o in h && Alike(h[o].body, b) && Adds(h, Put(h, o, b), c.cw, vs)
    requires c.phase == GCSpropagate ==> !h[o].color.Black?
    ensures Invariant(Put(h, o, b), c) && Graph(Put(h, o, b)) == Graph(h)[o := b]
  {
    hide Safe, PhaseOk, Structured, Adds, RootsOf;
    StoreSafe(h, o, b, c.cw, RootsOf(c), vs);
    StorePhase(h, o, b, c);
    StructureAlike(h, o, h[o].(body := b), c.rootgc, c.strt, c.uvhead);
  }

  /** Threads and open upvalues are never black, and nothing is when no collection is under way. */
  lemma NeverBlackIn(h: Heap, c: View, o: Ref)
    requires Invariant(h, c) && o in h && c.phase == GCSpropagate && (h[o].body.Thread? || IsOpen(h, o))
    ensures !h[o].color.Black?
  {
  }

  // ---------------------------------------------------------------- barriers

  /** A black object is written: it counts as being traversed until its new reference is marked. */
  lemma StoreBusy(h: Heap, o: Ref, b: Body, gray: seq<Ref>, grayagain: seq<Ref>)
    requires Tricolour(h, gray, grayagain, {}) && o in h && Alike(h[o].body, b) && h[o].color.Black?
    ensures Tricolour(Put(h, o, b), gray, grayagain, {o})
  {
    var h' := Put(h, o, b);
    forall r | r in h && h'[r].color.Black? && r != o ensures KidsMarked(h', r) {
      assert KidsMarked(h, r) && !IsOpen(h, r);
    }
  }

  lemma StoreClosed(h: Heap, o: Ref, b: Body, cw: bool, roots: set<Ref>, vs: set<Ref>)
    requires NoneDead(h, cw) && Safe(h, cw, roots) && o in h && Adds(h, Put(h, o, b), cw, vs)
    ensures NoneDead(Put(h, o, b), cw) && Safe(Put(h, o, b), cw, roots) && ClosedIn(Put(h, o, b), h.Keys)
  {
    hide Adds, Kids;
    StoreSafe(h, o, b, cw, roots, vs);
    assert AliveSet(Put(h, o, b), cw) == h.Keys;
  }

  lemma BarrierMarks(h: Heap, o: Ref, b: Body, h2: Heap, cw: bool, vs: set<Ref>)
    requires o in h && !IsWhite(h, o) && KidsMarked(h, o)
    requires Adds(h, Put(h, o, b), cw, vs) && Marked(Put(h, o, b), h2, h.Keys) && RootsMarked(h2, vs)
    ensures o in h2 && h2[o].color == h[o].color && KidsMarked(h2, o)
  {
    var h1 := Put(h, o, b);
    SameKids(h1, h2);
    forall x | x in Kids(h2, o) ensures x in h2 && !IsWhite(h2, x) {
      assert x in Kids(h1, o);
      assert x in Kids(h, o) || x in vs;
    }
  }

  lemma BarrierDone(h: Heap, gray: seq<Ref>, grayagain: seq<Ref>, o: Ref)
    requires Tricolour(h, gray, grayagain, {o}) && o in h && h[o].color.Black? && KidsMarked(h, o)
    ensures Tricolour(h, gray, grayagain, {})
  {
  }

  lemma BlackDone(h: Heap, gray: seq<Ref>, grayagain: seq<Ref>, o: Ref)
    requires Tricolour(h, gray, grayagain, {}) && o in h && h[o].color.Black?
    ensures KidsMarked(h, o)
  {
  }

  lemma PutStays(h: Heap, o: Ref, b: Body, mainthread: Ref, registry: Value)
    requires o in h && Anchored(h, mainthread, registry)
    ensures Anchored(Put(h, o, b), mainthread, registry)
  {
  }

  lemma PutGraph(h: Heap, o: Ref, b: Body)
    requires o in h
    ensures Graph(Put(h, o, b)) == Graph(h)[o := b]
  {
  }

  lemma PutThreads(h: Heap, o: Ref, b: Body, mainthread: Ref, running: Ref)
    requires o in h && Alike(h[o].body, b) && TheThreads(h, mainthread, running)
    ensures TheThreads(Put(h, o, b), mainthread, running)
    ensures OnlyFixed(h, mainthread) ==> OnlyFixed(Put(h, o, b), mainthread)
  {
  }

  /** luaC_barrierf while marking: o was written, then its new references were marked. */
  lemma AfterMark(h: Heap, o: Ref, b: Body, h2: Heap, c: View, vs: set<Ref>, gray: seq<Ref>)
    requires Invariant(h, c) && c.phase == GCSpropagate && o in h && Alike(h[o].body, b) && h[o].color.Black?
    requires Adds(h, Put(h, o, b), c.cw, vs) && Marked(Put(h, o, b), h2, h.Keys) && RootsMarked(h2, vs)
    requires Tricolour(h2, gray, c.grayagain, {o})
    ensures Invariant(h2, c.(gray := gray)) && Graph(h2) == Graph(h)[o := b]
  {
    hide Structured, Adds, RootSet, Tricolour, Darker, Marked, Safe, NoneDead, Anchored, KidsMarked, Kids, Alike, TheThreads, OnlyFixed, Graph,
         SameBodies;
    var h1 := Put(h, o, b);
    StoreClosed(h, o, b, c.cw, RootsOf(c), vs);
    MarkedDarker(h1, h2, h.Keys);
    BlackDone(h, c.gray, c.grayagain, o);
    BarrierMarks(h, o, b, h2, c.cw, vs);
    BarrierDone(h2, gray, c.grayagain, o);
    StructureAlike(h, o, h[o].(body := b), c.rootgc, c.strt, c.uvhead);
    StructureDarker(h1, h2, h.Keys, c.rootgc, c.strt, c.uvhead);
    PutThreads(h, o, b, c.mainthread, c.running);
    PutStays(h, o, b, c.mainthread, c.registry);
    PutGraph(h, o, b);
    AfterDarker(h1, h2, h.Keys, c.(gray := gray));
  }

  lemma AfterDarker(h: Heap, h': Heap, keep: set<Ref>, c: View)
    requires Darker(h, h', keep) && Safe(h, c.cw, RootsOf(c)) && NoneDead(h, c.cw) && OnlyFixed(h, c.mainthread)
    requires TheThreads(h, c.mainthread, c.running) && Anchored(h, c.mainthread, c.registry)
    ensures Safe(h', c.cw, RootsOf(c)) && NoneDead(h', c.cw) && OnlyFixed(h', c.mainthread)
    ensures TheThreads(h', c.mainthread, c.running) && Anchored(h', c.mainthread, c.registry) && Graph(h') == Graph(h)
  {
    DarkerBodiesSame(h, h', keep);
    hide Safe, NoneDead, RootsOf, Darker, SameBodies, Kept;
    DarkerKeeps(h, h', keep, c.cw, RootsOf(c), c.mainthread);
    DarkerBodies(h, h', keep, c.mainthread);
    DarkerBodies(h, h', keep, c.running);
    DarkerAnchored(h, h', keep, c.cw, c.mainthread, c.registry);
    SameGraph(h, h');
  }

  /** In a sweep phase a live object changes colour, but not away from the current white. */
  lemma Recolour(h: Heap, c: View, o: Ref, col: Color)
    requires Invariant(h, c) && (c.phase == GCSsweepstring || c.phase == GCSsweep) && o in h && !IsDead(h, c.cw, o)
    requires col == White(c.cw) || (col.Gray? && !IsWhite(h, o))
    ensures Invariant(Paint(h, o, col), c) && Graph(Paint(h, o, col)) == Graph(h)
  {
    hide Structured, StringsSwept, RootsSwept, Safe, RootsOf, SameBodies, Graph;
    var h' := Paint(h, o, col);
    RecolourSafe(h, c.cw, RootsOf(c), o, col);
    RecolourSwept(h, c, o, col);
    StructureColours(h, h', c.rootgc, c.strt, c.uvhead, {});
    SameGraph(h, h');
  }

  lemma RecolourSafe(h: Heap, cw: bool, roots: set<Ref>, o: Ref, col: Color)
    requires o in h && !IsDead(h, cw, o) && col != White(!cw) && Safe(h, cw, roots)
    ensures SameBodies(h, Paint(h, o, col)) && Safe(Paint(h, o, col), cw, roots)
  {
    var h' := Paint(h, o, col);
    SameKids(h, h');
    assert AliveSet(h', cw) == AliveSet(h, cw);
  }

  lemma RecolourSwept(h: Heap, c: View, o: Ref, col: Color)
    requires o in h && (h[o].color == White(c.cw) ==> col == White(c.cw))
    ensures forall n :: StringsSwept(h, c.cw, c.strt, n) ==> StringsSwept(Paint(h, o, col), c.cw, c.strt, n)
    ensures forall n :: RootsSwept(h, c.cw, c.rootgc, n) ==> RootsSwept(Paint(h, o, col), c.cw, c.rootgc, n)
    ensures NoBlackOpen(h) && !col.Black? ==> NoBlackOpen(Paint(h, o, col))
  {
    var h' := Paint(h, o, col);
    forall n: nat | RootsSwept(h, c.cw, c.rootgc, n) ensures RootsSwept(h', c.cw, c.rootgc, n) {
      forall i | 0 <= i < n && i < |c.rootgc| ensures Done(h', c.cw, c.rootgc[i]) { assert Done(h, c.cw, c.rootgc[i]); }
    }
  }

  /** luaC_barrierf while sweeping: o was written, and is made white to avoid other barriers. */
  lemma AfterWhiten(h: Heap, o: Ref, b: Body, c: View, vs: set<Ref>, col: Color)
    requires Invariant(h, c) && (c.phase == GCSsweepstring || c.phase == GCSsweep)
    requires o in h && Alike(h[o].body, b) && h[o].color.Black? && Adds(h, Put(h, o, b), c.cw, vs)
    requires col == White(c.cw) || col == Gray
    ensures Invariant(Paint(Put(h, o, b), o, col), c) && Graph(Paint(Put(h, o, b), o, col)) == Graph(h)[o := b]
  {
    hide Invariant, Graph, Adds, Alike;
    StoreValid(h, o, b, c, vs);
    Recolour(Put(h, o, b), c, o, col);
  }

  /** luaC_barrierback while marking: the table that was written is gray again. */
  lemma AfterBack(h: Heap, o: Ref, b: Body, c: View, vs: set<Ref>)
    requires Invariant(h, c) && c.phase == GCSpropagate && o in h && Alike(h[o].body, b) && h[o].color.Black? && Queued(b)
    requires Adds(h, Put(h, o, b), c.cw, vs)
    ensures Invariant(Paint(Put(h, o, b), o, Gray), c.(grayagain := [o] + c.grayagain))
    ensures Graph(Paint(Put(h, o, b), o, Gray)) == Graph(h)[o := b]
  {
    hide Structured, Adds, RootSet, Tricolour, Safe, NoneDead, Anchored, Alike, TheThreads, OnlyFixed, Graph, SameBodies, Darker;
    var h1 := Put(h, o, b);
    var h2 := Paint(h1, o, Gray);
    StoreBusy(h, o, b, c.gray, c.grayagain);
    StoreClosed(h, o, b, c.cw, RootsOf(c), vs);
    StructureAlike(h, o, h[o].(body := b), c.rootgc, c.strt, c.uvhead);
    PutThreads(h, o, b, c.mainthread, c.running);
    PutStays(h, o, b, c.mainthread, c.registry);
    PutGraph(h, o, b);
    BackTricolour(h1, c.gray, c.grayagain, o);
    BackDarker(h1, o, h.Keys);
    StructureDarker(h1, h2, h.Keys, c.rootgc, c.strt, c.uvhead);
    AfterDarker(h1, h2, h.Keys, c.(grayagain := [o] + c.grayagain));
  }

  lemma BackDarker(h: Heap, o: Ref, keep: set<Ref>)
    requires o in h && h[o].color.Black?
    ensures Darker(h, Paint(h, o, Gray), keep)
  {
  }

  lemma BackTricolour(h: Heap, gray: seq<Ref>, grayagain: seq<Ref>, o: Ref)
    requires Tricolour(h, gray, grayagain, {o}) && o in h && h[o].color.Black? && Queued(h[o].body)
    ensures Tricolour(Paint(h, o, Gray), gray, [o] + grayagain, {})
  {
    var h' := Paint(h, o, Gray);
    SameKids(h, h');
    assert o !in gray && o !in grayagain;
    var a, b := gray + grayagain, gray + ([o] + grayagain);
    var n := |gray|;
    assert forall x :: x in a ==> x in gray || x in grayagain;
    InsertMembers(a, n, o);
    assert Insert(a, n, o) == b;
  }

  // ---------------------------------------------------------------- new objects

  function ShiftedAt(sweepgc: nat, i: nat): nat { if sweepgc <= i then sweepgc else sweepgc + 1 }

  /** The references in a body that is not an open upvalue's. */
  function BodyRefs(b: Body): set<Ref> {
    match b
    case StringBody(_) => {}
    case Holder(_, refs) => set x | x in refs
    case Upval(loc) => if loc.Closed? then ValueRefs(loc.v) else {}
    case Thread(g, stack, _) => ValueRefs(g) + (set v | v in stack && v.Object? :: v.r)
  }

  predicate NewBody(b: Body) { b.StringBody? || b.Holder? || (b.Thread? && b.openupval == []) || (b.Upval? && b.loc.Closed?) }

  lemma NewKids(h: Heap, r: Ref, o: Obj)
    requires OpenLists(h) && r !in h && NewBody(o.body)
    ensures Kids(h[r := o], r) == BodyRefs(o.body) && forall x :: x in h ==> Kids(h[r := o], x) == Kids(h, x)
  {
    forall x | x in h ensures Kids(h[r := o], x) == Kids(h, x) { if IsOpen(h, x) { assert OpenListed(h, x); } }
  }

  lemma NewSafe(h: Heap, r: Ref, b: Body, cw: bool, roots: set<Ref>)
    requires OpenLists(h) && r !in h && NewBody(b) && Safe(h, cw, roots) && BodyRefs(b) <= AliveSet(h, cw)
    ensures Safe(h[r := Obj(White(cw), false, b)], cw, roots)
  {
    var h' := h[r := Obj(White(cw), false, b)];
    NewKids(h, r, Obj(White(cw), false, b));
    hide Kids, BodyRefs;
    assert AliveSet(h', cw) == AliveSet(h, cw) + {r};
  }

  lemma NewTricolour(h: Heap, r: Ref, b: Body, cw: bool, gray: seq<Ref>, grayagain: seq<Ref>)
    requires OpenLists(h) && r !in h && NewBody(b) && Tricolour(h, gray, grayagain, {})
    ensures Tricolour(h[r := Obj(White(cw), false, b)], gray, grayagain, {})
  {
    var o := Obj(White(cw), false, b);
    NewKids(h, r, o);
    hide Kids;
    forall x | x in h && h[x].color.Black? ensures KidsMarked(h[r := o], x) { assert KidsMarked(h, x); }
  }

  lemma NewDone(h: Heap, r: Ref, o: Obj, cw: bool, x: Ref)
    requires r !in h && (Done(h, cw, x) || (x == r && o.color == White(cw) && NewBody(o.body)))
    ensures Done(h[r := o], cw, x)
  {
  }

  lemma NewRootsSwept(h: Heap, r: Ref, b: Body, cw: bool, rootgc: seq<Ref>, n: nat, i: nat)
    requires r !in h && NewBody(b) && i <= |rootgc| && n <= |rootgc| && RootsSwept(h, cw, rootgc, n)
    ensures RootsSwept(h[r := Obj(White(cw), false, b)], cw, Insert(rootgc, i, r), ShiftedAt(n, i))
  {
    var o := Obj(White(cw), false, b);
    var t := Insert(rootgc, i, r);
    forall k | 0 <= k < ShiftedAt(n, i) && k < |t| ensures Done(h[r := o], cw, t[k]) {
      assert t[k] == (if k < i then rootgc[k] else if k == i then r else rootgc[k - 1]);
      if k < i { assert Done(h, cw, rootgc[k]); } else if k > i { assert Done(h, cw, rootgc[k - 1]); }
      NewDone(h, r, o, cw, t[k]);
    }
  }

  /** luaC_link: a new white object joins the root list at position i. */
  lemma NewValid(h: Heap, c: View, r: Ref, b: Body, i: nat)
    requires Invariant(h, c) && r !in h && NewBody(b) && !b.StringBody? && BodyRefs(b) <= AliveSet(h, c.cw) && i <= |c.rootgc|
    requires c.phase == GCSsweepstring ==> c.sweepgc == 0
    ensures Invariant(h[r := Obj(White(c.cw), false, b)], c.(rootgc := Insert(c.rootgc, i, r), sweepgc := ShiftedAt(c.sweepgc, i)))
    ensures Graph(h[r := Obj(White(c.cw), false, b)]) == Graph(h)[r := b]
  {
    hide Safe, Tricolour, RootSet, RootsSwept, Insert, BodyRefs, AliveSet, StringLists, RootList, OpenLists, UvRing;
    var o := Obj(White(c.cw), false, b);
    StructureNew(h, c.rootgc, c.strt, c.uvhead, r, o, i);
    NewSafe(h, r, b, c.cw, RootsOf(c));
    if c.phase == GCSpropagate { NewTricolour(h, r, b, c.cw, c.gray, c.grayagain); }
    if c.phase == GCSsweep {
      NewRootsSwept(h, r, b, c.cw, c.rootgc, c.sweepgc, i);
      InsertLength(c.rootgc, i, r);
    }
  }

  lemma InsertLength(s: seq<Ref>, i: nat, x: Ref)
    requires i <= |s|
    ensures |Insert(s, i, x)| == |s| + 1
  {
  }

  /** newlstr's part: a new white string in its bucket. */
  lemma NewStringValid(h: Heap, c: View, r: Ref, b: nat)
    requires Invariant(h, c) && r !in h && b < |c.strt|
    ensures Invariant(h[r := Obj(White(c.cw), false, StringBody(b))], c.(strt := c.strt[b := [r] + c.strt[b]]))
    ensures Graph(h[r := Obj(White(c.cw), false, StringBody(b))]) == Graph(h)[r := StringBody(b)]
  {
    hide Safe, Tricolour, RootSet, StringLists, RootList, OpenLists, UvRing;
    var o := Obj(White(c.cw), false, StringBody(b));
    StructureNewString(h, c.rootgc, c.strt, c.uvhead, r, o, b);
    NewSafe(h, r, StringBody(b), c.cw, RootsOf(c));
    if c.phase == GCSpropagate { NewTricolour(h, r, StringBody(b), c.cw, c.gray, c.grayagain); }
    if c.phase == GCSsweep {
      forall i | 0 <= i < c.sweepgc && i < |c.rootgc| ensures Done(h[r := o], c.cw, c.rootgc[i]) {
        assert Done(h, c.cw, c.rootgc[i]);
      }
    }
  }

  // ---------------------------------------------------------------- dead objects that come back

  /** changewhite on a dead object whose references are live. */
  lemma Resurrect(h: Heap, c: View, r: Ref)
    requires Invariant(h, c) && r in h && IsDead(h, c.cw, r) && Kids(h, r) <= AliveSet(h, c.cw)
    ensures Invariant(Paint(h, r, White(c.cw)), c) && Graph(Paint(h, r, White(c.cw))) == Graph(h)
  {
    hide Safe, Structured, RootSet, Tricolour, Graph;
    var h' := Paint(h, r, White(c.cw));
    assert c.phase == GCSsweepstring || c.phase == GCSsweep;
    assert SameBodies(h, h');
    StructureColours(h, h', c.rootgc, c.strt, c.uvhead, {});
    SameGraph(h, h');
    ResurrectSafe(h, c.cw, RootsOf(c), r);
    RecolourSwept(h, c, r, White(c.cw));
  }

  lemma ResurrectSafe(h: Heap, cw: bool, roots: set<Ref>, r: Ref)
    requires r in h && Safe(h, cw, roots) && Kids(h, r) <= AliveSet(h, cw)
    ensures Safe(Paint(h, r, White(cw)), cw, roots)
  {
    var h' := Paint(h, r, White(cw));
    assert SameBodies(h, h');
    SameKids(h, h');
    hide Kids;
    assert AliveSet(h', cw) == AliveSet(h, cw) + {r};
  }

  // ---------------------------------------------------------------- open upvalues come and go

  lemma AddOpenKids(h: Heap, th: Ref, k: nat, u: Ref, slot: nat, c: Color)
    requires OpenLists(h) && th in h && h[th].body.Thread? && u !in h && k <= |h[th].body.openupval|
    ensures Kids(AddOpen(h, th, k, u, slot, c), u) == ValueRefs(SlotValue(h, th, slot))
    ensures forall x :: x in h ==> Kids(AddOpen(h, th, k, u, slot, c), x) == Kids(h, x)
  {
    hide Insert;
    var h' := AddOpen(h, th, k, u, slot, c);
    forall x | x in h ensures Kids(h', x) == Kids(h, x) { if IsOpen(h, x) { assert OpenListed(h, x); } }
  }

  lemma AddOpenSafe(h: Heap, th: Ref, k: nat, u: Ref, slot: nat, cw: bool, roots: set<Ref>)
    requires OpenLists(h) && th in h && h[th].body.Thread? && u !in h && k <= |h[th].body.openupval|
    requires Safe(h, cw, roots) && !IsDead(h, cw, th)
    ensures Safe(AddOpen(h, th, k, u, slot, White(cw)), cw, roots)
    ensures ValueRefs(SlotValue(h, th, slot)) <= AliveSet(h, cw)
  {
    hide Insert;
    var h' := AddOpen(h, th, k, u, slot, White(cw));
    AddOpenKids(h, th, k, u, slot, White(cw));
    assert ValueRefs(SlotValue(h, th, slot)) <= Kids(h, th);
    hide Kids;
    assert AliveSet(h', cw) == AliveSet(h, cw) + {u};
  }

  lemma AddOpenPhase(h: Heap, c: View, th: Ref, k: nat, u: Ref, slot: nat)
    requires OpenLists(h) && th in h && h[th].body.Thread? && u !in h && k <= |h[th].body.openupval| && PhaseOk(h, c)
    requires TheThreads(h, c.mainthread, c.running)
    ensures PhaseOk(AddOpen(h, th, k, u, slot, White(c.cw)), c)
  {
    hide Insert, Tricolour, RootsSwept, StringsSwept, OpenLists;
    match c.phase
    case GCSpropagate => AddOpenTricolour(h, c, th, k, u, slot);
    case GCSsweepstring => AddOpenSwept(h, c, th, k, u, slot);
    case GCSsweep => AddOpenSwept(h, c, th, k, u, slot);
    case _ =>
  }

  lemma AddOpenSwept(h: Heap, c: View, th: Ref, k: nat, u: Ref, slot: nat)
    requires th in h && h[th].body.Thread? && u !in h && k <= |h[th].body.openupval|
    ensures forall n :: StringsSwept(h, c.cw, c.strt, n) ==> StringsSwept(AddOpen(h, th, k, u, slot, White(c.cw)), c.cw, c.strt, n)
    ensures RootsSwept(h, c.cw, c.rootgc, c.sweepgc) ==> RootsSwept(AddOpen(h, th, k, u, slot, White(c.cw)), c.cw, c.rootgc, c.sweepgc)
  {
    hide Insert;
    var h' := AddOpen(h, th, k, u, slot, White(c.cw));
    if RootsSwept(h, c.cw, c.rootgc, c.sweepgc) {
      forall i | 0 <= i < c.sweepgc && i < |c.rootgc| ensures Done(h', c.cw, c.rootgc[i]) {
        assert Done(h, c.cw, c.rootgc[i]);
        InsertElements(h[th].body.openupval, k, u);
      }
    }
  }

  lemma InsertElements(s: seq<Ref>, i: nat, x: Ref)
    requires i <= |s|
    ensures forall y :: y in Insert(s, i, x) ==> y in s || y == x
  {
  }

  lemma AddOpenTricolour(h: Heap, c: View, th: Ref, k: nat, u: Ref, slot: nat)
    requires OpenLists(h) && th in h && h[th].body.Thread? && u !in h && k <= |h[th].body.openupval|
    requires Tricolour(h, c.gray, c.grayagain, {})
    ensures Tricolour(AddOpen(h, th, k, u, slot, White(c.cw)), c.gray, c.grayagain, {})
  {
    hide Insert, Kids, OpenLists;
    AddOpenKids(h, th, k, u, slot, White(c.cw));
    forall x | x in h && h[x].color.Black? ensures KidsMarked(AddOpen(h, th, k, u, slot, White(c.cw)), x) { assert KidsMarked(h, x); }
  }

  /** A new open upvalue of a live thread, still white. */
  lemma AddOpenValid(h: Heap, c: View, th: Ref, k: nat, u: Ref, slot: nat)
    requires Invariant(h, c) && th in h && h[th].body.Thread? && slot < |h[th].body.stack| && u !in h && !IsDead(h, c.cw, th)
    requires k <= |h[th].body.openupval|
    requires forall i :: 0 <= i < k ==> IsOpen(h, h[th].body.openupval[i]) && SlotOf(h, h[th].body.openupval[i]) > slot
    requires k < |h[th].body.openupval| ==> IsOpen(h, h[th].body.openupval[k]) && SlotOf(h, h[th].body.openupval[k]) < slot
    ensures Invariant(AddOpen(h, th, k, u, slot, White(c.cw)), c.(uvhead := [u] + c.uvhead))
  {
    hide Safe, PhaseOk, Structured, RootSet, Insert;
    assert OpenLists(h) by { StructuredOpen(h, c); }
    StructureAddOpen(h, c.rootgc, c.strt, c.uvhead, th, k, u, slot, White(c.cw));
    AddOpenSafe(h, th, k, u, slot, c.cw, RootsOf(c));
    AddOpenPhase(h, c, th, k, u, slot);
    PhaseRing(AddOpen(h, th, k, u, slot, White(c.cw)), c, [u] + c.uvhead);
  }

  lemma StructuredOpen(h: Heap, c: View)
    requires Structured(h, c.rootgc, c.strt, c.uvhead, {})
    ensures OpenLists(h)
  {
  }

  lemma PhaseRing(h: Heap, c: View, ring: seq<Ref>)
    requires PhaseOk(h, c)
    ensures PhaseOk(h, c.(uvhead := ring))
  {
  }

  /** The reached objects stay as they are while others, dead ones, go. */
  ghost predicate Pruned(h: Heap, h': Heap, cw: bool) {
    && h'.Keys <= h.Keys && (forall r :: r in h && r !in h' ==> IsDead(h, cw, r))
    && (forall r :: r in h' ==> SameObject(h, h', r))
  }

  lemma SweptPruned(h: Heap, h': Heap, cw: bool)
    requires Swept(h, h', cw)
    ensures Pruned(h, h', cw)
  {
    forall r | r in h' ensures SameObject(h, h', r) { assert SweptObject(h, h', cw, r); }
  }

  /** luaF_close frees a dead upvalue. */
  lemma FreeOpenValid(h: Heap, c: View, th: Ref, i: nat)
    requires Invariant(h, c) && th in h && h[th].body.Thread? && h[th].body.openupval != []
    requires i < |c.uvhead| && c.uvhead[i] == h[th].body.openupval[0] && IsOpen(h, c.uvhead[i]) && IsDead(h, c.cw, c.uvhead[i])
    requires !IsDead(h, c.cw, th)
    ensures Invariant(FreeOpen(h, th, 0), c.(uvhead := Drop(c.uvhead, i))) && Swept(h, FreeOpen(h, th, 0), c.cw)
  {
    hide Safe, Structured, RootSet, Drop, Swept, StringsSwept, RootsSwept;
    assert !h[c.uvhead[i]].fixed;
    StructuredOpen(h, c);
    StructureFreeOpen(h, c.rootgc, c.strt, c.uvhead, {}, th, 0, i);
    SweptFreeOpen(h, th, 0, c.cw);
    SweptInvariant(h, FreeOpen(h, th, 0), c, Drop(c.uvhead, i));
  }

  lemma SweptInvariant(h: Heap, h': Heap, c: View, ring: seq<Ref>)
    requires Invariant(h, c) && (c.phase == GCSsweepstring || c.phase == GCSsweep)
    requires Swept(h, h', c.cw) && Structured(h', c.rootgc, c.strt, ring, {})
    ensures Invariant(h', c.(uvhead := ring))
  {
    hide Safe, Structured, Swept, StringsSwept, RootsSwept, OnlyFixed;
    SweptSafe(h, h', c.cw, RootsOf(c), c.mainthread);
    SweptThread(h, h', c.cw, RootsOf(c), c.mainthread);
    SweptThread(h, h', c.cw, RootsOf(c), c.running);
    StructuredStrings(h', c.rootgc, c.strt, ring);
    NoBlackSwept(h, h', c.cw);
    if c.phase == GCSsweepstring {
      StringsSweptStays(h, h', c.cw, c.strt, c.strt, c.sweepstrgc);
    } else {
      StringsSweptStays(h, h', c.cw, c.strt, c.strt, |c.strt|);
      RootsStaySwept(h, h', c.cw, c.rootgc, c.strt, ring, c.sweepgc, {});
    }
  }

  lemma StructuredStrings(h: Heap, rootgc: seq<Ref>, strt: seq<seq<Ref>>, ring: seq<Ref>)
    requires Structured(h, rootgc, strt, ring, {})
    ensures StringLists(h, strt)
  {
  }

  // ---------------------------------------------------------------- changes of the roots

  lemma RootsChange(h: Heap, c: View, running: Ref, mt: seq<Value>)
    requires Invariant(h, c) && running in h && h[running].body.Thread?
    requires RootsOf(c.(running := running, mt := mt)) <= AliveSet(h, c.cw)
    ensures Invariant(h, c.(running := running, mt := mt))
  {
    hide Structured, StringsSwept, RootsSwept, Tricolour, RootSet, AliveSet;
  }

  function Popped(h: Heap, th: Ref, n: nat): Heap
    requires th in h && h[th].body.Thread? && n <= |h[th].body.stack|
  {
    Put(h, th, h[th].body.(stack := h[th].body.stack[..n]))
  }

  /** A thread's stack gets shorter, where no open upvalue is. */
  lemma PopValid(h: Heap, c: View, th: Ref, n: nat)
    requires Invariant(h, c) && th in h && h[th].body.Thread? && n <= |h[th].body.stack|
    requires forall u :: u in h[th].body.openupval ==> IsOpen(h, u) && SlotOf(h, u) < n
    ensures Invariant(Popped(h, th, n), c) && Graph(Popped(h, th, n)) == Graph(h)[th := h[th].body.(stack := h[th].body.stack[..n])]
  {
    hide Structured, PhaseOk, Safe, RootsOf;
    StructuredOpen(h, c);
    PopStructure(h, c, th, n);
    PopSafe(h, th, n, c.cw, RootsOf(c));
    PopPhase(h, c, th, n);
  }

  lemma PopPhase(h: Heap, c: View, th: Ref, n: nat)
    requires OpenLists(h) && th in h && h[th].body.Thread? && n <= |h[th].body.stack| && PhaseOk(h, c)
    requires forall u :: u in h[th].body.openupval ==> IsOpen(h, u) && SlotOf(h, u) < n
    requires TheThreads(h, c.mainthread, c.running)
    ensures PhaseOk(Popped(h, th, n), c)
  {
    hide StringsSwept, RootsSwept, Tricolour, OpenLists, IsOpen, NoBlackOpen;
    PopStrings(h, th, n, c);
    match c.phase
    case GCSpropagate => PopTricolour(h, th, n, c.gray, c.grayagain);
    case GCSsweep => PopSwept(h, th, n, c);
    case _ =>
  }

  lemma PopKids(h: Heap, th: Ref, n: nat)
    requires OpenLists(h) && th in h && h[th].body.Thread? && n <= |h[th].body.stack|
    requires forall u :: u in h[th].body.openupval ==> IsOpen(h, u) && SlotOf(h, u) < n
    ensures forall x :: x in h && x != th ==> Kids(Popped(h, th, n), x) == Kids(h, x)
    ensures Kids(Popped(h, th, n), th) <= Kids(h, th)
  {
    var h' := Popped(h, th, n);
    forall x | x in h && x != th ensures Kids(h', x) == Kids(h, x) { if IsOpen(h, x) { assert OpenListed(h, x); } }
  }

  lemma PopSafe(h: Heap, th: Ref, n: nat, cw: bool, roots: set<Ref>)
    requires OpenLists(h) && th in h && h[th].body.Thread? && n <= |h[th].body.stack|
    requires forall u :: u in h[th].body.openupval ==> IsOpen(h, u) && SlotOf(h, u) < n
    requires Safe(h, cw, roots)
    ensures Safe(Popped(h, th, n), cw, roots)
  {
    PopKids(h, th, n);
    StoreSafe(h, th, h[th].body.(stack := h[th].body.stack[..n]), cw, roots, {});
  }

  lemma PopTricolour(h: Heap, th: Ref, n: nat, gray: seq<Ref>, grayagain: seq<Ref>)
    requires OpenLists(h) && th in h && h[th].body.Thread? && n <= |h[th].body.stack|
    requires forall u :: u in h[th].body.openupval ==> IsOpen(h, u) && SlotOf(h, u) < n
    requires Tricolour(h, gray, grayagain, {})
    ensures Tricolour(Popped(h, th, n), gray, grayagain, {})
  {
    var h' := Popped(h, th, n);
    PopKids(h, th, n);
    hide Kids;
    forall x | x in h && h[x].color.Black? ensures KidsMarked(h', x) { assert KidsMarked(h, x) && x != th; }
  }

  lemma PopSwept(h: Heap, th: Ref, n: nat, c: View)
    requires th in h && h[th].body.Thread? && n <= |h[th].body.stack| && RootsSwept(h, c.cw, c.rootgc, c.sweepgc)
    ensures RootsSwept(Popped(h, th, n), c.cw, c.rootgc, c.sweepgc)
  {
    forall i | 0 <= i < c.sweepgc && i < |c.rootgc|
      ensures Done(Popped(h, th, n), c.cw, c.rootgc[i]) {
      assert Done(h, c.cw, c.rootgc[i]);
    }
  }

  lemma PopStrings(h: Heap, th: Ref, n: nat, c: View)
    requires th in h && h[th].body.Thread? && n <= |h[th].body.stack|
    ensures forall k :: StringsSwept(h, c.cw, c.strt, k) ==> StringsSwept(Popped(h, th, n), c.cw, c.strt, k)
    ensures NoBlackOpen(h) ==> NoBlackOpen(Popped(h, th, n))
  {
  }

  lemma PopStructure(h: Heap, c: View, th: Ref, n: nat)
    requires Structured(h, c.rootgc, c.strt, c.uvhead, {}) && th in h && h[th].body.Thread? && n <= |h[th].body.stack|
    requires forall u :: u in h[th].body.openupval ==> IsOpen(h, u) && SlotOf(h, u) < n
    ensures Structured(Popped(h, th, n), c.rootgc, c.strt, c.uvhead, {})
  {
    var h' := Popped(h, th, n);
    forall r ensures (InRoots(h', r) <==> InRoots(h, r)) && (IsOpen(h', r) <==> IsOpen(h, r)) {}
    forall x | x in h' && h'[x].body.Thread? ensures OpenList(h', x) { assert OpenList(h, x); }
    forall u | IsOpen(h', u) ensures OpenListed(h', u) { assert IsOpen(h, u) && OpenListed(h, u); }
  }

  // ---------------------------------------------------------------- closing live upvalues

  /** What closing does in every phase. */
  lemma CloseStill(h: Heap, c: View, th: Ref, i: nat)
    requires Invariant(h, c) && th in h && h[th].body.Thread? && h[th].body.openupval != []
    requires i < |c.uvhead| && c.uvhead[i] == h[th].body.openupval[0]
    ensures IsOpen(h, c.uvhead[i]) && c.uvhead[i] != th
    ensures var h' := CloseTop(h, th); Swept(h, h', c.cw) && Safe(h', c.cw, RootsOf(c)) && OnlyFixed(h', c.mainthread)
    ensures TheThreads(CloseTop(h, th), c.mainthread, c.running)
    ensures Structured(CloseTop(h, th), [c.uvhead[i]] + c.rootgc, c.strt, Drop(c.uvhead, i), {})
  {
    hide Structured, Safe, PhaseOk, Drop, Swept, RootsSwept, OnlyFixed;
    StructuredOpen(h, c);
    SweptCloseTop(h, th, c.cw);
    OpenThere(h, c.rootgc, c.strt, c.uvhead, {}, th, 0);
    StructureCloseTop(h, c.rootgc, c.strt, c.uvhead, {}, th, i);
    SweptSafe(h, CloseTop(h, th), c.cw, RootsOf(c), c.mainthread);
    SweptThread(h, CloseTop(h, th), c.cw, RootsOf(c), c.mainthread);
    SweptThread(h, CloseTop(h, th), c.cw, RootsOf(c), c.running);
  }

  function AfterClose(c: View, u: Ref, ring: seq<Ref>): View {
    c.(rootgc := [u] + c.rootgc, sweepgc := ShiftedAt(c.sweepgc, 0), uvhead := ring)
  }

  /** A white upvalue has been closed. */
  lemma CloseWhite(h: Heap, c: View, th: Ref, i: nat)
    requires Invariant(h, c) && th in h && h[th].body.Thread? && h[th].body.openupval != []
    requires i < |c.uvhead| && c.uvhead[i] == h[th].body.openupval[0] && c.uvhead[i] in h && h[c.uvhead[i]].color == White(c.cw)
    ensures IsOpen(h, c.uvhead[i]) && Invariant(CloseTop(h, th), AfterClose(c, c.uvhead[i], Drop(c.uvhead, i)))
  {
    hide Structured, Safe, Drop, Swept, OnlyFixed, RootSet, PhaseOk, TheThreads;
    CloseStill(h, c, th, i);
    StructuredOpen(h, c);
    CloseWhitePhase(h, c, th, c.uvhead[i], Drop(c.uvhead, i));
  }

  lemma CloseWhitePhase(h: Heap, c: View, th: Ref, u: Ref, ring: seq<Ref>)
    requires PhaseOk(h, c) && OpenLists(h) && th in h && h[th].body.Thread? && h[th].body.openupval != []
    requires u == h[th].body.openupval[0] && IsOpen(h, u) && h[u].color == White(c.cw) && u != th
    requires Swept(h, CloseTop(h, th), c.cw) && Structured(CloseTop(h, th), [u] + c.rootgc, c.strt, ring, {})
    ensures PhaseOk(CloseTop(h, th), AfterClose(c, u, ring))
  {
    hide Structured, Swept, RootsSwept, StringsSwept, Tricolour, NoBlackOpen, OpenLists, Drop;
    match c.phase
    case GCSpropagate =>
      CloseTricolour(h, th, c.gray, c.grayagain);
      CloseNoneDead(h, th, c.cw);
      CloseAnchored(h, th, c.mainthread, c.registry);
    case GCSsweepstring =>
      CloseSwept(h, CloseTop(h, th), c, u, ring);
    case GCSsweep =>
      CloseSwept(h, CloseTop(h, th), c, u, ring);
    case _ =>
  }

  /** A gray upvalue has been closed, and made white because the mark phase is over. */
  lemma CloseGray(h: Heap, c: View, th: Ref, i: nat)
    requires Invariant(h, c) && th in h && h[th].body.Thread? && h[th].body.openupval != []
    requires i < |c.uvhead| && c.uvhead[i] == h[th].body.openupval[0] && c.uvhead[i] in h && h[c.uvhead[i]].color.Gray?
    requires c.phase != GCSpropagate
    ensures IsOpen(h, c.uvhead[i]) && c.phase != GCSpause && c.phase != GCSfinalize
    ensures Invariant(Paint(CloseTop(h, th), c.uvhead[i], White(c.cw)), AfterClose(c, c.uvhead[i], Drop(c.uvhead, i)))
  {
    hide Structured, Safe, Drop, Swept, RootsSwept, StringsSwept, OnlyFixed, Tricolour, NoBlackOpen;
    CloseStill(h, c, th, i);
    var u, h1 := c.uvhead[i], CloseTop(h, th);
    var h2 := Paint(h1, u, White(c.cw));
    SweptWhiten(h1, u, c.cw);
    SweptTrans(h, h1, h2, c.cw);
    StructureColours(h1, h2, [u] + c.rootgc, c.strt, Drop(c.uvhead, i), {});
    SweptSafe(h1, h2, c.cw, RootsOf(c), c.mainthread);
    CloseSwept(h, h2, c, u, Drop(c.uvhead, i));
  }

  lemma CloseSwept(h: Heap, h': Heap, c: View, u: Ref, ring: seq<Ref>)
    requires PhaseOk(h, c) && (c.phase == GCSsweepstring || c.phase == GCSsweep) && Swept(h, h', c.cw)
    requires Structured(h', [u] + c.rootgc, c.strt, ring, {}) && u in h' && h'[u].color == White(c.cw) && h'[u].body.Upval?
    ensures PhaseOk(h', AfterClose(c, u, ring))
  {
    hide Structured, Swept, RootsSwept, StringsSwept, NoBlackOpen;
    NoBlackSwept(h, h', c.cw);
    StructuredStrings(h', [u] + c.rootgc, c.strt, ring);
    if c.phase == GCSsweepstring {
      StringsSweptStays(h, h', c.cw, c.strt, c.strt, c.sweepstrgc);
    } else {
      StringsSweptStays(h, h', c.cw, c.strt, c.strt, |c.strt|);
      RootsSweptGrows(h, h', c.cw, c.rootgc, c.strt, ring, c.sweepgc, u, {});
    }
  }

  lemma CloseKids(h: Heap, th: Ref)
    requires OpenLists(h) && th in h && h[th].body.Thread? && h[th].body.openupval != [] && IsOpen(h, h[th].body.openupval[0])
    ensures forall x :: x in h ==> Kids(CloseTop(h, th), x) == Kids(h, x)
  {
    var h' := CloseTop(h, th);
    forall loc ensures UpvalValue(h', loc) == UpvalValue(h, loc) {}
  }

  lemma CloseTricolour(h: Heap, th: Ref, gray: seq<Ref>, grayagain: seq<Ref>)
    requires OpenLists(h) && th in h && h[th].body.Thread? && h[th].body.openupval != [] && IsOpen(h, h[th].body.openupval[0])
    requires Tricolour(h, gray, grayagain, {}) && IsWhite(h, h[th].body.openupval[0])
    ensures Tricolour(CloseTop(h, th), gray, grayagain, {})
  {
    hide Kids, OpenLists;
    CloseKids(h, th);
    hide KidsMarked;
    forall x | x in h && h[x].color.Black? ensures KidsMarked(CloseTop(h, th), x) { KidsStay(h, CloseTop(h, th), x); }
  }

  /** A gray upvalue closed in the mark phase turns black; its value is to be marked. */
  lemma CloseBlack(h: Heap, th: Ref, gray: seq<Ref>, grayagain: seq<Ref>)
    requires OpenLists(h) && th in h && h[th].body.Thread? && h[th].body.openupval != [] && IsOpen(h, h[th].body.openupval[0])
    requires Tricolour(h, gray, grayagain, {}) && h[h[th].body.openupval[0]].color.Gray?
    ensures var u := h[th].body.openupval[0]; Tricolour(Paint(CloseTop(h, th), u, Black), gray, grayagain, {u})
  {
    hide Kids, OpenLists, Tricolour;
    CloseBusy(h, th, gray, grayagain);
    PaintBusy(CloseTop(h, th), gray, grayagain, h[th].body.openupval[0]);
  }

  lemma CloseBusy(h: Heap, th: Ref, gray: seq<Ref>, grayagain: seq<Ref>)
    requires OpenLists(h) && th in h && h[th].body.Thread? && h[th].body.openupval != [] && IsOpen(h, h[th].body.openupval[0])
    requires Tricolour(h, gray, grayagain, {})
    ensures Tricolour(CloseTop(h, th), gray, grayagain, {h[th].body.openupval[0]})
  {
    hide Kids, OpenLists, KidsMarked;
    CloseKids(h, th);
    forall x | x in h && h[x].color.Black? ensures KidsMarked(CloseTop(h, th), x) { KidsStay(h, CloseTop(h, th), x); }
  }

  lemma PaintBusy(h: Heap, gray: seq<Ref>, grayagain: seq<Ref>, u: Ref)
    requires Tricolour(h, gray, grayagain, {u}) && u in h && h[u].color.Gray? && h[u].body.Upval? && h[u].body.loc.Closed?
    ensures Tricolour(Paint(h, u, Black), gray, grayagain, {u})
  {
    hide Kids, KidsMarked;
    var h' := Paint(h, u, Black);
    SameKids(h, h');
    forall x | x in h && h'[x].color.Black? && x != u ensures KidsMarked(h', x) { KidsStay(h, h', x); }
  }

  /** The value of the upvalue, if it is an object, has been marked. */
  lemma CloseMarked(h1: Heap, h2: Heap, gray: seq<Ref>, grayagain: seq<Ref>, u: Ref, keep: set<Ref>)
    requires Tricolour(h2, gray, grayagain, {u}) && u in h1 && h1[u].color.Black? && h1[u].body.Upval? && h1[u].body.loc.Closed?
    requires Marked(h1, h2, keep) && forall x :: x in ValueRefs(h1[u].body.loc.v) ==> x in h2 && !IsWhite(h2, x)
    ensures Tricolour(h2, gray, grayagain, {})
  {
    assert u in h2 && h2[u] == h1[u];
    assert KidsMarked(h2, u);
    BarrierDone(h2, gray, grayagain, u);
  }

  /** Together: a gray upvalue closed in the mark phase. */
  lemma ClosePropagate(h: Heap, c: View, th: Ref, i: nat, h2: Heap, gray: seq<Ref>)
    requires Invariant(h, c) && c.phase == GCSpropagate && th in h && h[th].body.Thread? && h[th].body.openupval != []
    requires i < |c.uvhead| && c.uvhead[i] == h[th].body.openupval[0] && IsOpen(h, c.uvhead[i]) && h[c.uvhead[i]].color.Gray?
    requires c.uvhead[i] != th && Marked(Paint(CloseTop(h, th), c.uvhead[i], Black), h2, h.Keys) && Tricolour(h2, gray, c.grayagain, {})
    ensures Invariant(h2, AfterClose(c, c.uvhead[i], Drop(c.uvhead, i)).(gray := gray))
    ensures Pruned(h, h2, c.cw)
  {
    hide Structured, Safe, Drop, Swept, OnlyFixed, Tricolour, NoneDead, Marked, Darker, Anchored, TheThreads;
    CloseStill(h, c, th, i);
    var u, h0 := c.uvhead[i], CloseTop(h, th);
    var h1 := Paint(h0, u, Black);
    BlackenDarker(h0, u, h.Keys);
    MarkedDarker(h1, h2, h.Keys);
    DarkerTrans(h0, h1, h2, h.Keys);
    StructureDarker(h0, h2, h.Keys, [u] + c.rootgc, c.strt, Drop(c.uvhead, i));
    CloseNoneDead(h, th, c.cw);
    CloseAnchored(h, th, c.mainthread, c.registry);
    AfterDarker(h0, h2, h.Keys, c);
    SweptPruned(h, h0, c.cw);
    DarkerPruned(h, h0, h2, h.Keys, c.cw);
  }

  lemma CloseFinish(h: Heap, h1: Heap, c: View, th: Ref, i: nat, u: Ref, h2: Heap, gray: seq<Ref>)
    requires Invariant(h, c) && c.phase == GCSpropagate && th in h && h[th].body.Thread? && h[th].body.openupval != []
    requires i < |c.uvhead| && c.uvhead[i] == u && u == h[th].body.openupval[0] && IsOpen(h, u) && h[u].color.Gray? && u != th
    requires h1 == Paint(CloseTop(h, th), u, Black) && Marked(h1, h2, h.Keys) && Tricolour(h2, gray, c.grayagain, {u})
    requires forall x :: x in ValueRefs(h1[u].body.loc.v) ==> x in h2 && !IsWhite(h2, x)
    ensures Invariant(h2, AfterClose(c, u, Drop(c.uvhead, i)).(gray := gray)) && Pruned(h, h2, c.cw) && AliveStay(h, h2, c.cw)
    ensures th in h2 && h2[th].body.Thread? && h2[th].body.openupval == h[th].body.openupval[1..]
  {
    hide Invariant, IsOpen, Pruned, AliveStay, Tricolour, Drop, Marked, NoneDead;
    CloseMarked(h1, h2, gray, c.grayagain, u, h.Keys);
    ClosePropagate(h, c, th, i, h2, gray);
    BodyStays(h1, h2, th, h.Keys);
    StructuredNow(h, c);
    StructuredNow(h2, AfterClose(c, u, Drop(c.uvhead, i)).(gray := gray));
    NoneDeadStays(h, h2, c.cw);
  }

  lemma BlackenDarker(h: Heap, u: Ref, keep: set<Ref>)
    requires u in h && h[u].color.Gray?
    ensures Darker(h, Paint(h, u, Black), keep)
  {
  }

  lemma CloseNoneDead(h: Heap, th: Ref, cw: bool)
    requires NoneDead(h, cw) && th in h && h[th].body.Thread? && h[th].body.openupval != [] && IsOpen(h, h[th].body.openupval[0])
    ensures NoneDead(CloseTop(h, th), cw)
  {
  }

  lemma CloseAnchored(h: Heap, th: Ref, mainthread: Ref, registry: Value)
    requires Anchored(h, mainthread, registry) && th in h && h[th].body.Thread? && h[th].body.openupval != [] && IsOpen(h, h[th].body.openupval[0])
    ensures Anchored(CloseTop(h, th), mainthread, registry)
  {
  }

  lemma DarkerPruned(h: Heap, h1: Heap, h2: Heap, keep: set<Ref>, cw: bool)
    requires Pruned(h, h1, cw) && Darker(h1, h2, keep)
    ensures Pruned(h, h2, cw)
  {
    forall r | r in h2 ensures SameObject(h, h2, r) {
      assert SameObject(h, h1, r);
      DarkerSame(h1, h2, keep, r);
    }
  }

  lemma PrunedTrans(a: Heap, b: Heap, c: Heap, cw: bool)
    requires Pruned(a, b, cw) && Pruned(b, c, cw) && AliveStay(a, b, cw)
    ensures Pruned(a, c, cw)
  {
    forall r | r in c ensures SameObject(a, c, r) { assert SameObject(a, b, r) && SameObject(b, c, r); }
  }

  /** Nothing is black while no collection is under way. */
  lemma NotWhite(h: Heap, c: View, o: Ref)
    requires Invariant(h, c) && o in h && h[o].color.Black?
    ensures c.phase != GCSpause && c.phase != GCSfinalize
  {
  }

  lemma AddsThere(h: Heap, h': Heap, cw: bool, vs: set<Ref>)
    requires Adds(h, h', cw, vs)
    ensures h'.Keys == h.Keys && vs <= h.Keys
  {
  }

  /** The gray lists matter in the mark phase only. */
  lemma AgainAnyPhase(h: Heap, c: View, grayagain: seq<Ref>)
    requires Invariant(h, c) && c.phase != GCSpropagate
    ensures Invariant(h, c.(grayagain := grayagain))
  {
  }

  /** An object with its i-th reference set, or one more reference. */
  function WithRef(b: Body, i: nat, v: Ref): Body
    requires b.Holder? && i <= |b.refs|
  {
    b.(refs := if i < |b.refs| then b.refs[i := v] else b.refs + [v])
  }

  lemma WithRefRefs(b: Body, i: nat, v: Ref)
    requires b.Holder? && i <= |b.refs|
    ensures forall x :: x in WithRef(b, i, v).refs ==> x in b.refs || x == v
  {
    var t := WithRef(b, i, v).refs;
    forall x | x in t ensures x in b.refs || x == v {
      var k :| 0 <= k < |t| && t[k] == x;
    }
  }

  lemma DropElements(s: seq<Ref>, i: nat)
    requires i < |s|
    ensures forall x :: x in Drop(s, i) ==> x in s
  {
  }

  lemma StackOf(h: Heap, c: View)
    requires Invariant(h, c)
    ensures c.running in h && h[c.running].body.Thread? && !IsDead(h, c.cw, c.running)
    ensures forall v :: v in h[c.running].body.stack ==> ValueRefs(v) <= AliveSet(h, c.cw)
  {
    assert c.running in AliveSet(h, c.cw);
    assert Kids(h, c.running) <= AliveSet(h, c.cw);
  }

  lemma OpenInStack(h: Heap, c: View, u: Ref)
    requires Invariant(h, c) && IsOpen(h, u)
    ensures var th := h[u].body.loc.thread; th in h && h[th].body.Thread? && h[u].body.loc.slot < |h[th].body.stack|
  {
    assert OpenListed(h, u);
    assert OpenList(h, h[u].body.loc.thread);
  }

  /** One slot of a thread's stack has been written, and nothing else. */
  ghost predicate StackWritten(h: Heap, h': Heap, th: Ref, slot: nat, v: Value) {
    && th in h && h[th].body.Thread? && slot < |h[th].body.stack|
    && Graph(h') == Graph(h)[th := Stacked(h[th].body, slot, v)]
  }

  /** A value has been pushed on a thread's stack, and nothing else. */
  ghost predicate Pushed(g: map<Ref, Body>, g': map<Ref, Body>, th: Ref, v: Value) {
    && th in g && g[th].Thread?
    && g' == g[th := Stacked(g[th], |g[th].stack|, v)]
  }

  ghost predicate UpvalOf(h: Heap, th: Ref, slot: nat, u: Ref) { IsOpen(h, u) && h[u].body.loc == Open(th, slot) }

  /** An open upvalue for a slot has been made. */
  ghost predicate UpvalAdded(g: map<Ref, Body>, g': map<Ref, Body>, th: Ref, slot: nat, u: Ref) {
    && u !in g && th in g && g[th].Thread?
    && exists k :: 0 <= k <= |g[th].openupval|
         && g' == g[th := g[th].(openupval := Insert(g[th].openupval, k, u))][u := Upval(Open(th, slot))]
  }

  /** The open upvalues of a thread, in descending order. */
  lemma OpenRun(h: Heap, c: View, th: Ref)
    requires Invariant(h, c) && th in h && h[th].body.Thread?
    ensures forall u :: u in h[th].body.openupval ==> u in h && IsOpen(h, u) && h[u].body.loc.thread == th
    ensures forall i, j :: 0 <= i < j < |h[th].body.openupval| ==> SlotOf(h, h[th].body.openupval[i]) > SlotOf(h, h[th].body.openupval[j])
  {
    StructuredOpen(h, c);
    assert OpenList(h, th);
  }

  /** What an open upvalue of the running thread refers to is live. */
  lemma SlotAlive(h: Heap, c: View, u: Ref, th: Ref)
    requires Invariant(h, c) && IsOpen(h, u) && h[u].body.loc.thread == c.running && th == c.running
    ensures Kids(h, u) <= AliveSet(h, c.cw)
  {
    hide Invariant;
    StackOf(h, c);
  }

  lemma AddOpenGraph(h: Heap, th: Ref, k: nat, u: Ref, slot: nat, c: Color)
    requires th in h && h[th].body.Thread? && u !in h && k <= |h[th].body.openupval|
    ensures UpvalAdded(Graph(h), Graph(AddOpen(h, th, k, u, slot, c)), th, slot, u)
  {
    hide Insert;
    var b := h[th].body;
    assert Graph(AddOpen(h, th, k, u, slot, c)) == Graph(h)[th := b.(openupval := Insert(b.openupval, k, u))][u := Upval(Open(th, slot))];
  }

  /** While marking nothing is dead, so everything there is closed. */
  lemma SafeAllKeys(h: Heap, cw: bool, roots: set<Ref>)
    requires Safe(h, cw, roots) && NoneDead(h, cw)
    ensures ClosedIn(h, h.Keys)
  {
    assert AliveSet(h, cw) == h.Keys;
  }

  /** Objects with a place in the gray lists do not turn black. */
  ghost predicate NoneBlackened(h: Heap, h': Heap) {
    forall x :: x in h && Queued(h[x].body) && !h[x].color.Black? ==> x in h' && !h'[x].color.Black?
  }

  /** Open upvalues of slots below a level stay in their thread's list. */
  ghost predicate LowerStay(h: Heap, h': Heap, th: Ref, level: nat) {
    th in h && h[th].body.Thread? && th in h' && h'[th].body.Thread?
    && forall u :: u in h[th].body.openupval && IsOpen(h, u) && SlotOf(h, u) < level ==> u in h'[th].body.openupval
  }

  lemma MarkedGray(h: Heap, h': Heap, keep: set<Ref>)
    requires Marked(h, h', keep)
    ensures NoneBlackened(h, h')
  {
    forall x | x in h && Queued(h[x].body) && !h[x].color.Black? ensures x in h' && !h'[x].color.Black? {
      if IsWhite(h, x) && !IsWhite(h', x) { assert h'[x].color.Gray?; }
    }
  }

  lemma NotDead(h: Heap, cw: bool, u: Ref)
    requires NoneDead(h, cw) && u in h
    ensures !IsDead(h, cw, u)
  {
  }

  /** Live objects stay and stay live. */
  ghost predicate AliveStay(h: Heap, h': Heap, cw: bool) {
    forall r :: r in h && !IsDead(h, cw, r) ==> r in h' && !IsDead(h', cw, r)
  }

  lemma AliveStayTrans(a: Heap, b: Heap, c: Heap, cw: bool)
    requires AliveStay(a, b, cw) && AliveStay(b, c, cw)
    ensures AliveStay(a, c, cw)
  {
  }

  lemma SweptAliveStay(h: Heap, h': Heap, cw: bool)
    requires Swept(h, h', cw)
    ensures AliveStay(h, h', cw)
  {
    forall r | r in h && !IsDead(h, cw, r) ensures r in h' && !IsDead(h', cw, r) {
      assert r in h';
      assert SweptObject(h, h', cw, r);
    }
  }

  lemma StructuredNow(h: Heap, c: View)
    requires Invariant(h, c)
    ensures Structured(h, c.rootgc, c.strt, c.uvhead, {}) && OpenLists(h)
    ensures c.phase == GCSpropagate ==> NoneDead(h, c.cw) && Tricolour(h, c.gray, c.grayagain, {}) && Anchored(h, c.mainthread, c.registry)
  {
  }

  lemma NotBlackNow(h: Heap, c: View, u: Ref)
    requires Invariant(h, c) && IsOpen(h, u)
    ensures !h[u].color.Black?
  {
  }

  lemma PaintPruned(h: Heap, h': Heap, u: Ref, cw: bool)
    requires Pruned(h, h', cw) && AliveStay(h, h', cw) && u in h'
    ensures Pruned(h, Paint(h', u, White(cw)), cw) && AliveStay(h, Paint(h', u, White(cw)), cw)
  {
    var h2 := Paint(h', u, White(cw));
    SlotPaint(h', u, White(cw));
    forall r | r in h2 ensures SameObject(h, h2, r) { assert SameObject(h, h', r); }
  }

  lemma CloseAllKeys(h: Heap, c: View, th: Ref, u: Ref)
    requires Invariant(h, c) && c.phase == GCSpropagate && th in h && h[th].body.Thread? && h[th].body.openupval != []
    requires u == h[th].body.openupval[0] && IsOpen(h, u) && u != th
    ensures var h1 := Paint(CloseTop(h, th), u, Black); h1.Keys == h.Keys && ClosedIn(h1, h.Keys)
  {
    StructuredOpen(h, c);
    CloseKids(h, th);
    SafeAllKeys(h, c.cw, RootsOf(c));
    hide Invariant, Kids;
    var h0 := CloseTop(h, th);
    SameKids(h0, Paint(h0, u, Black));
  }

  lemma NoneDeadStays(h: Heap, h': Heap, cw: bool)
    requires NoneDead(h, cw) && NoneDead(h', cw) && Pruned(h, h', cw)
    ensures AliveStay(h, h', cw)
  {
  }

  lemma PrunedSelf(h: Heap, cw: bool)
    ensures Pruned(h, h, cw) && AliveStay(h, h, cw)
  {
  }

  /** The upvalues of lower slots are not the first in the list. */
  lemma ClosedFirst(h0: Heap, h: Heap, th: Ref, level: nat, cw: bool)
    requires Pruned(h0, h, cw) && th in h && h[th].body.Thread? && h[th].body.openupval != []
    requires var u := h[th].body.openupval[0]; IsOpen(h, u) && SlotOf(h, u) >= level
    ensures forall u :: IsOpen(h0, u) && SlotOf(h0, u) < level && u in h[th].body.openupval ==> u in h[th].body.openupval[1..]
  {
    var u0 := h[th].body.openupval[0];
    assert SameObject(h0, h, u0);
    forall u | IsOpen(h0, u) && SlotOf(h0, u) < level && u in h[th].body.openupval ensures u in h[th].body.openupval[1..] {
      assert u != u0;
    }
  }

  lemma UpvalHas(h: Heap, th: Ref, slot: nat, u: Ref)
    requires u in h && IsOpen(h, u) && h[u].body.loc.thread == th && SlotOf(h, u) == slot
    ensures UpvalOf(h, th, slot, u)
  {
  }

  lemma UpvalStays(h: Heap, h': Heap, th: Ref, slot: nat, u: Ref)
    requires UpvalOf(h, th, slot, u) && SameBodies(h, h')
    ensures UpvalOf(h', th, slot, u)
  {
  }

  lemma InAlive(h: Heap, cw: bool, v: Value)
    requires ValueRefs(v) <= AliveSet(h, cw)
    ensures v.Object? ==> v.r in h && !IsDead(h, cw, v.r)
  {
    if v.Object? { assert v.r in ValueRefs(v); }
  }

  lemma InAliveSet(h: Heap, cw: bool, u: Ref)
    requires u in h && !IsDead(h, cw, u)
    ensures {u} <= AliveSet(h, cw)
  {
  }

  lemma NoRefs(h: Heap, cw: bool)
    ensures BodyRefs(Holder(TFunction, [])) <= AliveSet(h, cw)
  {
  }

  lemma ClosureNew(h: Heap, h': Heap, r: Ref, cw: bool)
    requires h' == h[r := Obj(White(cw), false, Holder(TFunction, []))]
    ensures h.Keys <= h'.Keys && r in h' && h'[r].body == Holder(TFunction, []) && h'[r].color == White(cw)
  {
  }

  lemma PutThere(h: Heap, o: Ref, b: Body, r: Ref)
    requires o in h && r in h && o != r
    ensures Put(h, o, b).Keys == h.Keys && Put(h, o, b)[r] == h[r]
  {
  }

  lemma HolderStays(h: Heap, h': Heap, th: Ref, slot: nat, u: Ref, addr: Ref, r: Ref)
    requires r in h && h[r].body.Holder? && Queued(h[r].body) && !h[r].color.Black? && NoneBlackened(h, h')
    requires if u == addr then UpvalAdded(Graph(h), Graph(h'), th, slot, u) else Graph(h') == Graph(h)
    ensures h.Keys <= h'.Keys && r in h' && h'[r].body == h[r].body && !h'[r].color.Black?
  {
    assert h.Keys == Graph(h).Keys && h'.Keys == Graph(h').Keys;
    assert Graph(h')[r] == Graph(h)[r];
  }

  lemma UpvalThere(h: Heap, th: Ref, slot: nat, u: Ref)
    requires UpvalOf(h, th, slot, u)
    ensures u in h
  {
  }

  lemma PopAlive(h: Heap, th: Ref, n: nat, cw: bool)
    requires th in h && h[th].body.Thread? && n <= |h[th].body.stack|
    ensures AliveStay(h, Popped(h, th, n), cw)
  {
  }

  lemma RootsNow(h: Heap, c: View, th: Ref, mt: seq<Value>)
    requires Safe(h, c.cw, RootsOf(c)) && th in h && !IsDead(h, c.cw, th) && mt == c.mt
    ensures RootsOf(c.(running := th, mt := mt)) <= AliveSet(h, c.cw)
  {
  }

  lemma MtNow(h: Heap, c: View, i: nat, v: Value)
    requires Safe(h, c.cw, RootsOf(c)) && i < |c.mt| && (v.Object? ==> v.r in h && !IsDead(h, c.cw, v.r))
    ensures RootsOf(c.(running := c.running, mt := c.mt[i := v])) <= AliveSet(h, c.cw)
  {
    forall w | w in c.mt[i := v] ensures w in c.mt || w == v {
      var k :| 0 <= k < |c.mt| && c.mt[i := v][k] == w;
    }
  }

  // ---------------------------------------------------------------- nothing in reach is lost

  ghost predicate NoneLost(h: Heap, h': Heap, roots: set<Ref>) { forall r :: Reachable(h, roots, r) ==> r in h' }

  /** Every reference in every object in reach leads to an object that is there. */
  ghost predicate Intact(h: Heap, roots: set<Ref>) {
    && (forall r :: r in roots ==> r in h)
    && (forall r :: Reachable(h, roots, r) ==> r in h && forall x :: x in Kids(h, r) ==> x in h)
  }

  lemma InvariantIntact(h: Heap, c: View)
    requires Invariant(h, c)
    ensures Intact(h, RootsOf(c))
  {
    forall r | Reachable(h, RootsOf(c), r) ensures r in h && forall x :: x in Kids(h, r) ==> x in h {
      ReachableAlive(h, c.cw, RootsOf(c), r);
      assert r in AliveSet(h, c.cw);
    }
  }

  lemma ReachableThere(h: Heap, c: View)
    requires Invariant(h, c)
    ensures NoneLost(h, h, RootsOf(c))
  {
    hide Invariant;
    InvariantIntact(h, c);
  }

  lemma KeysKeep(h: Heap, h': Heap, roots: set<Ref>)
    requires h.Keys <= h'.Keys && NoneLost(h, h, roots)
    ensures NoneLost(h, h', roots)
  {
    hide Reachable;
  }

  lemma KeptNoneLost(h: Heap, h': Heap, roots: set<Ref>)
    requires Kept(h, h', roots)
    ensures NoneLost(h, h', roots)
  {
    hide Reachable;
  }

  lemma AliveNoneLost(h: Heap, h': Heap, c: View)
    requires Invariant(h, c) && AliveStay(h, h', c.cw)
    ensures NoneLost(h, h', RootsOf(c))
  {
    forall r | Reachable(h, RootsOf(c), r) ensures r in h' { ReachableAlive(h, c.cw, RootsOf(c), r); }
  }

  /** In the mark phase the set of all objects will do as a bound for what is marked. */
  lemma AllKeys(h: Heap, c: View)
    requires Invariant(h, c)
    ensures c.phase == GCSpause || c.phase == GCSpropagate ==> ClosedIn(h, h.Keys) && RootsOf(c) <= h.Keys
    ensures MarkedWithin(h, h.Keys)
  {
    if c.phase == GCSpause || c.phase == GCSpropagate {
      if c.phase == GCSpause { WhiteNoneDead(h, c.cw); }
      SafeAllKeys(h, c.cw, RootsOf(c));
    }
  }

  lemma PushedKeys(h: Heap, h': Heap, r: Ref, b: Body, th: Ref)
    requires Pushed(Graph(h)[r := b], Graph(h'), th, Object(r))
    ensures h.Keys <= h'.Keys
  {
    assert h.Keys == Graph(h).Keys && h'.Keys == Graph(h').Keys;
  }

  lemma InternKeys(h: Heap, h': Heap, th: Ref, r: Ref)
    requires Pushed(Graph(h), Graph(h'), th, Object(r))
    ensures h.Keys <= h'.Keys
  {
    assert h.Keys == Graph(h).Keys && h'.Keys == Graph(h').Keys;
  }

  lemma OneKeys(h: Heap, h': Heap, o: Ref, b: Body)
    requires o in h && Graph(h') == Graph(h)[o := b]
    ensures h.Keys == h'.Keys
  {
    assert h.Keys == Graph(h).Keys && h'.Keys == Graph(h').Keys;
  }

  lemma UpvalueKeys(h: Heap, h': Heap, u: Ref, v: Value)
    requires u in h && h[u].body.Upval?
    requires h[u].body.loc.Closed? ==> Graph(h') == Graph(h)[u := Upval(Closed(v))]
    requires h[u].body.loc.Open? ==> StackWritten(h, h', h[u].body.loc.thread, h[u].body.loc.slot, v)
    ensures h.Keys == h'.Keys
  {
    assert h.Keys == Graph(h).Keys && h'.Keys == Graph(h').Keys;
  }

  lemma HolderRefs(tag: Tag, refs: seq<Ref>, s: set<Ref>)
    requires forall x :: x in refs ==> x in s
    ensures BodyRefs(Holder(tag, refs)) <= s && NewBody(Holder(tag, refs))
  {
  }

  lemma ThreadRefs(h: Heap, c: View, b: Body)
    requires Invariant(h, c) && c.running in h && h[c.running].body.Thread? && b == Thread(h[c.running].body.globals, [], [])
    ensures BodyRefs(b) <= AliveSet(h, c.cw) && NewBody(b)
  {
    assert c.running in AliveSet(h, c.cw);
    assert Kids(h, c.running) <= AliveSet(h, c.cw);
  }

  lemma RefAlive(h: Heap, c: View, o: Ref, i: nat)
    requires Invariant(h, c) && o in h && !IsDead(h, c.cw, o) && h[o].body.Holder? && i < |h[o].body.refs|
    ensures h[o].body.refs[i] in h && !IsDead(h, c.cw, h[o].body.refs[i])
  {
    assert o in AliveSet(h, c.cw);
    assert h[o].body.refs[i] in Kids(h, o);
  }

  lemma UpvalueAlive(h: Heap, c: View, u: Ref)
    requires Invariant(h, c) && u in h && !IsDead(h, c.cw, u) && h[u].body.Upval?
    ensures var v := UpvalValue(h, h[u].body.loc); v.Object? ==> v.r in h && !IsDead(h, c.cw, v.r)
  {
    assert u in AliveSet(h, c.cw);
    var v := UpvalValue(h, h[u].body.loc);
    if v.Object? { assert v.r in Kids(h, u); }
  }

  // ---------------------------------------------------------------- the first state

  function FirstHeap(main: Ref, globals: Ref, reg: Ref): Heap {
    map[main := Obj(White(false), true, Thread(Object(globals), [], [])),
        globals := Obj(White(false), false, Holder(TTable, [])),
        reg := Obj(White(false), false, Holder(TTable, []))]
  }

  lemma FirstInvariant(main: Ref, globals: Ref, reg: Ref, c: View)
    requires main != globals && main != reg && globals != reg
    requires c.phase == GCSpause && !c.cw && c.rootgc == [main, globals, reg] && c.uvhead == []
    requires |c.strt| > 0 && forall b :: 0 <= b < |c.strt| ==> c.strt[b] == []
    requires c.mainthread == main && c.running == main && c.registry == Object(reg) && forall v :: v in c.mt ==> v == Plain
    ensures Invariant(FirstHeap(main, globals, reg), c)
  {
    var h := FirstHeap(main, globals, reg);
    assert h.Keys == {main, globals, reg};
    FirstLists(main, globals, reg, c);
    assert AliveSet(h, false) == {main, globals, reg};
    assert Kids(h, main) == {globals};
    assert RootsOf(c) <= {main, globals, reg};
    hide Structured;
    assert ClosedIn(h, AliveSet(h, false));
  }

  lemma FirstLists(main: Ref, globals: Ref, reg: Ref, c: View)
    requires main != globals && main != reg && globals != reg
    requires c.rootgc == [main, globals, reg] && c.uvhead == []
    requires |c.strt| > 0 && forall b :: 0 <= b < |c.strt| ==> c.strt[b] == []
    ensures Structured(FirstHeap(main, globals, reg), c.rootgc, c.strt, c.uvhead, {})
  {
    var h := FirstHeap(main, globals, reg);
    forall r ensures r in c.rootgc <==> InRoots(h, r) {}
  }

  lemma AddOpenColours(h: Heap, th: Ref, k: nat, u: Ref, slot: nat, c: Color)
    requires th in h && h[th].body.Thread? && u !in h && k <= |h[th].body.openupval|
    ensures NoneBlackened(h, AddOpen(h, th, k, u, slot, c)) && UpvalOf(AddOpen(h, th, k, u, slot, c), th, slot, u)
  {
  }

  lemma NoneBlackenedTrans(a: Heap, b: Heap, c: Heap)
    requires NoneBlackened(a, b) && NoneBlackened(b, c) && forall x :: x in a && Queued(a[x].body) ==> x in b && Queued(b[x].body)
    ensures NoneBlackened(a, c)
  {
  }
}
