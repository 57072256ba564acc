/** What the sweep phase keeps, and the invariant of each phase. */
module GcSweeping {
  import opened GcHeap
  import opened GcColours
  import opened GcLists

  datatype Phase = GCSpause | GCSpropagate | GCSsweepstring | GCSsweep | GCSfinalize

  // ---------------------------------------------------------------- live objects

  function AliveSet(h: Heap, cw: bool): set<Ref> { set r | r in h && !IsDead(h, cw, r) }

  /** Objects that are not dead refer to objects that are there and not dead, and so do the roots. */
  ghost predicate Safe(h: Heap, cw: bool, roots: set<Ref>) {
    ClosedIn(h, AliveSet(h, cw)) && roots <= AliveSet(h, cw)
  }

  lemma ReachableAlive(h: Heap, cw: bool, roots: set<Ref>, r: Ref)
    requires Safe(h, cw, roots) && Reachable(h, roots, r)
    ensures r in h && !IsDead(h, cw, r)
  {
    ReachableIn(h, roots, AliveSet(h, cw), r);
  }

  /** The same object, whose references still are what they were: a thread may lose open upvalues,
      an upvalue may be closed if it keeps its value. */
  ghost predicate SameObject(h: Heap, h': Heap, r: Ref)
    requires r in h && r in h'
  {
    match h[r].body
    case Thread(g, stack, uvs) =>
      h'[r].body.Thread? && h'[r].body.globals == g && h'[r].body.stack == stack
      && forall u :: u in h'[r].body.openupval ==> u in uvs
    case Upval(loc) =>
      h'[r].body.Upval? && UpvalValue(h', h'[r].body.loc) == UpvalValue(h, loc)
      && (h'[r].body == h[r].body || h'[r].body.loc.Closed?)
    case b => h'[r].body == b
  }

  lemma SameObjectKids(h: Heap, h': Heap, r: Ref)
    requires r in h && r in h' && SameObject(h, h', r)
    ensures Kids(h', r) == Kids(h, r)
  {
  }

  /** One piece of sweeping: objects that go were dead and not fixed; those that stay are the same,
      in their old colour or, unless they were to go, in the current white. */
  ghost predicate Swept(h: Heap, h': Heap, cw: bool) {
    && h'.Keys <= h.Keys
    && (forall r :: r in h && r !in h' ==> IsDead(h, cw, r) && !h[r].fixed)
    && (forall r :: r in h' ==> SweptObject(h, h', cw, r))
  }

  ghost predicate SweptObject(h: Heap, h': Heap, cw: bool, r: Ref)
    requires r in h && r in h'
  {
    && SameObject(h, h', r) && h'[r].fixed == h[r].fixed
    && (h'[r].color == h[r].color || (h'[r].color == White(cw) && (h[r].fixed || !IsDead(h, cw, r))))
  }

  lemma SweptSelf(h: Heap, cw: bool)
    ensures Swept(h, h, cw)
  {
  }

  lemma SweptTrans(a: Heap, b: Heap, c: Heap, cw: bool)
    requires Swept(a, b, cw) && Swept(b, c, cw)
    ensures Swept(a, c, cw)
  {
    forall r | r in c ensures SweptObject(a, c, cw, r) {
      assert r in b && SweptObject(a, b, cw, r) && SweptObject(b, c, cw, r);
    }
    forall r | r in a && r !in c ensures IsDead(a, cw, r) && !a[r].fixed {
      if r in b { assert SweptObject(a, b, cw, r); }
    }
  }

  lemma SweptWhiten(h: Heap, r: Ref, cw: bool)
    requires r in h && (h[r].fixed || !IsDead(h, cw, r))
    ensures Swept(h, Paint(h, r, White(cw)), cw) && SameBodies(h, Paint(h, r, White(cw)))
  {
    var h' := Paint(h, r, White(cw));
    forall x | x in h' ensures SweptObject(h, h', cw, x) { SlotPaint(h, r, White(cw)); }
  }

  lemma SlotPaint(h: Heap, r: Ref, c: Color)
    requires r in h
    ensures forall loc :: UpvalValue(Paint(h, r, c), loc) == UpvalValue(h, loc)
  {
  }

  lemma SweptFree(h: Heap, r: Ref, cw: bool)
    requires OpenLists(h) && r in h && IsDead(h, cw, r) && !h[r].fixed
    requires h[r].body.Thread? ==> h[r].body.openupval == []
    ensures Swept(h, h - {r}, cw)
  {
    var h' := h - {r};
    forall x | x in h' ensures SweptObject(h, h', cw, x) {
      if IsOpen(h, x) { assert OpenListed(h, x); }
    }
  }

  lemma SweptFreeOpen(h: Heap, th: Ref, k: nat, cw: bool)
    requires OpenLists(h) && th in h && h[th].body.Thread? && k < |h[th].body.openupval|
    requires var u := h[th].body.openupval[k]; u in h && IsDead(h, cw, u) && !h[u].fixed
    ensures Swept(h, FreeOpen(h, th, k), cw)
  {
    var uvs := h[th].body.openupval;
    var u := uvs[k];
    assert OpenList(h, th) && u in uvs && IsOpen(h, u);
    OpenDistinct(h, th);
    DropMembers(uvs, k);
    hide Drop;
    var h' := FreeOpen(h, th, k);
    forall loc ensures UpvalValue(h', loc) == UpvalValue(h, loc) {}
    forall x | x in h' ensures SweptObject(h, h', cw, x) {}
  }

  lemma SweptCloseTop(h: Heap, th: Ref, cw: bool)
    requires OpenLists(h) && th in h && h[th].body.Thread? && h[th].body.openupval != []
    ensures IsOpen(h, h[th].body.openupval[0]) && Swept(h, CloseTop(h, th), cw)
  {
    var u := h[th].body.openupval[0];
    assert OpenList(h, th) && u in h[th].body.openupval;
    var h' := CloseTop(h, th);
    forall loc ensures UpvalValue(h', loc) == UpvalValue(h, loc) {}
    forall x | x in h' ensures SweptObject(h, h', cw, x) {}
  }

  /** Sweeping keeps every object that is not dead, and so whatever the roots reach. */
  lemma SweptSafe(h: Heap, h': Heap, cw: bool, roots: set<Ref>, mainthread: Ref)
    requires Safe(h, cw, roots) && Swept(h, h', cw) && mainthread in roots && OnlyFixed(h, mainthread)
    ensures Safe(h', cw, roots) && OnlyFixed(h', mainthread)
    ensures forall r :: r in AliveSet(h, cw) ==> r in AliveSet(h', cw)
    ensures forall r :: Reachable(h, roots, r) <==> Reachable(h', roots, r)
  {
    var s := AliveSet(h, cw);
    forall r | r in s ensures r in h' && Kids(h', r) == Kids(h, r) && !IsDead(h', cw, r) {
      assert r in h';
      assert SweptObject(h, h', cw, r);
      SameObjectKids(h, h', r);
    }
    forall r | r in AliveSet(h', cw) ensures Kids(h', r) <= AliveSet(h', cw) {
      assert SweptObject(h, h', cw, r);
      if r !in s { assert h[r].fixed && h[r].body.StringBody?; }
    }
    forall r | r in h' && h'[r].fixed ensures h'[r].body.StringBody? || r == mainthread { assert SweptObject(h, h', cw, r); }
    ReachSame(h, h', roots, s);
  }

  /** Strings can be fixed (luaS_fix), and the main thread is. */
  ghost predicate OnlyFixed(h: Heap, mainthread: Ref) {
    forall r :: r in h && h[r].fixed ==> h[r].body.StringBody? || r == mainthread
  }

  // ---------------------------------------------------------------- the phases

  ghost predicate AllWhite(h: Heap, cw: bool) { forall r :: r in h ==> h[r].color == White(cw) }

  ghost predicate NoneDead(h: Heap, cw: bool) { forall r :: r in h ==> !IsDead(h, cw, r) }

  /** An object of the root list, and its open upvalues if it is a thread, have been swept. */
  ghost predicate Done(h: Heap, cw: bool, r: Ref) {
    && r in h && h[r].color == White(cw)
    && (h[r].body.Thread? ==> forall u :: u in h[r].body.openupval ==> u in h && h[u].color == White(cw))
  }

  ghost predicate StringsSwept(h: Heap, cw: bool, strt: seq<seq<Ref>>, n: nat) {
    forall b, r :: 0 <= b < n && b < |strt| && r in strt[b] ==> r in h && h[r].color == White(cw)
  }

  ghost predicate RootsSwept(h: Heap, cw: bool, rootgc: seq<Ref>, n: nat) {
    forall i :: 0 <= i < n && i < |rootgc| ==> Done(h, cw, rootgc[i])
  }

  lemma DoneStays(h: Heap, h': Heap, cw: bool, r: Ref)
    requires Swept(h, h', cw) && Done(h, cw, r) && r in h'
    requires h'[r].body.Thread? ==> forall u :: u in h'[r].body.openupval ==> u in h'
    ensures Done(h', cw, r)
  {
    assert SweptObject(h, h', cw, r);
    if h'[r].body.Thread? {
      forall u | u in h'[r].body.openupval ensures u in h' && h'[u].color == White(cw) { assert SweptObject(h, h', cw, u); }
    }
  }

  /** When both lists have been swept no object has any other colour left. */
  lemma AllSwept(h: Heap, cw: bool, rootgc: seq<Ref>, strt: seq<seq<Ref>>, uvhead: seq<Ref>)
    requires Structured(h, rootgc, strt, uvhead, {}) && StringsSwept(h, cw, strt, |strt|) && RootsSwept(h, cw, rootgc, |rootgc|)
    ensures AllWhite(h, cw)
  {
    forall r | r in h ensures h[r].color == White(cw) {
      if h[r].body.StringBody? {
        assert r in strt[h[r].body.bucket];
      } else if IsOpen(h, r) {
        assert OpenListed(h, r);
        InRootsDone(h, cw, rootgc, h[r].body.loc.thread);
      } else {
        InRootsDone(h, cw, rootgc, r);
      }
    }
  }

  lemma InRootsDone(h: Heap, cw: bool, rootgc: seq<Ref>, r: Ref)
    requires RootList(h, rootgc, {}) && RootsSwept(h, cw, rootgc, |rootgc|) && InRoots(h, r)
    ensures Done(h, cw, r)
  {
    assert r in rootgc;
    var i :| 0 <= i < |rootgc| && rootgc[i] == r;
    assert Done(h, cw, rootgc[i]);
  }

  lemma RootsSweptStays(h: Heap, h': Heap, cw: bool, rootgc: seq<Ref>, n: nat, out: set<Ref>)
    requires Swept(h, h', cw) && RootsSwept(h, cw, rootgc, n) && RootList(h', rootgc, out) && OpenLists(h')
    ensures RootsSwept(h', cw, rootgc, n)
  {
    forall i | 0 <= i < n && i < |rootgc| ensures Done(h', cw, rootgc[i]) {
      var r := rootgc[i];
      assert Done(h, cw, r) && r in rootgc && InRoots(h', r);
      if h'[r].body.Thread? { assert OpenList(h', r); }
      DoneStays(h, h', cw, r);
    }
  }

  lemma StringsSweptStays(h: Heap, h': Heap, cw: bool, strt: seq<seq<Ref>>, strt': seq<seq<Ref>>, n: nat)
    requires Swept(h, h', cw) && StringsSwept(h, cw, strt, n) && StringLists(h', strt') && |strt'| == |strt|
    requires forall b, r :: 0 <= b < n && b < |strt'| && r in strt'[b] ==> r in strt[b]
    ensures StringsSwept(h', cw, strt', n)
  {
    forall b, r | 0 <= b < n && b < |strt'| && r in strt'[b] ensures r in h' && h'[r].color == White(cw) {
      assert SweptObject(h, h', cw, r);
    }
  }

  /** How much of the sweep of the root list is left, as a pair. */
  ghost predicate LessLeft(uv: nat, left: int, uv': nat, left': int) { uv' < uv || (uv' == uv && left' < left) }

  lemma StringThere(h: Heap, rootgc: seq<Ref>, strt: seq<seq<Ref>>, uvhead: seq<Ref>, b: nat, i: nat)
    requires Structured(h, rootgc, strt, uvhead, {}) && b < |strt| && i < |strt[b]|
    ensures strt[b][i] in h && h[strt[b][i]].body == StringBody(b)
  {
    assert strt[b][i] in strt[b];
  }

  /** Taking a string out of its bucket leaves the other entries, those before it in place. */
  lemma StringFrees(h: Heap, rootgc: seq<Ref>, strt: seq<seq<Ref>>, uvhead: seq<Ref>, b: nat, i: nat)
    requires Structured(h, rootgc, strt, uvhead, {}) && b < |strt| && i < |strt[b]|
    ensures |Drop(strt[b], i)| == |strt[b]| - 1
    ensures forall k :: 0 <= k < i ==> Drop(strt[b], i)[k] == strt[b][k] && strt[b][k] != strt[b][i]
    ensures forall r :: r in Drop(strt[b], i) ==> r in strt[b]
  {
    DropMembers(strt[b], i);
  }

  lemma SweptFreeString(h: Heap, rootgc: seq<Ref>, strt: seq<seq<Ref>>, uvhead: seq<Ref>, r: Ref, cw: bool)
    requires Structured(h, rootgc, strt, uvhead, {}) && r in h && h[r].body.StringBody? && IsDead(h, cw, r) && !h[r].fixed
    ensures Swept(h, h - {r}, cw)
  {
    SweptFree(h, r, cw);
  }

  lemma OpenThere(h: Heap, rootgc: seq<Ref>, strt: seq<seq<Ref>>, uvhead: seq<Ref>, out: set<Ref>, th: Ref, i: nat)
    requires Structured(h, rootgc, strt, uvhead, out) && th in h && h[th].body.Thread? && i < |h[th].body.openupval|
    ensures var u := h[th].body.openupval[i]; u != th && u in uvhead && IsOpen(h, u)
  {
    assert OpenList(h, th) && h[th].body.openupval[i] in h[th].body.openupval;
  }

  lemma OpenFrees(h: Heap, rootgc: seq<Ref>, strt: seq<seq<Ref>>, uvhead: seq<Ref>, out: set<Ref>, th: Ref, i: nat, cw: bool)
    requires Structured(h, rootgc, strt, uvhead, out) && th in h && h[th].body.Thread? && i < |h[th].body.openupval|
    requires var u := h[th].body.openupval[i]; u in h && IsDead(h, cw, u) && !h[u].fixed
    ensures var uvs := h[th].body.openupval; forall k :: 0 <= k < i ==> Drop(uvs, i)[k] == uvs[k] && uvs[k] != uvs[i]
    ensures Swept(h, FreeOpen(h, th, i), cw)
    ensures h[th].body.openupval[i] != th
  {
    SweptFreeOpen(h, th, i, cw);
    OpenDistinct(h, th);
    OpenThere(h, rootgc, strt, uvhead, out, th, i);
  }

  lemma DropLength(s: seq<Ref>, i: nat)
    requires i < |s|
    ensures |Drop(s, i)| == |s| - 1
  {
  }

  lemma CloseSweeps(h: Heap, rootgc: seq<Ref>, strt: seq<seq<Ref>>, uvhead: seq<Ref>, th: Ref, cw: bool)
    requires Structured(h, rootgc, strt, uvhead, {th}) && th in h && h[th].body.Thread? && h[th].body.openupval != []
    ensures var u := h[th].body.openupval[0]; IsOpen(h, u) && u != th && u !in h[th].body.openupval[1..]
    ensures Swept(h, CloseTop(h, th), cw)
  {
    SweptCloseTop(h, th, cw);
    OpenDistinct(h, th);
    OpenThere(h, rootgc, strt, uvhead, {th}, th, 0);
  }

  /** A closed upvalue joins the root list at its head, before what has been swept. */
  lemma RootsSweptGrows(h: Heap, h': Heap, cw: bool, rootgc: seq<Ref>, strt: seq<seq<Ref>>, uvhead: seq<Ref>, n: nat, u: Ref, out: set<Ref>)
    requires RootsSwept(h, cw, rootgc, n) && Swept(h, h', cw) && Structured(h', [u] + rootgc, strt, uvhead, out)
    requires u in h' && h'[u].color == White(cw) && h'[u].body.Upval?
    ensures RootsSwept(h', cw, [u] + rootgc, if n == 0 then 0 else n + 1)
  {
    forall i | 0 <= i < n + 1 && i < |rootgc| + 1 ensures Done(h', cw, ([u] + rootgc)[i]) {
      if i > 0 {
        var r := rootgc[i - 1];
        assert Done(h, cw, r) && r == ([u] + rootgc)[i];
        assert InRoots(h', r);
        if h'[r].body.Thread? { assert OpenList(h', r); }
        DoneStays(h, h', cw, r);
      }
    }
  }

  lemma RootThere(h: Heap, rootgc: seq<Ref>, strt: seq<seq<Ref>>, uvhead: seq<Ref>, i: nat)
    requires Structured(h, rootgc, strt, uvhead, {}) && i < |rootgc|
    ensures InRoots(h, rootgc[i])
  {
    assert rootgc[i] in rootgc;
  }

  lemma RootsStaySwept(h: Heap, h': Heap, cw: bool, rootgc: seq<Ref>, strt: seq<seq<Ref>>, uvhead: seq<Ref>, n: nat, out: set<Ref>)
    requires Swept(h, h', cw) && RootsSwept(h, cw, rootgc, n) && Structured(h', rootgc, strt, uvhead, out)
    ensures RootsSwept(h', cw, rootgc, n)
  {
    RootsSweptStays(h, h', cw, rootgc, n, out);
  }

  lemma RootsSweptNext(h: Heap, h': Heap, cw: bool, rootgc: seq<Ref>, strt: seq<seq<Ref>>, uvhead: seq<Ref>, n: nat)
    requires RootsSwept(h, cw, rootgc, n) && n < |rootgc| && rootgc[n] in h && h' == Paint(h, rootgc[n], White(cw))
    requires Structured(h', rootgc, strt, uvhead, {}) && Swept(h, h', cw)
    requires var r := rootgc[n]; h[r].body.Thread? ==> forall u :: u in h[r].body.openupval ==> u in h && h[u].color == White(cw)
    ensures RootsSwept(h', cw, rootgc, n + 1)
  {
    RootsSweptStays(h, h', cw, rootgc, n, {});
    forall i | 0 <= i < n + 1 && i < |rootgc| ensures Done(h', cw, rootgc[i]) {
      if i < n { assert Done(h', cw, rootgc[i]); }
    }
  }

  lemma RootsSweptDrop(h: Heap, cw: bool, rootgc: seq<Ref>, n: nat)
    requires RootsSwept(h, cw, rootgc, n) && n < |rootgc|
    ensures RootsSwept(h, cw, Drop(rootgc, n), n)
  {
    forall i | 0 <= i < n ensures Done(h, cw, Drop(rootgc, n)[i]) { assert Drop(rootgc, n)[i] == rootgc[i]; }
  }

  /** The object being freed is still there after its open upvalues have been closed. */
  lemma RootStays(h: Heap, h': Heap, cw: bool, r: Ref)
    requires Swept(h, h', cw) && r in h && r in h' && InRoots(h, r)
    ensures InRoots(h', r) && (h[r].body.Thread? <==> h'[r].body.Thread?)
  {
    assert SweptObject(h, h', cw, r);
  }

  lemma FreeSwept(h: Heap, rootgc: seq<Ref>, strt: seq<seq<Ref>>, uvhead: seq<Ref>, r: Ref, cw: bool)
    requires Structured(h, rootgc, strt, uvhead, {r}) && r in h && IsDead(h, cw, r) && !h[r].fixed
    requires h[r].body.Thread? ==> h[r].body.openupval == []
    ensures Swept(h, h - {r}, cw)
  {
    SweptFree(h, r, cw);
  }

  lemma WhiteStart(h: Heap, cw: bool, keep: set<Ref>)
    requires AllWhite(h, cw)
    ensures Tricolour(h, [], [], {}) && MarkedWithin(h, keep) && Marked(h, h, keep) && NoneDead(h, cw)
  {
  }

  lemma BodyStays(h: Heap, h': Heap, r: Ref, keep: set<Ref>)
    requires Marked(h, h', keep) && r in h
    ensures r in h' && h'[r].body == h[r].body
  {
  }

  lemma DarkerNoneDead(h: Heap, h': Heap, keep: set<Ref>, cw: bool)
    requires Darker(h, h', keep) && NoneDead(h, cw)
    ensures NoneDead(h', cw)
  {
  }

  lemma AnchoredStays(h: Heap, h': Heap, mainthread: Ref, registry: Value, keep: set<Ref>)
    requires Marked(h, h', keep) && Anchored(h, mainthread, registry)
    ensures Anchored(h', mainthread, registry)
  {
  }

  /** Whatever the roots reach is still there, the same, and they reach nothing else. */
  ghost predicate Kept(h: Heap, h': Heap, roots: set<Ref>) {
    && (forall r :: Reachable(h, roots, r) ==> r in h && r in h' && SameObject(h, h', r))
    && (forall r :: Reachable(h, roots, r) <==> Reachable(h', roots, r))
  }

  lemma KeptSelf(h: Heap, roots: set<Ref>)
    ensures Kept(h, h, roots)
  {
    forall r | Reachable(h, roots, r) ensures r in h && SameObject(h, h, r) {
      var p :| Path(h, roots, p) && p[|p| - 1] == r;
    }
  }

  lemma KeptTrans(a: Heap, b: Heap, c: Heap, roots: set<Ref>)
    requires Kept(a, b, roots) && Kept(b, c, roots)
    ensures Kept(a, c, roots)
  {
    hide Reachable;
    forall r | Reachable(a, roots, r) ensures r in a && r in c && SameObject(a, c, r) {
      assert Reachable(b, roots, r) && SameObject(a, b, r) && SameObject(b, c, r);
    }
  }

  lemma SweptKeeps(h: Heap, h': Heap, cw: bool, roots: set<Ref>)
    requires Safe(h, cw, roots) && Swept(h, h', cw)
    requires forall r :: Reachable(h, roots, r) <==> Reachable(h', roots, r)
    ensures Kept(h, h', roots)
  {
    hide Reachable;
    forall r | Reachable(h, roots, r) ensures r in h && r in h' && SameObject(h, h', r) {
      ReachableAlive(h, cw, roots, r);
      assert r in h';
      assert SweptObject(h, h', cw, r);
    }
  }

  lemma SweptThread(h: Heap, h': Heap, cw: bool, roots: set<Ref>, th: Ref)
    requires Safe(h, cw, roots) && Swept(h, h', cw) && th in roots && th in h && h[th].body.Thread?
    ensures th in h' && h'[th].body.Thread?
  {
    assert th in AliveSet(h, cw);
    assert th in h';
    assert SweptObject(h, h', cw, th);
  }

  lemma DarkerKeeps(h: Heap, h': Heap, keep: set<Ref>, cw: bool, roots: set<Ref>, mainthread: Ref)
    requires Darker(h, h', keep) && Safe(h, cw, roots) && (NoneDead(h, cw) || AllWhite(h, cw)) && OnlyFixed(h, mainthread)
    ensures Safe(h', cw, roots) && Kept(h, h', roots) && NoneDead(h', cw) && OnlyFixed(h', mainthread)
  {
    SameKids(h, h');
    assert NoneDead(h, cw);
    assert AliveSet(h, cw) == h.Keys && AliveSet(h', cw) == h.Keys;
    ReachSame(h, h', roots, h.Keys);
    forall r | Reachable(h, roots, r) ensures r in h && r in h' && SameObject(h, h', r) {
      ReachableAlive(h, cw, roots, r);
      DarkerSame(h, h', keep, r);
    }
  }

  lemma DarkerSame(h: Heap, h': Heap, keep: set<Ref>, r: Ref)
    requires Darker(h, h', keep) && r in h
    ensures r in h' && SameObject(h, h', r)
  {
  }

  lemma DarkerBodies(h: Heap, h': Heap, keep: set<Ref>, r: Ref)
    requires Darker(h, h', keep) && r in h
    ensures r in h' && h'[r].body == h[r].body
  {
  }

  lemma DarkerAnchored(h: Heap, h': Heap, keep: set<Ref>, cw: bool, mainthread: Ref, registry: Value)
    requires Darker(h, h', keep) && Anchored(h, mainthread, registry)
    ensures Anchored(h', mainthread, registry)
  {
  }

  lemma StructureDarker(h: Heap, h': Heap, keep: set<Ref>, rootgc: seq<Ref>, strt: seq<seq<Ref>>, uvhead: seq<Ref>)
    requires Darker(h, h', keep) && Structured(h, rootgc, strt, uvhead, {})
    ensures Structured(h', rootgc, strt, uvhead, {})
  {
    StructureColours(h, h', rootgc, strt, uvhead, {});
  }

  lemma OpenInRing(h: Heap, rootgc: seq<Ref>, strt: seq<seq<Ref>>, uvhead: seq<Ref>)
    requires Structured(h, rootgc, strt, uvhead, {})
    ensures forall r :: IsOpen(h, r) <==> r in uvhead
  {
  }

  lemma AtLeastOneBucket(h: Heap, rootgc: seq<Ref>, strt: seq<seq<Ref>>, uvhead: seq<Ref>)
    requires Structured(h, rootgc, strt, uvhead, {})
    ensures |strt| > 0
  {
  }

  /** When the whites change places, what the mark phase has not reached is dead. */
  lemma Flipped(h: Heap, cw: bool, roots: set<Ref>)
    requires MarkedClosed(h) && RootsMarked(h, roots) && NoneDead(h, cw)
    ensures Safe(h, !cw, roots)
    ensures forall r :: r in h ==> (IsDead(h, !cw, r) <==> IsWhite(h, r))
  {
    forall r | r in h ensures IsDead(h, !cw, r) <==> IsWhite(h, r) {}
    forall r | r in AliveSet(h, !cw) ensures Kids(h, r) <= AliveSet(h, !cw) { assert KidsMarked(h, r); }
  }

  lemma NoneSwept(h: Heap, cw: bool, rootgc: seq<Ref>, strt: seq<seq<Ref>>, uvhead: seq<Ref>)
    requires Structured(h, rootgc, strt, uvhead, {})
    ensures StringsSwept(h, cw, strt, 0) && |strt| > 0
  {
  }

  lemma AllStringsStay(h: Heap, h': Heap, cw: bool, rootgc: seq<Ref>, strt: seq<seq<Ref>>, uvhead: seq<Ref>)
    requires Swept(h, h', cw) && StringsSwept(h, cw, strt, |strt|) && Structured(h', rootgc, strt, uvhead, {})
    ensures StringsSwept(h', cw, strt, |strt|)
  {
    StringsSweptStays(h, h', cw, strt, strt, |strt|);
  }

  lemma WhiteNoneDead(h: Heap, cw: bool)
    requires AllWhite(h, cw)
    ensures NoneDead(h, cw)
  {
  }

  lemma NoneDeadStay(h: Heap, h': Heap, cw: bool)
    requires Swept(h, h', cw) && NoneDead(h, cw)
    ensures h'.Keys == h.Keys
  {
  }

  /** The objects a complete collection leaves: those in reach and the fixed ones. */
  ghost predicate Exact(h: Heap, h': Heap, roots: set<Ref>) {
    && h'.Keys <= h.Keys
    && forall r :: r in h ==> (r in h' <==> Reachable(h, roots, r) || h[r].fixed)
  }

  /** h0 was marked from its roots and no further, to give h1, whose unmarked objects are dead;
      h2 is h1 swept. */
  lemma ExactSweep(h0: Heap, h1: Heap, h2: Heap, cw: bool, roots: set<Ref>)
    requires SameBodies(h0, h1) && MarkedWithin(h1, ReachSet(h0, roots)) && NoneDead(h1, !cw)
    requires Safe(h1, cw, roots) && Kept(h0, h1, roots) && Swept(h1, h2, cw) && AllWhite(h2, cw)
    ensures Exact(h0, h2, roots)
  {
    hide Reachable;
    forall r | r in h0 ensures r in h2 <==> Reachable(h0, roots, r) || h0[r].fixed {
      if Reachable(h0, roots, r) {
        ReachableAlive(h1, cw, roots, r);
      } else if r in h2 {
        assert SweptObject(h1, h2, cw, r);
        assert r !in ReachSet(h0, roots);
        assert IsWhite(h1, r);
      }
    }
  }

  /** Objects freed before the collection were out of reach and not fixed. */
  lemma ExactAfterSweep(h: Heap, h1: Heap, h2: Heap, cw: bool, roots: set<Ref>)
    requires Safe(h, cw, roots) && Swept(h, h1, cw) && Kept(h, h1, roots) && Exact(h1, h2, roots)
    ensures Exact(h, h2, roots)
  {
    hide Reachable;
    forall r | r in h ensures r in h2 <==> Reachable(h, roots, r) || h[r].fixed {
      if r in h1 { assert SweptObject(h, h1, cw, r); }
    }
  }

  lemma DarkerSelfKept(h: Heap, h1: Heap, h2: Heap, keep: set<Ref>, roots: set<Ref>)
    requires Darker(h, h1, keep) && Darker(h1, h2, keep) && Kept(h, h1, roots) && Kept(h1, h2, roots)
    ensures Darker(h, h2, keep) && Kept(h, h2, roots) && SameBodies(h, h2)
  {
    DarkerTrans(h, h1, h2, keep);
    KeptTrans(h, h1, h2, roots);
  }

  lemma SafeReach(h: Heap, cw: bool, roots: set<Ref>)
    requires Safe(h, cw, roots)
    ensures ClosedIn(h, ReachSet(h, roots)) && roots <= ReachSet(h, roots)
  {
    ReachSetClosed(h, roots, AliveSet(h, cw));
  }

  lemma DarkerBodiesSame(h: Heap, h': Heap, keep: set<Ref>)
    requires Darker(h, h', keep)
    ensures SameBodies(h, h')
  {
  }

  // ---------------------------------------------------------------- the invariant

  /** The fields of the global state that the invariant speaks of. */
  datatype View = View(phase: Phase, cw: bool, gray: seq<Ref>, grayagain: seq<Ref>, rootgc: seq<Ref>, strt: seq<seq<Ref>>,
                       uvhead: seq<Ref>, sweepstrgc: nat, sweepgc: nat, mainthread: Ref, running: Ref, registry: Value, mt: seq<Value>)

  function RootSet(mainthread: Ref, running: Ref, registry: Value, mt: seq<Value>): set<Ref> {
    {mainthread, running} + ValueRefs(registry) + (set v | v in mt && v.Object? :: v.r)
  }

  function RootsOf(c: View): set<Ref> { RootSet(c.mainthread, c.running, c.registry, c.mt) }

  ghost predicate TheThreads(h: Heap, mainthread: Ref, running: Ref) {
    mainthread in h && h[mainthread].body.Thread? && running in h && h[running].body.Thread?
  }

  /** Open upvalues are never black. */
  ghost predicate NoBlackOpen(h: Heap) { forall r :: IsOpen(h, r) ==> !h[r].color.Black? }

  ghost predicate PhaseOk(h: Heap, c: View) {
    match c.phase
    case GCSpause => AllWhite(h, c.cw)
    case GCSpropagate =>
      NoneDead(h, c.cw) && Tricolour(h, c.gray, c.grayagain, {}) && Anchored(h, c.mainthread, c.registry)
    case GCSsweepstring =>
      c.sweepstrgc < |c.strt| && c.sweepgc == 0 && NoBlackOpen(h) && StringsSwept(h, c.cw, c.strt, c.sweepstrgc)
    case GCSsweep =>
      && c.sweepgc <= |c.rootgc| && NoBlackOpen(h)
      && StringsSwept(h, c.cw, c.strt, |c.strt|) && RootsSwept(h, c.cw, c.rootgc, c.sweepgc)
    case GCSfinalize => AllWhite(h, c.cw)
  }

  /** What every step of collector and mutator keeps. */
  ghost predicate Invariant(h: Heap, c: View) {
    && Structured(h, c.rootgc, c.strt, c.uvhead, {}) && Safe(h, c.cw, RootsOf(c))
    && OnlyFixed(h, c.mainthread) && TheThreads(h, c.mainthread, c.running) && PhaseOk(h, c)
  }

  lemma NoBlackSwept(h: Heap, h': Heap, cw: bool)
    requires Swept(h, h', cw) && NoBlackOpen(h)
    ensures NoBlackOpen(h')
  {
    forall r | IsOpen(h', r) ensures !h'[r].color.Black? { assert SweptObject(h, h', cw, r) && IsOpen(h, r); }
  }

  lemma CloseKeepsColour(h: Heap, h': Heap, cw: bool, u: Ref)
    requires Swept(h, h', cw) && u in h && u in h' && h[u].color == White(cw)
    ensures h'[u].color == White(cw)
  {
    assert SweptObject(h, h', cw, u);
  }

  lemma TricolourOpen(h: Heap, gray: seq<Ref>, grayagain: seq<Ref>)
    requires Tricolour(h, gray, grayagain, {})
    ensures NoBlackOpen(h)
  {
  }

  lemma WhiteOpen(h: Heap, cw: bool)
    requires AllWhite(h, cw)
    ensures NoBlackOpen(h)
  {
  }
}
