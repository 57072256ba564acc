/** The incremental mark and sweep collector of lgc.c, its write barriers and the mutator
    operations that use them. */
module Gc {
  import opened GcHeap
  import opened GcColours
  import opened GcLists
  import opened GcSweeping
  import opened GcMutator
  import opened GcEffects
  import opened GcMeaning
  import opened GcRuns

  const GCSWEEPMAX := 40

  class GlobalState {
    var heap: Heap
    var gray: seq<Ref>
    var grayagain: seq<Ref>
    var rootgc: seq<Ref>
    var strt: seq<seq<Ref>>
    var uvhead: seq<Ref>
    var sweepstrgc: nat
    var sweepgc: nat
    var currentwhite: bool
    var gcstate: Phase
    var mainthread: Ref
    var running: Ref
    var registry: Value
    var mt: seq<Value>

    /** lua_newstate: the main thread with its globals, and the registry. */
    constructor (main: Ref, globals: Ref, reg: Ref, buckets: nat, tags: nat)
      requires main != globals && main != reg && globals != reg && buckets > 0
      ensures Valid() && gcstate == GCSpause && mainthread == main && running == main && |mt| == tags
      ensures registry == Object(reg) && (forall k :: 0 <= k < tags ==> mt[k] == Plain) && heap.Keys == {main, globals, reg}
      ensures heap[main].body == Thread(Object(globals), [], []) && heap[main].fixed
      ensures forall r :: r == globals || r == reg ==> heap[r].body == Holder(TTable, []) && !heap[r].fixed
    {
      heap := FirstHeap(main, globals, reg);
      gray, grayagain, uvhead := [], [], [];
      rootgc := [main, globals, reg];
      strt := seq(buckets, _ => []);
      sweepstrgc, sweepgc, currentwhite, gcstate := 0, 0, false, GCSpause;
      mainthread, running, registry, mt := main, main, Object(reg), seq(tags, _ => Plain);
      new;
      hide Invariant;
      FirstInvariant(main, globals, reg, Fields());
    }

    // -------------------------------------------------------------- marking

    /** What every marking step needs and keeps. */
    ghost predicate Marking(busy: set<Ref>, keep: set<Ref>)
      reads this
    {
      Tricolour(heap, gray, grayagain, busy) && ClosedIn(heap, keep)
    }

    /** markobject. */
    method MarkObject(r: Ref, ghost busy: set<Ref>, ghost keep: set<Ref>)
      requires Marking(busy, keep) && r in keep
      modifies this`heap, this`gray
      ensures Marking(busy, keep) && Marked(old(heap), heap, keep) && r in heap && !IsWhite(heap, r)
      ensures Progress(old(heap), old(gray), heap, gray)
      decreases WhiteSet(heap), 2
    {
      if IsWhite(heap, r) {
        ReallyMarkObject(r, busy, keep);
      } else {
        MarkedSelf(heap, keep);
      }
    }

    /** markvalue. */
    method MarkValue(v: Value, ghost busy: set<Ref>, ghost keep: set<Ref>)
      requires Marking(busy, keep) && ValueRefs(v) <= keep
      modifies this`heap, this`gray
      ensures Marking(busy, keep) && Marked(old(heap), heap, keep)
      ensures v.Object? ==> v.r in heap && !IsWhite(heap, v.r)
      ensures Progress(old(heap), old(gray), heap, gray)
      decreases WhiteSet(heap), 3
    {
      MarkedSelf(heap, keep);
      if v.Object? { MarkObject(v.r, busy, keep); }
    }

    /** The marks of a traversal, one reference after the other. */
    method MarkAll(refs: seq<Ref>, ghost busy: set<Ref>, ghost keep: set<Ref>)
      requires Marking(busy, keep) && (forall x :: x in refs ==> x in keep)
      modifies this`heap, this`gray
      ensures Marking(busy, keep) && Marked(old(heap), heap, keep)
      ensures forall x :: x in refs ==> x in heap && !IsWhite(heap, x)
      ensures Progress(old(heap), old(gray), heap, gray)
      decreases WhiteSet(heap), 4
    {
      hide Tricolour, Marked, ClosedIn;
      MarkedSelf(heap, keep);
      var i := 0;
      while i < |refs|
        invariant 0 <= i <= |refs|
        invariant Marking(busy, keep) && Marked(old(heap), heap, keep)
        invariant forall k :: 0 <= k < i ==> refs[k] in heap && !IsWhite(heap, refs[k])
        invariant Progress(old(heap), old(gray), heap, gray)
      {
        ghost var h1 := heap;
        MarkObject(refs[i], busy, keep);
        MarkedTrans(old(heap), h1, heap, keep);
        MarkedStays(h1, heap, keep);
        i := i + 1;
      }
    }

    /** reallymarkobject: white to gray, and what the kind of object asks for. */
    method ReallyMarkObject(o: Ref, ghost busy: set<Ref>, ghost keep: set<Ref>)
      requires Marking(busy, keep) && o in keep && IsWhite(heap, o)
      modifies this`heap, this`gray
      ensures Marking(busy, keep) && Marked(old(heap), heap, keep) && o in heap && !IsWhite(heap, o)
      ensures Progress(old(heap), old(gray), heap, gray)
      decreases WhiteSet(heap), 1
    {
      hide Tricolour, Marked, WhiteSet;
      if heap[o].body.Upval? {
        MarkUpvalue(o, busy, keep);
      } else if heap[o].body.Holder? && heap[o].body.tag == TUserdata {
        MarkUserdata(o, busy, keep);
      } else {
        PaintShrinks(heap, o, Gray);
        PaintClosed(heap, o, Gray, keep);
        if heap[o].body.StringBody? {
          ShadeString(heap, gray, grayagain, busy, o, keep);
        } else {
          ShadeQueued(heap, gray, grayagain, busy, o, keep);
          gray := [o] + gray;
        }
        heap := Paint(heap, o, Gray);
      }
    }

    /** Userdata are never gray: black at once, then their metatable and environment. */
    method MarkUserdata(o: Ref, ghost busy: set<Ref>, ghost keep: set<Ref>)
      requires Marking(busy, keep) && o in keep && IsWhite(heap, o) && heap[o].body.Holder? && heap[o].body.tag == TUserdata
      modifies this`heap, this`gray
      ensures Marking(busy, keep) && Marked(old(heap), heap, keep) && o in heap && !IsWhite(heap, o)
      ensures Progress(old(heap), old(gray), heap, gray)
      decreases WhiteSet(heap), 0
    {
      hide Tricolour, Marked, KidsMarked, Kids;
      ghost var h0 := heap;
      heap := Paint(heap, o, Black);
      ghost var h1 := heap;
      PaintShrinks(h0, o, Black);
      PaintClosed(h0, o, Black, keep);
      ShadeBusy(h0, gray, grayagain, busy, o, Black);
      KeepRefs(heap, o, keep);
      MarkAll(heap[o].body.refs, busy + {o}, keep);
      AllMarked(h1, heap, o, keep);
      ShadeDone(h0, h1, heap, gray, grayagain, busy, o, Black, Black, keep);
      assert Paint(heap, o, Black) == heap;
    }

    /** Upvalues are gray while their value is marked, and stay so when open. */
    method MarkUpvalue(o: Ref, ghost busy: set<Ref>, ghost keep: set<Ref>)
      requires Marking(busy, keep) && o in keep && IsWhite(heap, o) && heap[o].body.Upval?
      modifies this`heap, this`gray
      ensures Marking(busy, keep) && Marked(old(heap), heap, keep) && o in heap && !IsWhite(heap, o)
      ensures Progress(old(heap), old(gray), heap, gray)
      decreases WhiteSet(heap), 0
    {
      hide Tricolour, Marked, KidsMarked, Kids;
      ghost var h0 := heap;
      heap := Paint(heap, o, Gray);
      ghost var h1 := heap;
      PaintShrinks(h0, o, Gray);
      PaintClosed(h0, o, Gray, keep);
      ShadeBusy(h0, gray, grayagain, busy, o, Gray);
      KeepRefs(heap, o, keep);
      MarkValue(UpvalValue(heap, heap[o].body.loc), busy + {o}, keep);
      ghost var h2 := heap;
      ValueMarked(h1, h2, o, keep);
      if heap[o].body.loc.Closed? {
        heap := Paint(heap, o, Black);
        PaintClosed(h2, o, Black, keep);
      }
      ShadeDone(h0, h1, h2, gray, grayagain, busy, o, Gray, heap[o].color, keep);
      assert Paint(h2, o, heap[o].color) == heap;
    }

    // -------------------------------------------------------------- the mark phase

    /** propagatemark: one gray object is traversed. */
    method PropagateMark(ghost keep: set<Ref>)
      requires Marking({}, keep) && MarkedWithin(heap, keep) && gray != []
      modifies this`heap, this`gray, this`grayagain
      ensures Marking({}, keep) && MarkedWithin(heap, keep) && Darker(old(heap), heap, keep)
      ensures WhiteSet(heap) < WhiteSet(old(heap)) || (WhiteSet(heap) == WhiteSet(old(heap)) && |gray| < |old(gray)|)
      ensures grayagain == old(grayagain) || Regrayed(heap, old(gray)[0], old(grayagain), grayagain)
    {
      assert gray[0] in heap && heap[gray[0]].color.Gray? && Queued(heap[gray[0]].body) && gray[0] in keep;
      hide Tricolour, Darker, KidsMarked, Kids, WhiteSet;
      if heap[gray[0]].body.Thread? { PropagateThread(keep); } else { PropagateHolder(keep); }
      WithinDarker(old(heap), heap, keep);
    }

    /** A thread is traversed but stays gray, in grayagain. */
    method PropagateThread(ghost keep: set<Ref>)
      requires Marking({}, keep) && gray != [] && gray[0] in keep && heap[gray[0]].body.Thread?
      modifies this`heap, this`gray, this`grayagain
      ensures Marking({}, keep) && Darker(old(heap), heap, keep)
      ensures WhiteSet(heap) < WhiteSet(old(heap)) || (WhiteSet(heap) == WhiteSet(old(heap)) && |gray| < |old(gray)|)
      ensures Regrayed(heap, old(gray)[0], old(grayagain), grayagain)
    {
      var o := gray[0];
      ghost var h0 := heap;
      assert !IsWhite(heap, o);
      hide Tricolour, Marked, Darker, KidsMarked, Kids, WhiteSet, ClosedIn;
      Requeue(heap, gray, grayagain);
      gray := gray[1..];
      grayagain := [o] + grayagain;
      KeepThreadRefs(heap, o, keep);
      MarkValue(heap[o].body.globals, {}, keep);
      ghost var h1 := heap;
      MarkedSelfBody(h0, h1, o, keep);
      MarkStack(o, keep);
      MarkedTrans(h0, h1, heap, keep);
      ThreadMarked(h0, h1, heap, o, keep);
      MarkedDarker(h0, heap, keep);
    }

    /** Any other gray object turns black. */
    method PropagateHolder(ghost keep: set<Ref>)
      requires Marking({}, keep) && gray != [] && gray[0] in keep && heap[gray[0]].body.Holder?
      modifies this`heap, this`gray
      ensures Marking({}, keep) && Darker(old(heap), heap, keep)
      ensures WhiteSet(heap) < WhiteSet(old(heap)) || (WhiteSet(heap) == WhiteSet(old(heap)) && |gray| < |old(gray)|)
    {
      var o := gray[0];
      ghost var h0 := heap;
      assert h0[o].color.Gray?;
      PaintGray(h0, o);
      hide Tricolour, Marked, Darker, KidsMarked, Kids, WhiteSet, ClosedIn;
      Dequeue(heap, gray, grayagain, keep);
      gray := gray[1..];
      heap := Paint(heap, o, Black);
      ghost var h1 := heap;
      KeepRefs(heap, o, keep);
      MarkAll(heap[o].body.refs, {o}, keep);
      AllMarked(h1, heap, o, keep);
      Blackened(h0, h1, heap, gray, grayagain, o, keep);
    }

    /** The stack loop of traversestack. */
    method MarkStack(th: Ref, ghost keep: set<Ref>)
      requires Marking({}, keep) && th in heap && heap[th].body.Thread? && !IsWhite(heap, th)
      requires forall v :: v in heap[th].body.stack ==> ValueRefs(v) <= keep
      modifies this`heap, this`gray
      ensures Marking({}, keep) && Marked(old(heap), heap, keep) && Progress(old(heap), old(gray), heap, gray)
      ensures forall v :: v in old(heap)[th].body.stack && v.Object? ==> v.r in heap && !IsWhite(heap, v.r)
    {
      hide Tricolour, Marked, ClosedIn, WhiteSet;
      MarkedSelf(heap, keep);
      var stack := heap[th].body.stack;
      var i := 0;
      while i < |stack|
        invariant 0 <= i <= |stack|
        invariant Marking({}, keep) && Marked(old(heap), heap, keep) && Progress(old(heap), old(gray), heap, gray)
        invariant forall k :: 0 <= k < i && stack[k].Object? ==> stack[k].r in heap && !IsWhite(heap, stack[k].r)
      {
        ghost var h1 := heap;
        MarkValue(stack[i], {}, keep);
        MarkedTrans(old(heap), h1, heap, keep);
        MarkedStays(h1, heap, keep);
        i := i + 1;
      }
    }

    /** propagateall. */
    method PropagateAll(ghost keep: set<Ref>)
      requires Marking({}, keep) && MarkedWithin(heap, keep)
      modifies this`heap, this`gray, this`grayagain
      ensures Marking({}, keep) && MarkedWithin(heap, keep) && Darker(old(heap), heap, keep) && gray == []
      ensures ThreadsDone(old(heap), old(grayagain)) ==> ThreadsDone(heap, grayagain)
    {
      hide Tricolour, Darker, ClosedIn, MarkedWithin, WhiteSet;
      DarkerSelf(heap, keep);
      while gray != []
        invariant Marking({}, keep) && MarkedWithin(heap, keep) && Darker(old(heap), heap, keep)
        invariant ThreadsDone(old(heap), old(grayagain)) ==> ThreadsDone(heap, grayagain)
        decreases WhiteSet(heap), |gray|
      {
        ghost var h1, g1, ga1 := heap, gray, grayagain;
        PropagateMark(keep);
        DarkerTrans(old(heap), h1, heap, keep);
        ThreadsStayDone(h1, heap, g1[0], ga1, grayagain, keep);
      }
    }

    /** remarkupvals: values of open upvalues that are gray, whatever thread they belong to. */
    method RemarkUpvals(ghost keep: set<Ref>)
      requires Marking({}, keep) && MarkedWithin(heap, keep)
      requires forall r :: IsOpen(heap, r) ==> r in uvhead
      requires forall r :: r in uvhead ==> IsOpen(heap, r)
      modifies this`heap, this`gray
      ensures Marking({}, keep) && MarkedWithin(heap, keep) && Darker(old(heap), heap, keep)
      ensures UpvalsMarked(heap)
    {
      hide Tricolour, Darker, ClosedIn, MarkedWithin, Marked, KidsMarked, Kids;
      DarkerSelf(heap, keep);
      var i := 0;
      while i < |uvhead|
        invariant 0 <= i <= |uvhead|
        invariant Marking({}, keep) && MarkedWithin(heap, keep) && Darker(old(heap), heap, keep)
        invariant forall k :: 0 <= k < i && IsOpen(heap, uvhead[k]) && !IsWhite(heap, uvhead[k]) ==> KidsMarked(heap, uvhead[k])
      {
        var uv := uvhead[i];
        ghost var h1 := heap;
        StillOpen(old(heap), heap, uv, keep);
        if heap[uv].color.Gray? {
          UpvalKeep(heap, uv, keep);
          MarkValue(UpvalValue(heap, heap[uv].body.loc), {}, keep);
          ValueMarked(h1, heap, uv, keep);
          MarkedDarker(h1, heap, keep);
          DarkerTrans(old(heap), h1, heap, keep);
          WithinDarker(h1, heap, keep);
          UpvalsStayMarked(h1, heap, uvhead[..i], keep);
        } else {
          NeverBlack(heap, gray, grayagain, uv);
        }
        i := i + 1;
      }
      RingMarked(old(heap), heap, uvhead, keep);
    }

    /** markmt: the metatables of the basic types. */
    method MarkMt(ghost keep: set<Ref>)
      requires Marking({}, keep) && forall v :: v in mt ==> ValueRefs(v) <= keep
      modifies this`heap, this`gray
      ensures Marking({}, keep) && Marked(old(heap), heap, keep)
      ensures forall v :: v in mt && v.Object? ==> v.r in heap && !IsWhite(heap, v.r)
    {
      hide Tricolour, Marked, ClosedIn;
      MarkedSelf(heap, keep);
      var i := 0;
      while i < |mt|
        invariant 0 <= i <= |mt|
        invariant Marking({}, keep) && Marked(old(heap), heap, keep)
        invariant forall k :: 0 <= k < i && mt[k].Object? ==> mt[k].r in heap && !IsWhite(heap, mt[k].r)
      {
        ghost var h1 := heap;
        MarkValue(mt[i], {}, keep);
        MarkedTrans(old(heap), h1, heap, keep);
        MarkedStays(h1, heap, keep);
        i := i + 1;
      }
    }

    ghost function Roots(): set<Ref>
      reads this
    {
      RootSet(mainthread, running, registry, mt)
    }

    /** The part of atomic that remarks what the mutator may have used without a barrier. */
    method RemarkRoots(ghost keep: set<Ref>)
      requires Marking({}, keep) && MarkedWithin(heap, keep) && Roots() <= keep && UpvalsMarked(heap)
      modifies this`heap, this`gray
      ensures Marking({}, keep) && MarkedWithin(heap, keep) && Darker(old(heap), heap, keep) && UpvalsMarked(heap)
      ensures running in heap && !IsWhite(heap, running)
      ensures forall v :: v in mt && v.Object? ==> v.r in heap && !IsWhite(heap, v.r)
    {
      hide Tricolour, Darker, ClosedIn, MarkedWithin, Marked, KidsMarked, Kids;
      ghost var h2 := heap;
      MarkObject(running, {}, keep);
      ghost var h3 := heap;
      MarkMt(keep);
      MarkedTrans(h2, h3, heap, keep);
      MarkedDarker(h2, heap, keep);
      MarkedStays(h3, heap, keep);
      WithinDarker(h2, heap, keep);
      UpvalsStay(h2, heap, keep);
    }

    /** propagateall, with what the mark phase has reached staying reached. */
    method PropagateOn(ghost keep: set<Ref>)
      requires Marking({}, keep) && MarkedWithin(heap, keep) && UpvalsMarked(heap)
      modifies this`heap, this`gray, this`grayagain
      ensures Marking({}, keep) && MarkedWithin(heap, keep) && Darker(old(heap), heap, keep) && gray == [] && UpvalsMarked(heap)
      ensures ThreadsDone(old(heap), old(grayagain)) ==> ThreadsDone(heap, grayagain)
      ensures forall r :: r in old(heap) && !IsWhite(old(heap), r) ==> r in heap && !IsWhite(heap, r)
    {
      hide Tricolour, Darker, ClosedIn, MarkedWithin, Marked, KidsMarked, Kids;
      PropagateAll(keep);
      UpvalsStay(old(heap), heap, keep);
      RootsStay(old(heap), heap, keep);
    }

    /** Up to the roots: open upvalues, then what the barriers caught, then the roots again. */
    method AtomicFirst(ghost keep: set<Ref>)
      requires Marking({}, keep) && MarkedWithin(heap, keep) && Roots() <= keep
      requires forall r :: IsOpen(heap, r) <==> r in uvhead
      requires Anchored(heap, mainthread, registry)
      modifies this`heap, this`gray, this`grayagain
      ensures Marking({}, keep) && MarkedWithin(heap, keep) && Darker(old(heap), heap, keep) && UpvalsMarked(heap)
      ensures gray == [] && RootsMarked(heap, Roots())
    {
      hide Tricolour, Darker, ClosedIn, MarkedWithin, Marked, KidsMarked, Kids;
      RemarkUpvals(keep);
      ghost var h1 := heap;
      PropagateOn(keep);
      ghost var h2 := heap;
      DarkerTrans(old(heap), h1, h2, keep);
      gray := [];
      RemarkRoots(keep);
      ghost var h3 := heap;
      DarkerTrans(old(heap), h2, h3, keep);
      PropagateOn(keep);
      DarkerTrans(old(heap), h3, heap, keep);
      RootsStay(old(heap), heap, keep);
    }

    /** atomic: the end of the mark phase, and the change of white. */
    method Atomic(ghost keep: set<Ref>)
      requires Marking({}, keep) && MarkedWithin(heap, keep) && Roots() <= keep
      requires forall r :: IsOpen(heap, r) <==> r in uvhead
      requires Anchored(heap, mainthread, registry)
      modifies this`heap, this`gray, this`grayagain, this`currentwhite, this`sweepstrgc, this`sweepgc, this`gcstate
      ensures Darker(old(heap), heap, keep) && MarkedWithin(heap, keep)
      ensures NoBlackOpen(heap) && MarkedClosed(heap) && RootsMarked(heap, Roots())
      ensures currentwhite == !old(currentwhite) && gcstate == GCSsweepstring && sweepstrgc == 0 && sweepgc == 0
    {
      hide Tricolour, Darker, ClosedIn, MarkedWithin, Marked, KidsMarked, Kids, ThreadsDone, UpvalsMarked, Anchored, IsOpen, MarkedClosed, RootsMarked, WhiteSet, NoBlackOpen;
      AtomicFirst(keep);
      ghost var h1 := heap;
      AgainIsGray(heap, grayagain);
      NoThreads(heap);
      gray := grayagain;
      grayagain := [];
      PropagateOn(keep);
      DarkerTrans(old(heap), h1, heap, keep);
      RootsMarkedStay(h1, heap, Roots(), keep);
      AllMarkedClosed(heap, grayagain);
      TricolourOpen(heap, gray, grayagain);
      currentwhite := !currentwhite;
      sweepstrgc := 0;
      sweepgc := 0;
      gcstate := GCSsweepstring;
    }

    // -------------------------------------------------------------- the sweep phase

    /** sweeplist's test, (marked ^ WHITEBITS) & deadmask: not dead, or fixed. */
    predicate Survives(r: Ref)
      requires r in heap
      reads this
    {
      heap[r].color != White(!currentwhite) || heap[r].fixed
    }

    /** sweepwholelist on a bucket of the string table. */
    method SweepBucket(b: nat)
      requires Structured(heap, rootgc, strt, uvhead, {}) && b < |strt|
      modifies this`heap, this`strt
      ensures Structured(heap, rootgc, strt, uvhead, {}) && Swept(old(heap), heap, currentwhite) && |strt| == |old(strt)|
      ensures forall r :: r in strt[b] ==> r in heap && heap[r].color == White(currentwhite)
      ensures forall c, r :: 0 <= c < |strt| && r in strt[c] ==> r in old(strt)[c]
    {
      hide Structured, Swept, Drop;
      SweptSelf(heap, currentwhite);
      var i := 0;
      while i < |strt[b]|
        invariant |strt| == |old(strt)| && 0 <= i <= |strt[b]|
        invariant Structured(heap, rootgc, strt, uvhead, {}) && Swept(old(heap), heap, currentwhite)
        invariant forall k :: 0 <= k < i ==> strt[b][k] in heap && heap[strt[b][k]].color == White(currentwhite)
        invariant forall c, r :: 0 <= c < |strt| && r in strt[c] ==> r in old(strt)[c]
        decreases |strt[b]| - i
      {
        var curr := strt[b][i];
        ghost var h := heap;
        StringThere(heap, rootgc, strt, uvhead, b, i);
        if Survives(curr) {
          SweptWhiten(heap, curr, currentwhite);
          StructureColours(heap, Paint(heap, curr, White(currentwhite)), rootgc, strt, uvhead, {});
          heap := Paint(heap, curr, White(currentwhite));
          i := i + 1;
        } else {
          StructureFreeString(heap, rootgc, strt, uvhead, b, i);
          StringFrees(heap, rootgc, strt, uvhead, b, i);
          SweptFreeString(heap, rootgc, strt, uvhead, curr, currentwhite);
          strt := strt[b := Drop(strt[b], i)];
          heap := heap - {curr};
        }
        SweptTrans(old(heap), h, heap, currentwhite);
      }
    }

    /** unlinkupval: out of the ring of open upvalues. */
    method UnlinkUpval(u: Ref) returns (ghost i: nat)
      requires u in uvhead
      modifies this`uvhead
      ensures i < |old(uvhead)| && old(uvhead)[i] == u && uvhead == Drop(old(uvhead), i)
    {
      var k := 0;
      while uvhead[k] != u
        invariant 0 <= k < |uvhead| && u !in uvhead[..k]
        decreases |uvhead| - k
      {
        assert uvhead[..k + 1] == uvhead[..k] + [uvhead[k]];
        k := k + 1;
      }
      i := k;
      uvhead := Drop(uvhead, k);
    }

    /** sweepwholelist on the open upvalues of a thread. */
    method SweepOpen(th: Ref)
      requires Structured(heap, rootgc, strt, uvhead, {}) && th in heap && heap[th].body.Thread?
      modifies this`heap, this`uvhead
      ensures Structured(heap, rootgc, strt, uvhead, {}) && Swept(old(heap), heap, currentwhite) && |uvhead| <= |old(uvhead)|
      ensures th in heap && heap[th].body.Thread? && heap[th].color == old(heap)[th].color && heap[th].fixed == old(heap)[th].fixed
      ensures forall u :: u in heap[th].body.openupval ==> u in heap && heap[u].color == White(currentwhite)
    {
      hide Structured, Swept, Drop;
      SweptSelf(heap, currentwhite);
      var i := 0;
      while i < |heap[th].body.openupval|
        invariant th in heap && heap[th].body.Thread? && 0 <= i <= |heap[th].body.openupval| && |uvhead| <= |old(uvhead)|
        invariant heap[th].color == old(heap)[th].color && heap[th].fixed == old(heap)[th].fixed
        invariant Structured(heap, rootgc, strt, uvhead, {}) && Swept(old(heap), heap, currentwhite)
        invariant forall k :: 0 <= k < i ==> heap[th].body.openupval[k] in heap && heap[heap[th].body.openupval[k]].color == White(currentwhite)
        decreases |heap[th].body.openupval| - i
      {
        var curr := heap[th].body.openupval[i];
        ghost var h := heap;
        OpenThere(heap, rootgc, strt, uvhead, {}, th, i);
        if Survives(curr) {
          SweptWhiten(heap, curr, currentwhite);
          StructureColours(heap, Paint(heap, curr, White(currentwhite)), rootgc, strt, uvhead, {});
          heap := Paint(heap, curr, White(currentwhite));
          i := i + 1;
        } else {
          ghost var ring := uvhead;
          ghost var k := UnlinkUpval(curr);
          StructureFreeOpen(heap, rootgc, strt, ring, {}, th, i, k);
          OpenFrees(heap, rootgc, strt, ring, {}, th, i, currentwhite);
          DropLength(ring, k);
          DropLength(heap[th].body.openupval, i);
          heap := FreeOpen(heap, th, i);
        }
        SweptTrans(old(heap), h, heap, currentwhite);
      }
    }

    /** The pointer sweepgc into the root list, when an object is put in at position i. */
    function Shifted(i: nat): nat
      reads this
    {
      if sweepgc <= i then sweepgc else sweepgc + 1
    }

    /** What luaF_close does to the topmost open upvalue of a thread when it is not dead, up to
        its colour: it gets its value and joins the root list. */
    method CloseHead(th: Ref, ghost out: set<Ref>) returns (u: Ref, ghost k: nat)
      requires Structured(heap, rootgc, strt, uvhead, out) && th in heap && heap[th].body.Thread? && heap[th].body.openupval != []
      requires heap[th].body.openupval[0] !in out
      modifies this`heap, this`uvhead, this`rootgc, this`sweepgc
      ensures IsOpen(old(heap), old(heap)[th].body.openupval[0]) && u == old(heap)[th].body.openupval[0] && u != th
      ensures heap == CloseTop(old(heap), th) && Structured(heap, rootgc, strt, uvhead, out)
      ensures rootgc == [u] + old(rootgc) && sweepgc == old(Shifted(0)) && |uvhead| == |old(uvhead)| - 1
      ensures k < |old(uvhead)| && old(uvhead)[k] == u && uvhead == Drop(old(uvhead), k)
    {
      hide Structured, Swept, Drop;
      u := heap[th].body.openupval[0];
      OpenThere(heap, rootgc, strt, uvhead, out, th, 0);
      ghost var ring := uvhead;
      k := UnlinkUpval(u);
      StructureCloseTop(heap, rootgc, strt, ring, out, th, k);
      DropLength(ring, k);
      heap := CloseTop(heap, th);
      sweepgc := Shifted(0);
      rootgc := [u] + rootgc;
    }

    /** luaF_close on the whole stack of a thread that is being freed, its open upvalues swept. */
    method CloseAll(th: Ref)
      requires Structured(heap, rootgc, strt, uvhead, {th}) && th in heap && heap[th].body.Thread?
      requires forall u :: u in heap[th].body.openupval ==> u in heap && heap[u].color == White(currentwhite)
      requires RootsSwept(heap, currentwhite, rootgc, sweepgc) && sweepgc <= |rootgc|
      modifies this`heap, this`uvhead, this`rootgc, this`sweepgc
      ensures Structured(heap, rootgc, strt, uvhead, {th}) && Swept(old(heap), heap, currentwhite) && sweepgc <= |rootgc|
      ensures th in heap && heap[th].body.Thread? && heap[th].body.openupval == [] && heap[th].color == old(heap)[th].color
      ensures heap[th].fixed == old(heap)[th].fixed
      ensures RootsSwept(heap, currentwhite, rootgc, sweepgc)
      ensures |uvhead| < |old(uvhead)| || (uvhead == old(uvhead) && rootgc == old(rootgc) && sweepgc == old(sweepgc))
    {
      hide Structured, Swept, Drop, RootsSwept;
      SweptSelf(heap, currentwhite);
      while heap[th].body.openupval != []
        invariant th in heap && heap[th].body.Thread? && heap[th].color == old(heap)[th].color
        invariant heap[th].fixed == old(heap)[th].fixed
        invariant Structured(heap, rootgc, strt, uvhead, {th}) && Swept(old(heap), heap, currentwhite) && sweepgc <= |rootgc|
        invariant forall u :: u in heap[th].body.openupval ==> u in heap && heap[u].color == White(currentwhite)
        invariant RootsSwept(heap, currentwhite, rootgc, sweepgc)
        invariant |uvhead| < |old(uvhead)| || (uvhead == old(uvhead) && rootgc == old(rootgc) && sweepgc == old(sweepgc))
        decreases |heap[th].body.openupval|
      {
        ghost var h, roots, n := heap, rootgc, sweepgc;
        OpenThere(heap, rootgc, strt, uvhead, {th}, th, 0);
        CloseSweeps(heap, rootgc, strt, uvhead, th, currentwhite);
        var u, _ := CloseHead(th, {th});
        SweptTrans(old(heap), h, heap, currentwhite);
        CloseKeepsColour(h, heap, currentwhite, u);
        RootsSweptGrows(h, heap, currentwhite, roots, strt, uvhead, n, u, {th});
      }
    }

    /** One round of sweeplist on the root list. */
    method SweepOne()
      requires Structured(heap, rootgc, strt, uvhead, {}) && sweepgc < |rootgc|
      requires RootsSwept(heap, currentwhite, rootgc, sweepgc)
      modifies this`heap, this`uvhead, this`rootgc, this`sweepgc
      ensures Structured(heap, rootgc, strt, uvhead, {}) && Swept(old(heap), heap, currentwhite) && sweepgc <= |rootgc|
      ensures RootsSwept(heap, currentwhite, rootgc, sweepgc)
      ensures LessLeft(|old(uvhead)|, |old(rootgc)| - old(sweepgc), |uvhead|, |rootgc| - sweepgc)
    {
      hide Structured, Swept, Drop, RootsSwept;
      var curr := rootgc[sweepgc];
      RootThere(heap, rootgc, strt, uvhead, sweepgc);
      SweptSelf(heap, currentwhite);
      if heap[curr].body.Thread? { SweepOpen(curr); }
      ghost var h := heap;
      RootsStaySwept(old(heap), h, currentwhite, rootgc, strt, uvhead, sweepgc, {});
      if Survives(curr) {
        SweptWhiten(h, curr, currentwhite);
        StructureColours(h, Paint(h, curr, White(currentwhite)), rootgc, strt, uvhead, {});
        heap := Paint(heap, curr, White(currentwhite));
        RootsSweptNext(h, heap, currentwhite, rootgc, strt, uvhead, sweepgc);
        sweepgc := sweepgc + 1;
      } else {
        FreeRoot(curr);
      }
      SweptTrans(old(heap), h, heap, currentwhite);
    }

    /** The else branch of sweeplist: unlinked, then freed by freeobj. */
    method FreeRoot(curr: Ref)
      requires Structured(heap, rootgc, strt, uvhead, {}) && sweepgc < |rootgc| && curr == rootgc[sweepgc] && InRoots(heap, curr)
      requires RootsSwept(heap, currentwhite, rootgc, sweepgc)
      requires IsDead(heap, currentwhite, curr) && !heap[curr].fixed
      requires heap[curr].body.Thread? ==> forall u :: u in heap[curr].body.openupval ==> u in heap && heap[u].color == White(currentwhite)
      modifies this`heap, this`uvhead, this`rootgc, this`sweepgc
      ensures Structured(heap, rootgc, strt, uvhead, {}) && Swept(old(heap), heap, currentwhite) && sweepgc <= |rootgc|
      ensures RootsSwept(heap, currentwhite, rootgc, sweepgc)
      ensures LessLeft(|old(uvhead)|, |old(rootgc)| - old(sweepgc), |uvhead|, |rootgc| - sweepgc)
    {
      hide Structured, Swept, Drop, RootsSwept;
      StructureUnlink(heap, rootgc, strt, uvhead, sweepgc);
      RootsSweptDrop(heap, currentwhite, rootgc, sweepgc);
      DropLength(rootgc, sweepgc);
      rootgc := Drop(rootgc, sweepgc);
      SweptSelf(heap, currentwhite);
      if heap[curr].body.Thread? { CloseAll(curr); }
      ghost var h := heap;
      RootStays(old(heap), h, currentwhite, curr);
      StructureFree(h, rootgc, strt, uvhead, curr);
      FreeSwept(h, rootgc, strt, uvhead, curr, currentwhite);
      heap := heap - {curr};
      SweptTrans(old(heap), h, heap, currentwhite);
      RootsStaySwept(h, heap, currentwhite, rootgc, strt, uvhead, sweepgc, {});
    }

    /** sweeplist from sweepgc on, at most GCSWEEPMAX objects. */
    method SweepList()
      requires Structured(heap, rootgc, strt, uvhead, {}) && sweepgc <= |rootgc|
      requires RootsSwept(heap, currentwhite, rootgc, sweepgc)
      modifies this`heap, this`uvhead, this`rootgc, this`sweepgc
      ensures Structured(heap, rootgc, strt, uvhead, {}) && Swept(old(heap), heap, currentwhite) && sweepgc <= |rootgc|
      ensures RootsSwept(heap, currentwhite, rootgc, sweepgc)
      ensures LessLeft(|old(uvhead)|, |old(rootgc)| - old(sweepgc), |uvhead|, |rootgc| - sweepgc) || sweepgc == |rootgc|
    {
      hide Structured, Swept, RootsSwept;
      SweptSelf(heap, currentwhite);
      var count := GCSWEEPMAX;
      while sweepgc < |rootgc| && count > 0
        invariant 0 <= count <= GCSWEEPMAX
        invariant Structured(heap, rootgc, strt, uvhead, {}) && Swept(old(heap), heap, currentwhite) && sweepgc <= |rootgc|
        invariant RootsSwept(heap, currentwhite, rootgc, sweepgc)
        invariant (count == GCSWEEPMAX && uvhead == old(uvhead) && rootgc == old(rootgc) && sweepgc == old(sweepgc))
               || LessLeft(|old(uvhead)|, |old(rootgc)| - old(sweepgc), |uvhead|, |rootgc| - sweepgc)
        decreases count
      {
        ghost var h := heap;
        SweepOne();
        SweptTrans(old(heap), h, heap, currentwhite);
        count := count - 1;
      }
    }

    /** sweepstrstep. */
    method SweepStringStep()
      requires Structured(heap, rootgc, strt, uvhead, {}) && sweepstrgc < |strt|
      requires StringsSwept(heap, currentwhite, strt, sweepstrgc) && gcstate == GCSsweepstring
      modifies this`heap, this`strt, this`sweepstrgc, this`gcstate
      ensures Structured(heap, rootgc, strt, uvhead, {}) && Swept(old(heap), heap, currentwhite) && |strt| == |old(strt)|
      ensures sweepstrgc == old(sweepstrgc) + 1 && StringsSwept(heap, currentwhite, strt, sweepstrgc)
      ensures gcstate == if sweepstrgc == |strt| then GCSsweep else GCSsweepstring
    {
      hide Swept, RootList, OpenLists, UvRing;
      ghost var before := strt;
      SweepBucket(sweepstrgc);
      StringsSweptStays(old(heap), heap, currentwhite, before, strt, sweepstrgc);
      sweepstrgc := sweepstrgc + 1;
      if sweepstrgc >= |strt| { gcstate := GCSsweep; }
    }

    /** The roots markroot marks first: main thread, its global table, registry. */
    method MarkAnchors(ghost keep: set<Ref>)
      requires Marking({}, keep) && Threads() && {mainthread} + ValueRefs(registry) <= keep
      modifies this`heap, this`gray
      ensures Marking({}, keep) && Marked(old(heap), heap, keep) && Anchored(heap, mainthread, registry)
    {
      hide Tricolour, ClosedIn, Marked, Kids, KidsMarked, WhiteSet, Progress, IsWhite, UpvalValue;
      KeepThreadRefs(heap, mainthread, keep);
      MarkObject(mainthread, {}, keep);
      ghost var h1 := heap;
      BodyStays(old(heap), h1, mainthread, keep);
      MarkValue(heap[mainthread].body.globals, {}, keep);
      ghost var h2 := heap;
      MarkedTrans(old(heap), h1, h2, keep);
      MarkValue(registry, {}, keep);
      MarkedTrans(old(heap), h2, heap, keep);
      MarkedStays(h1, h2, keep);
      MarkedStays(h2, heap, keep);
    }

    /** markroot. */
    method MarkRoot(ghost keep: set<Ref>)
      requires AllWhite(heap, currentwhite) && ClosedIn(heap, keep) && Roots() <= keep && Threads()
      modifies this`heap, this`gray, this`grayagain, this`gcstate
      ensures Marking({}, keep) && MarkedWithin(heap, keep) && Darker(old(heap), heap, keep) && Anchored(heap, mainthread, registry)
      ensures NoneDead(heap, currentwhite) && gcstate == GCSpropagate
    {
      hide Tricolour, ClosedIn, Marked, Darker, Kids, KidsMarked, AllWhite, MarkedWithin, NoneDead, Anchored, IsWhite;
      WhiteStart(heap, currentwhite, keep);
      gray := [];
      grayagain := [];
      MarkAnchors(keep);
      ghost var h1 := heap;
      MarkMt(keep);
      MarkedTrans(old(heap), h1, heap, keep);
      AnchoredStays(h1, heap, mainthread, registry, keep);
      MarkedDarker(old(heap), heap, keep);
      WithinDarker(old(heap), heap, keep);
      DarkerNoneDead(old(heap), heap, keep, currentwhite);
      gcstate := GCSpropagate;
    }

    // -------------------------------------------------------------- the invariant

    ghost function Fields(): View
      reads this
    {
      View(gcstate, currentwhite, gray, grayagain, rootgc, strt, uvhead, sweepstrgc, sweepgc, mainthread, running, registry, mt)
    }

    ghost predicate Threads()
      reads this
    {
      TheThreads(heap, mainthread, running)
    }

    ghost predicate Valid()
      reads this
    {
      Invariant(heap, Fields())
    }

    /** A set the mark phase may stay within: closed, with the roots and all that is marked. */
    ghost predicate Bounded(keep: set<Ref>)
      reads this
    {
      && (gcstate == GCSpause || gcstate == GCSpropagate ==> ClosedIn(heap, keep) && Roots() <= keep)
      && (gcstate == GCSpropagate ==> MarkedWithin(heap, keep))
    }

    // -------------------------------------------------------------- singlestep

    method StepPause(ghost keep: set<Ref>)
      requires Valid() && Bounded(keep) && (gcstate == GCSpause || gcstate == GCSfinalize) && ClosedIn(heap, keep) && Roots() <= keep
      modifies this`heap, this`gray, this`grayagain, this`gcstate
      ensures Valid() && Bounded(keep) && gcstate == GCSpropagate
      ensures Darker(old(heap), heap, keep) && Kept(old(heap), heap, Roots())
    {
      hide Structured, Safe, OnlyFixed, ClosedIn, Tricolour, AllWhite, Darker, MarkedWithin, NoneDead, Anchored, Kept;
      MarkRoot(keep);
      DarkerKeeps(old(heap), heap, keep, currentwhite, Roots(), mainthread);
      DarkerBodies(old(heap), heap, keep, mainthread);
      DarkerBodies(old(heap), heap, keep, running);
      StructureDarker(old(heap), heap, keep, rootgc, strt, uvhead);
    }

    method StepPropagate(ghost keep: set<Ref>)
      requires Valid() && Bounded(keep) && gcstate == GCSpropagate && gray != []
      modifies this`heap, this`gray, this`grayagain
      ensures Valid() && Bounded(keep)
      ensures Darker(old(heap), heap, keep) && Kept(old(heap), heap, Roots())
      ensures WhiteSet(heap) < WhiteSet(old(heap)) || (WhiteSet(heap) == WhiteSet(old(heap)) && |gray| < |old(gray)|)
    {
      hide Structured, Safe, OnlyFixed, ClosedIn, Tricolour, AllWhite, Darker, MarkedWithin, NoneDead, Anchored, WhiteSet, Kept;
      PropagateMark(keep);
      DarkerKeeps(old(heap), heap, keep, currentwhite, Roots(), mainthread);
      DarkerAnchored(old(heap), heap, keep, currentwhite, mainthread, registry);
      DarkerBodies(old(heap), heap, keep, mainthread);
      DarkerBodies(old(heap), heap, keep, running);
      StructureDarker(old(heap), heap, keep, rootgc, strt, uvhead);
    }

    method StepAtomic(ghost keep: set<Ref>)
      requires Valid() && Bounded(keep) && gcstate == GCSpropagate && gray == []
      modifies this`heap, this`gray, this`grayagain, this`currentwhite, this`sweepstrgc, this`sweepgc, this`gcstate
      ensures Valid() && gcstate == GCSsweepstring && currentwhite == !old(currentwhite)
      ensures Darker(old(heap), heap, keep) && Kept(old(heap), heap, Roots())
      ensures MarkedWithin(heap, keep) && NoneDead(heap, !currentwhite)
    {
      hide Structured, Safe, OnlyFixed, ClosedIn, Tricolour, AllWhite, Darker, MarkedWithin, NoneDead, Anchored, MarkedClosed, RootsMarked, Kept;
      OpenInRing(heap, rootgc, strt, uvhead);
      Atomic(keep);
      DarkerKeeps(old(heap), heap, keep, !currentwhite, Roots(), mainthread);
      DarkerAnchored(old(heap), heap, keep, !currentwhite, mainthread, registry);
      DarkerBodies(old(heap), heap, keep, mainthread);
      DarkerBodies(old(heap), heap, keep, running);
      StructureDarker(old(heap), heap, keep, rootgc, strt, uvhead);
      Flipped(heap, !currentwhite, Roots());
      NoneSwept(heap, currentwhite, rootgc, strt, uvhead);
    }

    method StepSweepString()
      requires Valid() && gcstate == GCSsweepstring
      modifies this`heap, this`strt, this`sweepstrgc, this`gcstate
      ensures Valid() && Swept(old(heap), heap, currentwhite) && Kept(old(heap), heap, Roots())
      ensures |strt| == |old(strt)| && sweepstrgc == old(sweepstrgc) + 1
      ensures gcstate == GCSsweep || gcstate == GCSsweepstring
    {
      hide Structured, Safe, OnlyFixed, Swept, StringsSwept, Kept;
      AtLeastOneBucket(heap, rootgc, strt, uvhead);
      SweepStringStep();
      SweptSafe(old(heap), heap, currentwhite, Roots(), mainthread);
      SweptKeeps(old(heap), heap, currentwhite, Roots());
      NoBlackSwept(old(heap), heap, currentwhite);
      SweptThread(old(heap), heap, currentwhite, Roots(), mainthread);
      SweptThread(old(heap), heap, currentwhite, Roots(), running);
    }

    method StepSweep()
      requires Valid() && gcstate == GCSsweep
      modifies this`heap, this`uvhead, this`rootgc, this`sweepgc, this`gcstate
      ensures Valid() && Swept(old(heap), heap, currentwhite) && Kept(old(heap), heap, Roots())
      ensures gcstate == GCSfinalize || (gcstate == GCSsweep && LessLeft(|old(uvhead)|, |old(rootgc)| - old(sweepgc), |uvhead|, |rootgc| - sweepgc))
    {
      hide Structured, Safe, OnlyFixed, Swept, StringsSwept, RootsSwept, Kept, AllWhite;
      SweepList();
      SweptSafe(old(heap), heap, currentwhite, Roots(), mainthread);
      SweptKeeps(old(heap), heap, currentwhite, Roots());
      NoBlackSwept(old(heap), heap, currentwhite);
      SweptThread(old(heap), heap, currentwhite, Roots(), mainthread);
      SweptThread(old(heap), heap, currentwhite, Roots(), running);
      AllStringsStay(old(heap), heap, currentwhite, rootgc, strt, uvhead);
      if sweepgc == |rootgc| {
        AllSwept(heap, currentwhite, rootgc, strt, uvhead);
        gcstate := GCSfinalize;
      }
    }

    /** singlestep. Whatever the roots reach stays, unchanged, and is all they reach afterwards. */
    method SingleStep(ghost keep: set<Ref>)
      requires Valid() && Bounded(keep)
      modifies this`heap, this`gray, this`grayagain, this`rootgc, this`strt, this`uvhead, this`sweepstrgc, this`sweepgc
      modifies this`currentwhite, this`gcstate
      ensures Valid() && Kept(old(heap), heap, Roots())
      ensures old(gcstate) == GCSpause ==> Bounded(keep) && Darker(old(heap), heap, keep) && gcstate == GCSpropagate
      ensures old(gcstate) == GCSpropagate ==> Darker(old(heap), heap, keep)
      ensures old(gcstate) == GCSpropagate && gcstate == GCSpropagate ==> Bounded(keep) && currentwhite == old(currentwhite)
      ensures old(gcstate) == GCSpropagate && gcstate != GCSpropagate
              ==> gcstate == GCSsweepstring && MarkedWithin(heap, keep) && NoneDead(heap, !currentwhite)
      ensures old(gcstate) == GCSsweepstring || old(gcstate) == GCSsweep
              ==> (Swept(old(heap), heap, currentwhite) && currentwhite == old(currentwhite)
                   && gcstate != GCSpause && gcstate != GCSpropagate)
      ensures old(gcstate) == GCSfinalize ==> heap == old(heap) && currentwhite == old(currentwhite) && gcstate == GCSpause
      ensures old(gcstate) == GCSpause || Nearer()
    {
      hide Structured, Safe, OnlyFixed, ClosedIn, Tricolour, AllWhite, Darker, MarkedWithin, NoneDead, Anchored, Swept, StringsSwept, RootsSwept, WhiteSet, Kept;
      match gcstate
      case GCSpause => StepPause(keep);
      case GCSpropagate => if gray != [] { StepPropagate(keep); } else { StepAtomic(keep); }
      case GCSsweepstring => StepSweepString();
      case GCSsweep => StepSweep();
      case GCSfinalize =>
        KeptSelf(heap, Roots());
        gcstate := GCSpause;
    }

    /** The phases left before the pause. */
    function Rank(): nat
      reads this
    {
      match gcstate
      case GCSpause => 0
      case GCSpropagate => 4
      case GCSsweepstring => 3
      case GCSsweep => 2
      case GCSfinalize => 1
    }

    /** A step that brings the end of the cycle nearer. */
    twostate predicate Nearer()
      reads this
    {
      || Rank() < old(Rank())
      || (Rank() == old(Rank()) &&
          match gcstate
          case GCSpropagate =>
            WhiteSet(heap) < WhiteSet(old(heap)) || (WhiteSet(heap) == WhiteSet(old(heap)) && |gray| < |old(gray)|)
          case GCSsweepstring => |strt| == |old(strt)| && sweepstrgc == old(sweepstrgc) + 1
          case GCSsweep => LessLeft(|old(uvhead)|, |old(rootgc)| - old(sweepgc), |uvhead|, |rootgc| - sweepgc)
          case _ => false)
    }

    ghost function LeftWhite(): set<Ref>
      reads this
    {
      if gcstate == GCSpropagate then WhiteSet(heap) else {}
    }

    function Left(): int
      reads this
    {
      match gcstate
      case GCSpropagate => |gray|
      case GCSsweepstring => |strt| - sweepstrgc
      case GCSsweep => |uvhead|
      case _ => 0
    }

    function LeftRoots(): int
      reads this
    {
      if gcstate == GCSsweep then |rootgc| - sweepgc else 0
    }

    // -------------------------------------------------------------- luaC_fullgc

    /** Its first part: a mark phase under way is given up, as if it had found everything alive. */
    method AbortMark()
      requires Valid()
      modifies this`gray, this`grayagain, this`sweepstrgc, this`sweepgc, this`gcstate
      ensures Valid() && gcstate != GCSpause && gcstate != GCSpropagate
      ensures old(gcstate) == GCSpause || old(gcstate) == GCSpropagate ==> NoneDead(heap, currentwhite)
    {
      hide Structured, Safe, OnlyFixed, Tricolour, AllWhite, NoneDead, Anchored, StringsSwept, RootsSwept, NoBlackOpen;
      if gcstate == GCSpause || gcstate == GCSpropagate {
        if gcstate == GCSpause {
          WhiteNoneDead(heap, currentwhite);
          WhiteOpen(heap, currentwhite);
        } else {
          TricolourOpen(heap, gray, grayagain);
        }
        NoneSwept(heap, currentwhite, rootgc, strt, uvhead);
        sweepstrgc := 0;
        sweepgc := 0;
        gray := [];
        grayagain := [];
        gcstate := GCSsweepstring;
      }
    }

    /** Its second part: the pending sweep is finished. */
    method FinishSweep()
      requires Valid() && gcstate != GCSpause && gcstate != GCSpropagate
      modifies this
      ensures Valid() && gcstate == GCSfinalize && AllWhite(heap, currentwhite)
      ensures Swept(old(heap), heap, currentwhite) && Kept(old(heap), heap, Roots()) && currentwhite == old(currentwhite)
      ensures mainthread == old(mainthread) && running == old(running) && registry == old(registry) && mt == old(mt)
    {
      hide Structured, Safe, OnlyFixed, Tricolour, AllWhite, NoneDead, Anchored, StringsSwept, RootsSwept, Swept, Kept, Darker;
      SweptSelf(heap, currentwhite);
      KeptSelf(heap, Roots());
      while gcstate != GCSfinalize
        invariant Valid() && gcstate != GCSpause && gcstate != GCSpropagate
        invariant Swept(old(heap), heap, currentwhite) && Kept(old(heap), heap, Roots()) && currentwhite == old(currentwhite)
        invariant mainthread == old(mainthread) && running == old(running) && registry == old(registry) && mt == old(mt)
        decreases Rank(), Left(), LeftRoots()
      {
        ghost var h := heap;
        SingleStep({});
        SweptTrans(old(heap), h, heap, currentwhite);
        KeptTrans(old(heap), h, heap, Roots());
      }
    }

    /** Both parts: nothing is freed when a mark phase was given up. */
    method FinishCycle()
      requires Valid()
      modifies this
      ensures Valid() && gcstate == GCSfinalize && AllWhite(heap, currentwhite) && currentwhite == old(currentwhite)
      ensures Swept(old(heap), heap, currentwhite) && Kept(old(heap), heap, Roots())
      ensures old(gcstate) == GCSpause || old(gcstate) == GCSpropagate ==> heap.Keys == old(heap).Keys
      ensures mainthread == old(mainthread) && running == old(running) && registry == old(registry) && mt == old(mt)
    {
      hide Structured, Safe, OnlyFixed, AllWhite, NoneDead, Swept, Kept, PhaseOk;
      AbortMark();
      FinishSweep();
      if old(gcstate) == GCSpause || old(gcstate) == GCSpropagate { NoneDeadStay(old(heap), heap, currentwhite); }
    }

    /** Its rest: the mark phase of a new cycle, with every object white at its start, ... */
    method MarkCycle()
      requires Valid() && gcstate == GCSfinalize
      modifies this
      ensures Valid() && gcstate == GCSsweepstring && NoneDead(heap, !currentwhite)
      ensures MarkedWithin(heap, ReachSet(old(heap), Roots())) && SameBodies(old(heap), heap) && Kept(old(heap), heap, Roots())
      ensures mainthread == old(mainthread) && running == old(running) && registry == old(registry) && mt == old(mt)
    {
      hide Structured, Safe, OnlyFixed, Tricolour, AllWhite, NoneDead, Anchored, StringsSwept, RootsSwept, Swept, Kept, Darker,
           ClosedIn, MarkedWithin, SameBodies, WhiteSet, ReachSet;
      ghost var keep := ReachSet(heap, Roots());
      SafeReach(heap, currentwhite, Roots());
      StepPause(keep);
      MarkAllPhase(old(heap), keep);
    }

    /** ... and its sweep. */
    method WholeCycle()
      requires Valid() && gcstate == GCSfinalize
      modifies this
      ensures Valid() && gcstate == GCSpause && AllWhite(heap, currentwhite)
      ensures Exact(old(heap), heap, Roots()) && Kept(old(heap), heap, Roots())
      ensures mainthread == old(mainthread) && running == old(running) && registry == old(registry) && mt == old(mt)
    {
      hide Structured, Safe, OnlyFixed, AllWhite, NoneDead, Swept, Kept, Exact, MarkedWithin, SameBodies, ReachSet, Darker;
      MarkCycle();
      ghost var h1 := heap;
      FinishSweep();
      ExactSweep(old(heap), h1, heap, currentwhite, Roots());
      KeptTrans(old(heap), h1, heap, Roots());
      SingleStep({});
    }

    method MarkAllPhase(ghost h0: Heap, ghost keep: set<Ref>)
      requires Valid() && Bounded(keep) && gcstate == GCSpropagate
      requires Darker(h0, heap, keep) && Kept(h0, heap, Roots())
      modifies this
      ensures Valid() && gcstate == GCSsweepstring && MarkedWithin(heap, keep) && NoneDead(heap, !currentwhite)
      ensures SameBodies(h0, heap) && Kept(h0, heap, Roots())
      ensures mainthread == old(mainthread) && running == old(running) && registry == old(registry) && mt == old(mt)
    {
      hide Structured, Safe, OnlyFixed, Tricolour, AllWhite, NoneDead, Anchored, StringsSwept, RootsSwept, Swept, Kept, Darker,
           ClosedIn, MarkedWithin, SameBodies, WhiteSet;
      DarkerBodiesSame(h0, heap, keep);
      while gcstate == GCSpropagate
        invariant Valid() && Darker(h0, heap, keep) && Kept(h0, heap, Roots()) && SameBodies(h0, heap)
        invariant gcstate == GCSpropagate || (gcstate == GCSsweepstring && MarkedWithin(heap, keep) && NoneDead(heap, !currentwhite))
        invariant gcstate == GCSpropagate ==> Bounded(keep)
        invariant mainthread == old(mainthread) && running == old(running) && registry == old(registry) && mt == old(mt)
        decreases Rank(), LeftWhite(), Left()
      {
        ghost var h := heap;
        SingleStep(keep);
        DarkerSelfKept(h0, h, heap, keep, Roots());
      }
    }

    /** luaC_fullgc leaves what the roots reach and what is fixed, and nothing else, all of it in
        the current white. */
    method FullGc()
      requires Valid()
      modifies this
      ensures Valid() && gcstate == GCSpause && AllWhite(heap, currentwhite)
      ensures Exact(old(heap), heap, Roots()) && Kept(old(heap), heap, Roots())
      ensures mainthread == old(mainthread) && running == old(running) && registry == old(registry) && mt == old(mt)
    {
      hide Structured, Safe, OnlyFixed, AllWhite, NoneDead, Swept, Kept, Exact, PhaseOk;
      FinishCycle();
      ghost var h1, cw := heap, currentwhite;
      WholeCycle();
      ExactAfterSweep(old(heap), h1, heap, cw, Roots());
      KeptTrans(old(heap), h1, heap, Roots());
    }

    // -------------------------------------------------------------- the mutator

    /** A value the mutator may hold: what it refers to is not dead. */
    predicate Live(v: Value)
      reads this
    {
      v.Object? ==> v.r in heap && heap[v.r].color != White(!currentwhite)
    }

    /** A black object is written, and luaC_barrierf called if the value is white. */
    method BarrierForward(o: Ref, b: Body, v: Value)
      requires Valid() && o in heap && heap[o].color.Black? && Alike(heap[o].body, b)
      requires Live(v) && Adds(heap, Put(heap, o, b), currentwhite, ValueRefs(v))
      modifies this`heap, this`gray
      ensures Valid() && Graph(heap) == Graph(old(heap))[o := b]
    {
      hide Structured, Safe, OnlyFixed, ClosedIn, Tricolour, AllWhite, Marked, NoneDead, Anchored, StringsSwept, RootsSwept, Adds, Graph,
           TheThreads, RootSet, NoBlackOpen, Alike;
      ghost var c := Fields();
      NotWhite(heap, c, o);
      heap := Put(heap, o, b);
      ghost var h1 := heap;
      if gcstate == GCSpropagate {
        StoreBusy(old(heap), o, b, gray, grayagain);
        StoreClosed(old(heap), o, b, currentwhite, Roots(), ValueRefs(v));
        MarkedSelf(heap, heap.Keys);
        AddsThere(old(heap), h1, currentwhite, ValueRefs(v));
        if v.Object? && IsWhite(heap, v.r) { ReallyMarkObject(v.r, {o}, heap.Keys); }
        AfterMark(old(heap), o, b, heap, c, ValueRefs(v), gray);
      } else if v.Object? && IsWhite(heap, v.r) {
        AfterWhiten(old(heap), o, b, c, ValueRefs(v), White(currentwhite));
        heap := Paint(heap, o, White(currentwhite));
      } else {
        StoreValid(old(heap), o, b, c, ValueRefs(v));
      }
    }

    /** The same for a table, with luaC_barrierback. */
    method BarrierBack(o: Ref, b: Body, v: Value)
      requires Valid() && o in heap && heap[o].color.Black? && Alike(heap[o].body, b) && Queued(b)
      requires Live(v) && Adds(heap, Put(heap, o, b), currentwhite, ValueRefs(v))
      modifies this`heap, this`grayagain
      ensures Valid() && Graph(heap) == Graph(old(heap))[o := b]
    {
      hide Structured, Safe, OnlyFixed, ClosedIn, Tricolour, AllWhite, Marked, NoneDead, Anchored, StringsSwept, RootsSwept, Adds, Graph,
           TheThreads, RootSet, NoBlackOpen, Alike;
      ghost var c := Fields();
      NotWhite(heap, c, o);
      heap := Put(heap, o, b);
      ghost var h1 := heap;
      if v.Object? && IsWhite(heap, v.r) {
        if gcstate == GCSpropagate {
          AfterBack(old(heap), o, b, c, ValueRefs(v));
        } else {
          AfterWhiten(old(heap), o, b, c, ValueRefs(v), Gray);
          AgainAnyPhase(Paint(h1, o, Gray), c, [o] + grayagain);
        }
        heap := Paint(heap, o, Gray);
        grayagain := [o] + grayagain;
      } else if gcstate == GCSpropagate {
        StoreBusy(old(heap), o, b, gray, grayagain);
        MarkedSelf(heap, heap.Keys);
        AddsThere(old(heap), h1, currentwhite, ValueRefs(v));
        AfterMark(old(heap), o, b, heap, c, ValueRefs(v), gray);
      } else {
        StoreValid(old(heap), o, b, c, ValueRefs(v));
      }
    }

    /** A store into an object, with the barrier of its kind. */
    method Store(o: Ref, b: Body, v: Value)
      requires Valid() && o in heap && Alike(heap[o].body, b)
      requires Live(v) && Adds(heap, Put(heap, o, b), currentwhite, ValueRefs(v))
      modifies this`heap, this`gray, this`grayagain
      ensures Valid() && Graph(heap) == Graph(old(heap))[o := b]
    {
      hide Invariant, Adds, Graph;
      if !heap[o].color.Black? {
        StoreValid(heap, o, b, Fields(), ValueRefs(v));
        heap := Put(heap, o, b);
      } else if b.Holder? && b.tag == TTable {
        BarrierBack(o, b, v);
      } else {
        BarrierForward(o, b, v);
      }
    }

    /** A field of an object is set, or added when i is just past the last. */
    method SetField(o: Ref, i: nat, v: Ref)
      requires Valid() && o in heap && heap[o].body.Holder? && i <= |heap[o].body.refs| && Live(Object(v))
      modifies this`heap, this`gray, this`grayagain
      ensures Valid()
      ensures Graph(heap) == Graph(old(heap))[o := WithRef(old(heap)[o].body, i, v)]
    {
      hide Invariant, Adds, Graph;
      WithRefRefs(heap[o].body, i, v);
      AddsHolder(heap, o, WithRef(heap[o].body, i, v).refs, currentwhite, {v});
      Store(o, WithRef(heap[o].body, i, v), Object(v));
    }

    /** A field is cleared: no barrier. */
    method ClearField(o: Ref, i: nat)
      requires Valid() && o in heap && heap[o].body.Holder? && i < |heap[o].body.refs|
      modifies this`heap, this`gray, this`grayagain
      ensures Valid()
      ensures Graph(heap) == Graph(old(heap))[o := old(heap)[o].body.(refs := Drop(old(heap)[o].body.refs, i))]
    {
      hide Invariant, Adds, Graph;
      DropElements(heap[o].body.refs, i);
      AddsHolder(heap, o, Drop(heap[o].body.refs, i), currentwhite, {});
      Store(o, heap[o].body.(refs := Drop(heap[o].body.refs, i)), Plain);
    }

    /** A slot of the running thread's stack is set, or pushed: no barrier, threads are never black. */
    method SetSlot(slot: nat, v: Value)
      requires Valid() && slot <= |heap[running].body.stack| && Live(v)
      modifies this`heap
      ensures Valid() && Graph(heap) == Graph(old(heap))[running := Stacked(old(heap)[running].body, slot, v)]
      ensures heap == Put(old(heap), running, Stacked(old(heap)[running].body, slot, v))
    {
      hide Adds, Invariant, Graph, Alike;
      StackOf(heap, Fields());
      AddsStacked(heap, running, slot, v, currentwhite);
      if gcstate == GCSpropagate { NeverBlackIn(heap, Fields(), running); }
      StoreValid(heap, running, Stacked(heap[running].body, slot, v), Fields(), ValueRefs(v));
      heap := Put(heap, running, Stacked(heap[running].body, slot, v));
    }

    /** The value of an upvalue is set (OP_SETUPVAL): in its stack slot while it is open. */
    method SetUpvalue(u: Ref, v: Value)
      requires Valid() && u in heap && heap[u].body.Upval? && Live(v)
      modifies this`heap, this`gray, this`grayagain
      ensures Valid()
      ensures old(heap)[u].body.loc.Closed? ==> Graph(heap) == Graph(old(heap))[u := Upval(Closed(v))]
      ensures old(heap)[u].body.loc.Open? ==> StackWritten(old(heap), heap, old(heap)[u].body.loc.thread, old(heap)[u].body.loc.slot, v)
    {
      hide Adds, Structured, Safe, PhaseOk, OnlyFixed, Graph;
      match heap[u].body.loc
      case Closed(_) =>
        AddsClosed(heap, u, v, currentwhite);
        Store(u, Upval(Closed(v)), v);
      case Open(th, slot) =>
        OpenInStack(heap, Fields(), u);
        AddsStacked(heap, th, slot, v, currentwhite);
        if gcstate == GCSpropagate { NeverBlackIn(heap, Fields(), th); }
        StoreValid(heap, th, Stacked(heap[th].body, slot, v), Fields(), ValueRefs(v));
        heap := Put(heap, th, Stacked(heap[th].body, slot, v));
    }

    /** luaC_link: the new object goes to the head of rootgc, a userdata right after the main thread. */
    method Link(r: Ref, b: Body)
      requires Valid() && r !in heap && NewBody(b) && !b.StringBody? && BodyRefs(b) <= AliveSet(heap, currentwhite)
      modifies this`heap, this`rootgc, this`sweepgc
      ensures Valid() && heap == old(heap)[r := Obj(White(currentwhite), false, b)]
    {
      hide Structured, Safe, OnlyFixed, Tricolour, AllWhite, NoneDead, Anchored, StringsSwept, RootsSwept, BodyRefs, NoBlackOpen, RootSet,
           TheThreads, AliveSet;
      var i := 0;
      if b.Holder? && b.tag == TUserdata { i := AfterMain(); }
      NewValid(heap, Fields(), r, b, i);
      heap := heap[r := Obj(White(currentwhite), false, b)];
      sweepgc := ShiftedAt(sweepgc, i);
      rootgc := Insert(rootgc, i, r);
    }

    /** The position after the main thread in rootgc. */
    method AfterMain() returns (i: nat)
      requires Valid()
      ensures 0 < i <= |rootgc| && rootgc[i - 1] == mainthread
    {
      assert InRoots(heap, mainthread);
      assert mainthread in rootgc;
      hide Invariant;
      i := 0;
      while rootgc[i] != mainthread
        invariant 0 <= i < |rootgc| && mainthread !in rootgc[..i]
        decreases |rootgc| - i
      {
        assert rootgc[..i + 1] == rootgc[..i] + [rootgc[i]];
        i := i + 1;
      }
      i := i + 1;
    }

    /** A new object with references the mutator holds, which it then holds itself. */
    method New(r: Ref, b: Body)
      requires Valid() && r !in heap && NewBody(b) && !b.StringBody? && BodyRefs(b) <= AliveSet(heap, currentwhite)
      modifies this`heap, this`rootgc, this`sweepgc
      ensures Valid()
      ensures Pushed(Graph(old(heap))[r := b], Graph(heap), running, Object(r))
    {
      hide Structured, Safe, OnlyFixed, PhaseOk, BodyRefs, RootSet, AliveSet;
      assert running != r;
      Link(r, b);
      SetSlot(|heap[running].body.stack|, Object(r));
    }

    /** newlstr. */
    method NewString(r: Ref, b: nat)
      requires Valid() && r !in heap && b < |strt|
      modifies this`heap, this`strt
      ensures Valid()
      ensures Pushed(Graph(old(heap))[r := StringBody(b)], Graph(heap), running, Object(r))
    {
      hide Structured, Safe, OnlyFixed, PhaseOk, RootSet;
      assert running != r;
      NewStringValid(heap, Fields(), r, b);
      strt := strt[b := [r] + strt[b]];
      heap := heap[r := Obj(White(currentwhite), false, StringBody(b))];
      SetSlot(|heap[running].body.stack|, Object(r));
    }

    /** luaS_newlstr finds the string in its table, where it may be dead, and brings it back. */
    method Intern(r: Ref)
      requires Valid() && r in heap && heap[r].body.StringBody?
      modifies this`heap
      ensures Valid()
      ensures Pushed(Graph(old(heap)), Graph(heap), running, Object(r))
    {
      hide Structured, Safe, OnlyFixed, PhaseOk, RootSet;
      if heap[r].color == White(!currentwhite) {
        Resurrect(heap, Fields(), r);
        heap := Paint(heap, r, White(currentwhite));
      }
      SetSlot(|heap[running].body.stack|, Object(r));
    }

    /** luaF_findupval: the open upvalue of a stack slot, brought back when dead, or a new one when
        there is none. */
    method FindUpval(slot: nat, r: Ref) returns (u: Ref)
      requires Valid() && running in heap && heap[running].body.Thread? && slot < |heap[running].body.stack| && r !in heap
      modifies this`heap, this`uvhead, this`gray
      ensures Valid() && UpvalOf(heap, running, slot, u) && !IsDead(heap, currentwhite, u) && (u == r || u in old(heap))
      ensures u != r ==> Graph(heap) == Graph(old(heap))
      ensures u == r ==> UpvalAdded(Graph(old(heap)), Graph(heap), running, slot, u)
      ensures NoneBlackened(old(heap), heap)
    {
      hide Graph, NoneBlackened, IsOpen, UpvalAdded, SameBodies, Invariant;
      var k := SearchOpen(slot);
      OpenRun(heap, Fields(), running);
      if k < |heap[running].body.openupval| && SlotOf(heap, heap[running].body.openupval[k]) == slot {
        u := heap[running].body.openupval[k];
        UpvalHas(heap, running, slot, u);
        Revive(u);
        UpvalStays(old(heap), heap, running, slot, u);
      } else {
        u := r;
        NewUpval(slot, k, r);
      }
    }

    /** Its loop: the first open upvalue whose slot is not above. */
    method SearchOpen(slot: nat) returns (k: nat)
      requires Valid() && running in heap && heap[running].body.Thread?
      ensures k <= |heap[running].body.openupval|
      ensures forall i :: 0 <= i < |heap[running].body.openupval| ==>
              IsOpen(heap, heap[running].body.openupval[i]) && (i < k <==> SlotOf(heap, heap[running].body.openupval[i]) > slot)
    {
      hide Invariant, IsOpen;
      OpenRun(heap, Fields(), running);
      k := 0;
      while k < |heap[running].body.openupval| && SlotOf(heap, heap[running].body.openupval[k]) > slot
        invariant 0 <= k <= |heap[running].body.openupval|
        invariant forall i :: 0 <= i < k ==> SlotOf(heap, heap[running].body.openupval[i]) > slot
      {
        k := k + 1;
      }
    }

    /** Its other half: a new open upvalue, which luaC_marknew makes gray in the mark phase. */
    method NewUpval(slot: nat, k: nat, u: Ref)
      requires Valid() && running in heap && heap[running].body.Thread? && slot < |heap[running].body.stack| && u !in heap
      requires k <= |heap[running].body.openupval|
      requires forall i :: 0 <= i < |heap[running].body.openupval| ==>
              IsOpen(heap, heap[running].body.openupval[i]) && (i < k <==> SlotOf(heap, heap[running].body.openupval[i]) > slot)
      requires k < |heap[running].body.openupval| ==> SlotOf(heap, heap[running].body.openupval[k]) != slot
      modifies this`heap, this`uvhead, this`gray
      ensures Valid() && UpvalOf(heap, running, slot, u) && !IsDead(heap, currentwhite, u)
      ensures UpvalAdded(Graph(old(heap)), Graph(heap), running, slot, u)
      ensures NoneBlackened(old(heap), heap)
    {
      hide Invariant, RootSet, Graph, UpvalAdded, NoneBlackened, Insert;
      StackOf(heap, Fields());
      AddOpenValid(heap, Fields(), running, k, u, slot);
      AddOpenGraph(heap, running, k, u, slot, White(currentwhite));
      heap := AddOpen(heap, running, k, u, slot, White(currentwhite));
      uvhead := [u] + uvhead;
      ghost var h := heap;
      AddOpenColours(old(heap), running, k, u, slot, White(currentwhite));
      if gcstate == GCSpropagate {
        MarkNew(u);
        UpvalStays(h, heap, running, slot, u);
        NoneBlackenedTrans(old(heap), h, heap);
      }
    }

    /** An upvalue found in the list of the running thread may be dead, and is brought back. */
    method Revive(u: Ref)
      requires Valid() && IsOpen(heap, u) && heap[u].body.loc.thread == running
      modifies this`heap
      ensures Valid() && SameBodies(old(heap), heap) && Graph(heap) == Graph(old(heap)) && u in heap && !IsDead(heap, currentwhite, u)
      ensures NoneBlackened(old(heap), heap)
    {
      hide Structured, Safe, OnlyFixed, PhaseOk, RootSet, Graph;
      if heap[u].color == White(!currentwhite) {
        SlotAlive(heap, Fields(), u, running);
        Resurrect(heap, Fields(), u);
        heap := Paint(heap, u, White(currentwhite));
      }
    }

    /** luaC_marknew in the mark phase. */
    method MarkNew(u: Ref)
      requires Valid() && gcstate == GCSpropagate && u in heap && heap[u].color == White(currentwhite)
      modifies this`heap, this`gray
      ensures Valid() && SameBodies(old(heap), heap) && Graph(heap) == Graph(old(heap)) && u in heap && !IsWhite(heap, u)
      ensures NoneBlackened(old(heap), heap)
    {
      hide Structured, OnlyFixed, Tricolour, Marked, NoneDead, Anchored, TheThreads, RootSet, Graph, Darker, ClosedIn, Safe, SameBodies;
      ghost var c := Fields();
      ghost var keep := heap.Keys;
      SafeAllKeys(heap, currentwhite, Roots());
      ReallyMarkObject(u, {}, keep);
      MarkedDarker(old(heap), heap, keep);
      MarkedGray(old(heap), heap, keep);
      DarkerBodiesSame(old(heap), heap, keep);
      StructureDarker(old(heap), heap, keep, rootgc, strt, uvhead);
      AfterDarker(old(heap), heap, keep, c);
      NotDead(heap, currentwhite, u);
    }

    /** One round of luaF_close. */
    method CloseOne(th: Ref)
      requires Valid() && th in heap && heap[th].body.Thread? && heap[th].body.openupval != [] && !IsDead(heap, currentwhite, th)
      modifies this`heap, this`uvhead, this`rootgc, this`sweepgc, this`gray
      ensures Valid() && Pruned(old(heap), heap, currentwhite) && AliveStay(old(heap), heap, currentwhite)
      ensures th in heap && heap[th].body.Thread? && heap[th].body.openupval == old(heap)[th].body.openupval[1..]
    {
      hide Structured, Safe, OnlyFixed, PhaseOk, RootSet, IsOpen, Pruned, AliveStay, Swept, TheThreads;
      ghost var c := Fields();
      StructuredNow(heap, c);
      OpenRun(heap, c, th);
      OpenThere(heap, rootgc, strt, uvhead, {}, th, 0);
      var u := heap[th].body.openupval[0];
      if heap[u].color == White(!currentwhite) {
        ghost var k := UnlinkUpval(u);
        FreeOpenValid(heap, c, th, k);
        SweptPruned(heap, FreeOpen(heap, th, 0), currentwhite);
        SweptAliveStay(heap, FreeOpen(heap, th, 0), currentwhite);
        assert Drop(heap[th].body.openupval, 0) == heap[th].body.openupval[1..];
        heap := FreeOpen(heap, th, 0);
      } else {
        CloseLive(th);
      }
    }

    /** Its else branch, with luaC_linkupval. */
    method CloseLive(th: Ref)
      requires Valid() && th in heap && heap[th].body.Thread? && heap[th].body.openupval != [] && !IsDead(heap, currentwhite, th)
      requires IsOpen(heap, heap[th].body.openupval[0]) && !IsDead(heap, currentwhite, heap[th].body.openupval[0])
      requires heap[th].body.openupval[0] in uvhead && heap[th].body.openupval[0] != th
      modifies this`heap, this`uvhead, this`rootgc, this`sweepgc, this`gray
      ensures Valid() && Pruned(old(heap), heap, currentwhite) && AliveStay(old(heap), heap, currentwhite)
      ensures th in heap && heap[th].body.Thread? && heap[th].body.openupval == old(heap)[th].body.openupval[1..]
    {
      hide Structured, Safe, OnlyFixed, PhaseOk, RootSet, IsOpen, Pruned, AliveStay, Swept, Tricolour, TheThreads, Drop, Invariant;
      ghost var c, h := Fields(), heap;
      StructuredNow(heap, c);
      NotBlackNow(heap, c, heap[th].body.openupval[0]);
      var u, i := CloseHead(th, {});
      CloseStill(h, c, th, i);
      SweptPruned(h, heap, currentwhite);
      SweptAliveStay(h, heap, currentwhite);
      if !heap[u].color.Gray? {
        CloseWhite(h, c, th, i);
      } else if gcstate == GCSpropagate {
        CloseMarking(th, u, i, h, c);
      } else {
        CloseGray(h, c, th, i);
        PaintPruned(h, heap, u, currentwhite);
        heap := Paint(heap, u, White(currentwhite));
      }
    }

    /** luaC_linkupval in the mark phase: black, then the barrier for the value. */
    method CloseMarking(th: Ref, u: Ref, ghost i: nat, ghost h: Heap, ghost c: View)
      requires Invariant(h, c) && c.phase == GCSpropagate && th in h && h[th].body.Thread? && h[th].body.openupval != []
      requires i < |c.uvhead| && c.uvhead[i] == u && u == h[th].body.openupval[0] && IsOpen(h, u) && h[u].color.Gray? && u != th
      requires heap == CloseTop(h, th) && Fields() == AfterClose(c, u, Drop(c.uvhead, i))
      modifies this`heap, this`gray
      ensures Valid() && Pruned(h, heap, currentwhite) && AliveStay(h, heap, currentwhite)
      ensures th in heap && heap[th].body.Thread? && heap[th].body.openupval == h[th].body.openupval[1..]
    {
      hide Structured, Safe, OnlyFixed, RootSet, IsOpen, Pruned, AliveStay, Swept, Tricolour, TheThreads, Drop, ClosedIn, Marked, SameBodies,
           NoneDead, Anchored;
      StructuredNow(h, c);
      CloseBlack(h, th, gray, grayagain);
      CloseAllKeys(h, c, th, u);
      heap := Paint(heap, u, Black);
      ghost var h1 := heap;
      MarkedSelf(heap, h.Keys);
      var v := heap[u].body.loc.v;
      KeepRefs(heap, u, h.Keys);
      if v.Object? && IsWhite(heap, v.r) { ReallyMarkObject(v.r, {u}, h.Keys); }
      CloseFinish(h, h1, c, th, i, u, heap, gray);
    }

    /** luaF_close: every open upvalue of the running thread from the slot up is closed, or freed
        when dead; whatever is live stays and keeps its value. */
    method CloseUpvals(level: nat)
      requires Valid() && running in heap && heap[running].body.Thread?
      modifies this`heap, this`uvhead, this`rootgc, this`sweepgc, this`gray
      ensures Valid() && Pruned(old(heap), heap, currentwhite) && AliveStay(old(heap), heap, currentwhite)
      ensures running in heap && heap[running].body.Thread?
      ensures forall u :: u in heap[running].body.openupval ==> IsOpen(heap, u) && SlotOf(heap, u) < level
      ensures LowerStay(old(heap), heap, running, level)
    {
      hide Structured, Safe, OnlyFixed, PhaseOk, RootSet, IsOpen, Pruned, AliveStay, TheThreads, Invariant;
      PrunedSelf(heap, currentwhite);
      OpenRun(heap, Fields(), running);
      while heap[running].body.openupval != [] && SlotOf(heap, heap[running].body.openupval[0]) >= level
        invariant Valid() && Pruned(old(heap), heap, currentwhite) && AliveStay(old(heap), heap, currentwhite)
        invariant running in heap && heap[running].body.Thread?
        invariant forall u :: u in heap[running].body.openupval ==> IsOpen(heap, u)
        invariant LowerStay(old(heap), heap, running, level)
        decreases |heap[running].body.openupval|
      {
        ghost var h := heap;
        ClosedFirst(old(heap), heap, running, level, currentwhite);
        StackOf(heap, Fields());
        CloseOne(running);
        OpenRun(heap, Fields(), running);
        PrunedTrans(old(heap), h, heap, currentwhite);
        AliveStayTrans(old(heap), h, heap, currentwhite);
      }
      OpenRun(heap, Fields(), running);
    }

    // -------------------------------------------------------------- runs

    /** What the program finds in a slot of the running thread's stack. */
    method At(slot: nat) returns (v: Value)
      requires Valid()
      ensures Live(v) && v == SlotValue(heap, running, slot)
      ensures v.Object? ==> v.r in heap && running in heap && heap[running].body.Thread?
    {
      hide Invariant;
      StackOf(heap, Fields());
      v := Plain;
      if slot < |heap[running].body.stack| {
        v := heap[running].body.stack[slot];
        InAlive(heap, currentwhite, v);
      }
    }

    /** OP_CLOSURE: the closure first, then the upvalues it captures, without barriers. */
    method MakeClosure(r: Ref, captured: seq<(nat, Ref)>)
      requires Valid() && r !in heap
      modifies this`heap, this`rootgc, this`sweepgc, this`uvhead, this`gray
      ensures Valid() && old(heap).Keys <= heap.Keys
      ensures exists done :: ClosureMade(old(heap), heap, running, r, captured, |captured|, done)
    {
      hide Structured, Safe, OnlyFixed, PhaseOk, RootSet, Graph, Invariant, AliveSet, ClosureMade, CaptureMade;
      NoRefs(heap, currentwhite);
      StackOf(heap, Fields());
      Link(r, Holder(TFunction, []));
      ClosureNew(old(heap), heap, r, currentwhite);
      StackOf(heap, Fields());
      ghost var h := heap;
      SetSlot(|heap[running].body.stack|, Object(r));
      PutThere(h, running, Stacked(h[running].body, |h[running].body.stack|, Object(r)), r);
      StartClosure(old(heap), h, heap, running, r, captured);
      CaptureAll(r, captured, old(heap));
    }

    /** Its loop over the captures; h0 is the heap before the closure was made. */
    method CaptureAll(r: Ref, captured: seq<(nat, Ref)>, ghost h0: Heap)
      requires Valid() && r in heap && heap[r].body.Holder? && heap[r].body.tag == TFunction && !heap[r].color.Black?
      requires ClosureMade(h0, heap, running, r, captured, 0, [])
      modifies this`heap, this`uvhead, this`gray
      ensures Valid() && old(heap).Keys <= heap.Keys
      ensures exists done :: ClosureMade(h0, heap, running, r, captured, |captured|, done)
    {
      hide Invariant, Graph, ClosureMade, CaptureMade;
      ghost var done: seq<nat> := [];
      var i: nat := 0;
      while i < |captured|
        invariant 0 <= i <= |captured| && Valid() && old(heap).Keys <= heap.Keys
        invariant r in heap && heap[r].body.Holder? && heap[r].body.tag == TFunction && !heap[r].color.Black?
        invariant ClosureMade(h0, heap, running, r, captured, i, done)
      {
        StackOf(heap, Fields());
        ghost var h1 := heap;
        if captured[i].0 < |heap[running].body.stack| && captured[i].1 !in heap {
          ghost var u := Capture(r, captured[i].0, captured[i].1);
          MoreCaptured(h0, h1, heap, running, r, captured, i, done, u);
          done := done + [i];
        } else {
          NotCaptured(h0, heap, running, r, captured, i, done);
        }
        i := i + 1;
      }
      assert ClosureMade(h0, heap, running, r, captured, |captured|, done);
    }

    method Capture(r: Ref, slot: nat, addr: Ref) returns (ghost u: Ref)
      requires Valid() && running in heap && heap[running].body.Thread? && slot < |heap[running].body.stack| && addr !in heap
      requires r in heap && heap[r].body.Holder? && heap[r].body.tag == TFunction && !heap[r].color.Black?
      modifies this`heap, this`uvhead, this`gray
      ensures Valid() && old(heap).Keys <= heap.Keys && CaptureMade(old(heap), heap, running, r, slot, addr, u)
      ensures r in heap && heap[r].body.Holder? && heap[r].body.tag == TFunction && !heap[r].color.Black?
    {
      hide Invariant, Graph, UpvalAdded, Alike, Adds, NoneBlackened, CaptureMade;
      ghost var h := heap;
      var v := FindUpval(slot, addr);
      u := v;
      HolderStays(h, heap, running, slot, v, addr, r);
      UpvalThere(heap, running, slot, v);
      WithRefRefs(heap[r].body, |heap[r].body.refs|, v);
      InAliveSet(heap, currentwhite, v);
      AddsHolder(heap, r, WithRef(heap[r].body, |heap[r].body.refs|, v).refs, currentwhite, {v});
      StoreValid(heap, r, WithRef(heap[r].body, |heap[r].body.refs|, v), Fields(), {v});
      CaptureGraph(h, heap, running, r, slot, addr, v);
      heap := Put(heap, r, WithRef(heap[r].body, |heap[r].body.refs|, v));
    }

    /** OP_RETURN: upvalues are closed and the frame is left. */
    method Return(n: nat)
      requires Valid()
      modifies this`heap, this`uvhead, this`rootgc, this`sweepgc, this`gray
      ensures Valid() && AliveStay(old(heap), heap, currentwhite) && FrameLeft(old(heap), heap, currentwhite, running, n)
    {
      hide Invariant, Graph, IsOpen, AliveStay, Pruned, FrameLeft;
      StackOf(heap, Fields());
      CloseUpvals(n);
      LeaveFrame(old(heap), heap, Fields(), currentwhite, running, n);
      if n <= |heap[running].body.stack| {
        PopValid(heap, Fields(), running, n);
        PopAlive(heap, running, n, currentwhite);
        AliveStayTrans(old(heap), heap, Popped(heap, running, n), currentwhite);
        heap := Popped(heap, running, n);
      }
    }

    /** Another thread runs. */
    method Resume(th: Ref)
      requires Valid() && th in heap && heap[th].body.Thread? && !IsDead(heap, currentwhite, th)
      modifies this`running
      ensures Valid() && running == th
    {
      hide Structured, Safe, OnlyFixed, PhaseOk;
      RootsNow(heap, Fields(), th, mt);
      RootsChange(heap, Fields(), th, mt);
      running := th;
    }

    /** A metatable of a basic type is set: no barrier. */
    method SetMetatable(i: nat, v: Value)
      requires Valid() && i < |mt| && Live(v)
      modifies this`mt
      ensures Valid() && mt == old(mt)[i := v]
    {
      hide Structured, Safe, OnlyFixed, PhaseOk;
      MtNow(heap, Fields(), i, v);
      RootsChange(heap, Fields(), running, mt[i := v]);
      mt := mt[i := v];
    }

    /** New objects. */
    method DoNew(op: Op)
      requires Valid() && (op.NewObj? || op.NewThr? || op.NewStr? || op.FindStr? || op.Clos?)
      modifies this`heap, this`rootgc, this`sweepgc, this`strt, this`uvhead, this`gray
      ensures Valid() && NoneLost(old(heap), heap, Roots()) && Effect(op, old(heap), old(Fields()), heap, Fields())
    {
      hide Invariant, Graph, Pushed, AliveSet, NoneLost, RootSet, BodyRefs, ClosureMade, HeldRefs;
      StackOf(heap, Fields());
      ReachableThere(heap, Fields());
      match op {
      case NewObj(r, tag, slots) =>
        if r !in heap {
          var refs := Held(slots);
          HolderRefs(tag, refs, AliveSet(heap, currentwhite));
          New(r, Holder(tag, refs));
          PushedKeys(old(heap), heap, r, Holder(tag, refs), running);
        }
      case NewThr(r) =>
        if r !in heap {
          var b := Thread(heap[running].body.globals, [], []);
          ThreadRefs(heap, Fields(), b);
          New(r, b);
          PushedKeys(old(heap), heap, r, b, running);
        }
      case NewStr(r, b) =>
        if r !in heap && b < |strt| {
          NewString(r, b);
          PushedKeys(old(heap), heap, r, StringBody(b), running);
        }
      case FindStr(r) =>
        if r in heap && heap[r].body.StringBody? {
          ghost var b := heap[r].body;
          Intern(r);
          InternKeys(old(heap), heap, running, r);
        }
      case Clos(r, captured) =>
        if r !in heap { MakeClosure(r, captured); }
      }
      KeysKeep(old(heap), heap, Roots());
    }

    /** The objects in some slots. */
    method Held(slots: seq<nat>) returns (refs: seq<Ref>)
      requires Valid()
      ensures refs == HeldRefs(heap, running, slots) && forall x :: x in refs ==> x in AliveSet(heap, currentwhite)
    {
      hide Invariant;
      refs := [];
      for i := 0 to |slots|
        invariant refs == HeldRefs(heap, running, slots[..i]) && forall x :: x in refs ==> x in AliveSet(heap, currentwhite)
      {
        var v := At(slots[i]);
        assert slots[..i + 1][..i] == slots[..i];
        if v.Object? { refs := refs + [v.r]; }
      }
      assert slots[..|slots|] == slots;
    }

    /** Reads and writes. */
    method DoAccess(op: Op)
      requires Valid() && (op.Get? || op.Set? || op.Clear? || op.SetUp? || op.Move?)
      modifies this`heap, this`gray, this`grayagain
      ensures Valid() && NoneLost(old(heap), heap, Roots()) && Effect(op, old(heap), old(Fields()), heap, Fields())
    {
      hide Invariant, Graph, NoneLost, RootSet, Pushed, UpvalueSet, Loaded, WithRef, Stacked, Drop, Kept, FrameLeft, ClosureMade,
           HeldRefs, SlotValue;
      StackOf(heap, Fields());
      ReachableThere(heap, Fields());
      match op {
      case Get(s, i) =>
        var o := At(s);
        if o.Object? { Load(o.r, i); }
      case Set(s, i, t) =>
        var o := At(s);
        var v := At(t);
        if o.Object? && v.Object? { Change(o.r, i, v); }
      case Clear(s, i) =>
        var o := At(s);
        if o.Object? { Change(o.r, i, Plain); }
      case SetUp(s, i, t) =>
        var o := At(s);
        var v := At(t);
        if o.Object? { Assign(o.r, i, v); }
      case Move(dst, src) =>
        var v := At(src);
        if dst <= |heap[running].body.stack| {
          SetSlot(dst, v);
          OneKeys(old(heap), heap, running, Stacked(old(heap)[running].body, dst, v));
        }
      }
      KeysKeep(old(heap), heap, Roots());
    }

    /** A field of an object is set, or cleared if v is no object. */
    method Change(o: Ref, i: nat, v: Value)
      requires Valid() && o in heap && !IsDead(heap, currentwhite, o) && Live(v)
      modifies this`heap, this`gray, this`grayagain
      ensures Valid() && heap.Keys == old(heap).Keys
      ensures v.Object? ==> if CanSet(old(heap), Object(o), i) then Graph(heap) == Graph(old(heap))[o := WithRef(old(heap)[o].body, i, v.r)]
                            else heap == old(heap)
      ensures v.Plain? ==>
              if HasField(old(heap), Object(o), i) then Graph(heap) == Graph(old(heap))[o := old(heap)[o].body.(refs := Drop(old(heap)[o].body.refs, i))]
              else heap == old(heap)
    {
      hide Invariant, Graph, WithRef, Drop;
      if v.Object? {
        if heap[o].body.Holder? && i <= |heap[o].body.refs| {
          SetField(o, i, v.r);
          OneKeys(old(heap), heap, o, WithRef(old(heap)[o].body, i, v.r));
        }
      } else if heap[o].body.Holder? && i < |heap[o].body.refs| {
        ClearField(o, i);
        OneKeys(old(heap), heap, o, old(heap)[o].body.(refs := Drop(old(heap)[o].body.refs, i)));
      }
    }

    /** The value of an upvalue of a closure is set. */
    method Assign(o: Ref, i: nat, v: Value)
      requires Valid() && o in heap && !IsDead(heap, currentwhite, o) && Live(v)
      modifies this`heap, this`gray, this`grayagain
      ensures Valid() && heap.Keys == old(heap).Keys
      ensures if HasField(old(heap), Object(o), i) then UpvalueSet(old(heap), heap, old(heap)[o].body.refs[i], v) else heap == old(heap)
    {
      hide Invariant, Graph, StackWritten;
      if heap[o].body.Holder? && i < |heap[o].body.refs| {
        RefAlive(heap, Fields(), o, i);
        var u := heap[o].body.refs[i];
        if heap[u].body.Upval? {
          SetUpvalue(u, v);
          UpvalueKeys(old(heap), heap, u, v);
        }
      }
    }

    /** A field of an object, or the value of an upvalue of a closure, is loaded on the stack. */
    method Load(o: Ref, i: nat)
      requires Valid() && o in heap && !IsDead(heap, currentwhite, o)
      modifies this`heap
      ensures Valid() && heap.Keys == old(heap).Keys
      ensures if HasField(old(heap), Object(o), i) then Pushed(Graph(old(heap)), Graph(heap), running, Loaded(old(heap), old(heap)[o].body.refs[i]))
              else heap == old(heap)
    {
      hide Invariant, Graph;
      StackOf(heap, Fields());
      if heap[o].body.Holder? && i < |heap[o].body.refs| {
        RefAlive(heap, Fields(), o, i);
        var x := heap[o].body.refs[i];
        var v := Object(x);
        if heap[x].body.Upval? {
          UpvalueAlive(heap, Fields(), x);
          v := UpvalValue(heap, heap[x].body.loc);
        }
        SetSlot(|heap[running].body.stack|, v);
        PushedNow(old(heap), heap, running, v);
      }
    }

    /** The step itself. */
    method DoOp(op: Op)
      requires Valid()
      modifies this
      ensures Valid() && NoneLost(old(heap), heap, old(Roots())) && Effect(op, old(heap), old(Fields()), heap, Fields())
    {
      hide Invariant, NoneLost, RootSet, AliveStay, Kept, Swept, Darker, Exact, FrameLeft, Pushed, ClosureMade, UpvalueSet, StackWritten;
      ghost var roots := Roots();
      StackOf(heap, Fields());
      ReachableThere(heap, Fields());
      match op
      case Step =>
        AllKeys(heap, Fields());
        SingleStep(heap.Keys);
        KeptNoneLost(old(heap), heap, roots);
      case Full =>
        FullGc();
        KeptNoneLost(old(heap), heap, roots);
      case Leave(n) =>
        Return(n);
        AliveNoneLost(old(heap), heap, old(Fields()));
      case Switch(s) =>
        KeysKeep(old(heap), heap, roots);
        var th := At(s);
        if th.Object? && heap[th.r].body.Thread? { Resume(th.r); }
      case SetMt(i, s) =>
        KeysKeep(old(heap), heap, roots);
        var v := At(s);
        if i < |mt| { SetMetatable(i, v); }
      case NewObj(_, _, _) => DoNew(op);
      case NewThr(_) => DoNew(op);
      case NewStr(_, _) => DoNew(op);
      case FindStr(_) => DoNew(op);
      case Clos(_, _) => DoNew(op);
      case _ => DoAccess(op);
    }

    /** One step of program or collector. Nothing in reach is lost, and only what the step names
        changes, in the way that it names. */
    method Do(op: Op)
      requires Valid()
      modifies this
      ensures Valid() && NoneLost(old(heap), heap, old(Roots())) && Does(op, old(heap), old(Fields()), heap, Fields())
    {
      hide Invariant, NoneLost, RootSet, Effect, Does;
      DoOp(op);
      Means(op, old(heap), old(Fields()), heap, Fields());
    }

    /** Any run of program and collector: each step does to the objects what it means and no more,
        and whatever can be reached is there at every moment. */
    method Run(script: seq<Op>) returns (ghost trace: seq<State>)
      requires Valid()
      modifies this
      ensures Valid() && Steps(script, trace) && trace[0] == State(old(heap), old(Fields())) && trace[|script|] == State(heap, Fields())
    {
      hide Invariant, Intact, NoneLost, Does, Steps, Whole;
      InvariantIntact(heap, Fields());
      WholeNow(heap, Fields());
      trace := [State(heap, Fields())];
      StepsNone(trace);
      for i := 0 to |script|
        invariant Valid() && |trace| == i + 1 && Steps(script[..i], trace)
        invariant trace[0] == State(old(heap), old(Fields())) && trace[i] == State(heap, Fields())
      {
        Do(script[i]);
        InvariantIntact(heap, Fields());
        WholeNow(heap, Fields());
        StepsNext(script, i, trace, State(heap, Fields()));
        trace := trace + [State(heap, Fields())];
      }
      assert script[..|script|] == script;
    }
  }
}
