/** The steps of program and collector, and what each does to the graph of objects. */
module GcEffects {
  import opened GcHeap
  import opened GcLists
  import opened GcSweeping
  import opened GcMutator

  /** What the program and the collector can do next. Objects are named by the stack slots of the
      running thread that hold them, new ones by the address the allocator returned. */
  datatype Op =
    | Step
    | Full
    | NewObj(r: Ref, tag: Tag, slots: seq<nat>)
    | NewThr(r: Ref)
    | NewStr(r: Ref, bucket: nat)
    | FindStr(r: Ref)
    | Clos(r: Ref, captured: seq<(nat, Ref)>)
    | Get(o: nat, i: nat)
    | Set(o: nat, i: nat, v: nat)
    | Clear(o: nat, i: nat)
    | SetUp(f: nat, i: nat, v: nat)
    | Move(dst: nat, src: nat)
    | Leave(n: nat)
    | Switch(th: nat)
    | SetMt(i: nat, v: nat)

  ghost predicate SameRoots(c: View, c': View) {
    c'.mainthread == c.mainthread && c'.running == c.running && c'.registry == c.registry && c'.mt == c.mt
  }

  /** The objects in some slots of a thread. */
  function HeldRefs(h: Heap, th: Ref, slots: seq<nat>): seq<Ref> {
    if slots == [] then []
    else
      var v := SlotValue(h, th, slots[|slots| - 1]);
      HeldRefs(h, th, slots[..|slots| - 1]) + if v.Object? then [v.r] else []
  }

  /** What loading a field gives: an upvalue stands for its value. */
  function Loaded(h: Heap, x: Ref): Value { if x in h && h[x].body.Upval? then UpvalValue(h, h[x].body.loc) else Object(x) }

  predicate HasField(h: Heap, v: Value, i: nat) { v.Object? && v.r in h && h[v.r].body.Holder? && i < |h[v.r].body.refs| }

  predicate CanSet(h: Heap, v: Value, i: nat) { v.Object? && v.r in h && h[v.r].body.Holder? && i <= |h[v.r].body.refs| }

  /** What a step does to the objects. A collector step leaves all that is in reach as it is and in
      reach; a program step changes the object it names and no other. */
  ghost predicate Effect(op: Op, h: Heap, c: View, h': Heap, c': View) {
    var th := c.running;
    && th in h && h[th].body.Thread?
    && (if op.Switch? || op.SetMt? then h' == h && c'.mainthread == c.mainthread && c'.registry == c.registry else SameRoots(c, c'))
    && match op
       case Step => Kept(h, h', RootsOf(c))
       case Full => Kept(h, h', RootsOf(c)) && Exact(h, h', RootsOf(c))
       case NewObj(r, tag, slots) =>
         if r in h then h' == h else Pushed(Graph(h)[r := Holder(tag, HeldRefs(h, th, slots))], Graph(h'), th, Object(r))
       case NewThr(r) =>
         if r in h then h' == h else Pushed(Graph(h)[r := Thread(h[th].body.globals, [], [])], Graph(h'), th, Object(r))
       case NewStr(r, b) =>
         if r in h || b >= |c.strt| then h' == h else Pushed(Graph(h)[r := StringBody(b)], Graph(h'), th, Object(r))
       case FindStr(r) =>
         if r in h && h[r].body.StringBody? then Pushed(Graph(h), Graph(h'), th, Object(r)) else h' == h
       case Clos(r, captured) =>
         if r in h then h' == h else exists done :: ClosureMade(h, h', th, r, captured, |captured|, done)
       case Get(s, i) =>
         var o := SlotValue(h, th, s);
         if HasField(h, o, i) then Pushed(Graph(h), Graph(h'), th, Loaded(h, h[o.r].body.refs[i])) else h' == h
       case Set(s, i, t) =>
         var o, v := SlotValue(h, th, s), SlotValue(h, th, t);
         if v.Object? && CanSet(h, o, i) then Graph(h') == Graph(h)[o.r := WithRef(h[o.r].body, i, v.r)] else h' == h
       case Clear(s, i) =>
         var o := SlotValue(h, th, s);
         if HasField(h, o, i) then Graph(h') == Graph(h)[o.r := h[o.r].body.(refs := Drop(h[o.r].body.refs, i))] else h' == h
       case SetUp(s, i, t) =>
         var o, v := SlotValue(h, th, s), SlotValue(h, th, t);
         if HasField(h, o, i) then UpvalueSet(h, h', h[o.r].body.refs[i], v) else h' == h
       case Move(dst, src) =>
         if dst <= |h[th].body.stack| then Graph(h') == Graph(h)[th := Stacked(h[th].body, dst, SlotValue(h, th, src))] else h' == h
       case Leave(n) => FrameLeft(h, h', c.cw, th, n)
       case Switch(s) =>
         var v := SlotValue(h, th, s);
         c'.mt == c.mt && c'.running == if v.Object? && v.r in h && h[v.r].body.Thread? then v.r else th
       case SetMt(i, s) =>
         c'.running == th && c'.mt == if i < |c.mt| then c.mt[i := SlotValue(h, th, s)] else c.mt
  }

  /** The value of an upvalue is written where it is. */
  ghost predicate UpvalueSet(h: Heap, h': Heap, u: Ref, v: Value) {
    if u in h && h[u].body.Upval? then
      match h[u].body.loc
      case Closed(_) => Graph(h') == Graph(h)[u := Upval(Closed(v))]
      case Open(t, slot) => StackWritten(h, h', t, slot, v)
    else h' == h
  }

  /** A frame is left: its slots are gone, its upvalues are closed with the values they had, and no
      other object changes; only dead ones are gone. */
  ghost predicate FrameLeft(h: Heap, h': Heap, cw: bool, th: Ref, n: nat) {
    && th in h && h[th].body.Thread? && th in h' && h'[th].body.Thread?
    && h'[th].body.stack == (if n <= |h[th].body.stack| then h[th].body.stack[..n] else h[th].body.stack)
    && h'[th].body.globals == h[th].body.globals && (forall u :: u in h'[th].body.openupval ==> u in h[th].body.openupval)
    && (forall u :: IsOpen(h', u) && h'[u].body.loc.thread == th ==> SlotOf(h', u) < n)
    && h'.Keys <= h.Keys && (forall r :: r in h && r !in h' ==> IsDead(h, cw, r))
    && (forall r :: r in h' && r != th ==> SameObject(h, h', r))
  }

  lemma SlotBelow(h: Heap, c: View, th: Ref, n: nat)
    requires Invariant(h, c) && th in h && h[th].body.Thread?
    requires forall u :: u in h[th].body.openupval ==> IsOpen(h, u) && SlotOf(h, u) < n
    ensures forall u :: IsOpen(h, u) && h[u].body.loc.thread == th ==> SlotOf(h, u) < n
  {
    StructuredOpen(h, c);
    forall u | IsOpen(h, u) && h[u].body.loc.thread == th ensures SlotOf(h, u) < n { assert OpenListed(h, u); }
  }

  lemma LeaveFrame(h: Heap, h1: Heap, c: View, cw: bool, th: Ref, n: nat)
    requires Pruned(h, h1, cw) && Invariant(h1, c) && th in h && h[th].body.Thread? && th in h1 && h1[th].body.Thread?
    requires forall u :: u in h1[th].body.openupval ==> IsOpen(h1, u) && SlotOf(h1, u) < n
    ensures FrameLeft(h, if n <= |h1[th].body.stack| then Popped(h1, th, n) else h1, cw, th, n)
  {
    hide Invariant;
    SlotBelow(h1, c, th, n);
    assert SameObject(h, h1, th);
    if n <= |h1[th].body.stack| {
      var h2 := Popped(h1, th, n);
      forall r | r in h2 && r != th ensures SameObject(h, h2, r) { PoppedSame(h, h1, th, n, r); }
    }
  }

  lemma PoppedSame(h: Heap, h1: Heap, th: Ref, n: nat, r: Ref)
    requires r in h && r in h1 && SameObject(h, h1, r) && r != th && th in h1 && h1[th].body.Thread? && n <= |h1[th].body.stack|
    requires IsOpen(h1, r) && h1[r].body.loc.thread == th ==> SlotOf(h1, r) < n
    ensures SameObject(h, Popped(h1, th, n), r)
  {
    var h2 := Popped(h1, th, n);
    assert h2[r] == h1[r];
    if h1[r].body.Upval? { assert UpvalValue(h2, h1[r].body.loc) == UpvalValue(h1, h1[r].body.loc); }
  }

  // ---------------------------------------------------------------- closures

  /** Closure r is on top of the stack of th and its references are upvalues for the slots of some
      of the first n captures, in order; those left out had no slot or no free address. No other object
      changes, and the new ones are upvalues of those slots. */
  ghost predicate ClosureMade(h: Heap, h': Heap, th: Ref, r: Ref, captured: seq<(nat, Ref)>, n: nat, done: seq<nat>) {
    && n <= |captured| && r !in h && r in h' && h'[r].body.Holder? && h'[r].body.tag == TFunction
    && Upvalues(h', th, h'[r].body.refs, captured[..n], done)
    && (forall j :: 0 <= j < n && j !in done ==> captured[j].0 > SizeOf(h, th) || captured[j].1 in h')
    && Extended(h, h', th, Object(r))
    && (forall x :: x in h' && x !in h && x != r ==> exists j :: 0 <= j < n && UpvalOf(h', th, captured[j].0, x) && captured[j].1 == x)
  }

  /** us are upvalues for the slots of the captures done. */
  ghost predicate Upvalues(h: Heap, th: Ref, us: seq<Ref>, captured: seq<(nat, Ref)>, done: seq<nat>) {
    && |us| == |done| && (forall i, j :: 0 <= i < j < |done| ==> done[i] < done[j])
    && (forall k :: 0 <= k < |done| ==> done[k] < |captured| && UpvalOf(h, th, captured[done[k]].0, us[k]))
  }

  function SizeOf(h: Heap, th: Ref): nat { if th in h && h[th].body.Thread? then |h[th].body.stack| else 0 }

  /** v has been pushed on th, which may have more open upvalues; other objects stay as they are. */
  ghost predicate Extended(h: Heap, h': Heap, th: Ref, v: Value) {
    && th in h && h[th].body.Thread? && th in h' && h'[th].body.Thread?
    && h'[th].body.globals == h[th].body.globals && h'[th].body.stack == h[th].body.stack + [v]
    && (forall u :: u in h[th].body.openupval ==> u in h'[th].body.openupval)
    && (forall x :: x in h && x != th ==> x in h' && h'[x].body == h[x].body)
  }

  /** One capture: closure r gets a reference to an upvalue of the slot, a new one at addr if need be. */
  ghost predicate CaptureMade(h: Heap, h': Heap, th: Ref, r: Ref, slot: nat, addr: Ref, u: Ref) {
    && addr !in h && r in h && h[r].body.Holder? && r in h' && r != th && (u == addr || u in h) && u in h' && UpvalOf(h', th, slot, u)
    && h'.Keys == h.Keys + {u} && h'[r].body == h[r].body.(refs := h[r].body.refs + [u])
    && th in h && h[th].body.Thread? && th in h' && h'[th].body.Thread?
    && h'[th].body.globals == h[th].body.globals && h'[th].body.stack == h[th].body.stack
    && (forall x :: x in h[th].body.openupval ==> x in h'[th].body.openupval)
    && (forall x :: x in h && x != th && x != r ==> h'[x].body == h[x].body)
  }

  lemma MoreCaptured(h: Heap, h1: Heap, h2: Heap, th: Ref, r: Ref, captured: seq<(nat, Ref)>, n: nat, done: seq<nat>, u: Ref)
    requires ClosureMade(h, h1, th, r, captured, n, done) && n < |captured|
    requires CaptureMade(h1, h2, th, r, captured[n].0, captured[n].1, u)
    ensures ClosureMade(h, h2, th, r, captured, n + 1, done + [n])
  {
    forall k | 0 <= k < |done| ensures UpvalOf(h2, th, captured[..n + 1][(done + [n])[k]].0, h2[r].body.refs[k]) {
      assert captured[..n][done[k]] == captured[done[k]];
      assert UpvalOf(h1, th, captured[done[k]].0, h1[r].body.refs[k]);
    }
    forall x | x in h2 && x !in h && x != r ensures exists j :: 0 <= j < n + 1 && UpvalOf(h2, th, captured[j].0, x) && captured[j].1 == x {
      if x in h1 {
        var j :| 0 <= j < n && UpvalOf(h1, th, captured[j].0, x) && captured[j].1 == x;
        assert UpvalOf(h2, th, captured[j].0, x);
      } else {
        assert x == u && captured[n].1 == x;
      }
    }
    forall j | 0 <= j < n + 1 && j !in done + [n] ensures captured[j].0 > SizeOf(h, th) || captured[j].1 in h2 {
      assert (done + [n])[|done|] == n;
      assert done <= done + [n] && forall k :: 0 <= k < |done| ==> (done + [n])[k] == done[k];
    }
  }

  lemma NotCaptured(h: Heap, h1: Heap, th: Ref, r: Ref, captured: seq<(nat, Ref)>, n: nat, done: seq<nat>)
    requires ClosureMade(h, h1, th, r, captured, n, done) && n < |captured|
    requires captured[n].0 >= SizeOf(h1, th) || captured[n].1 in h1
    ensures ClosureMade(h, h1, th, r, captured, n + 1, done)
  {
    forall k | 0 <= k < |done| ensures done[k] < n + 1 && UpvalOf(h1, th, captured[..n + 1][done[k]].0, h1[r].body.refs[k]) {
      assert captured[..n][done[k]] == captured[done[k]];
    }
  }

  lemma CaptureGraph(h: Heap, h1: Heap, th: Ref, r: Ref, slot: nat, addr: Ref, u: Ref)
    requires addr !in h && r in h && h[r].body.Holder? && r in h1 && h1[r].body == h[r].body && th in h && h[th].body.Thread? && r != th
    requires UpvalOf(h1, th, slot, u) && (u == addr || u in h)
    requires if u == addr then UpvalAdded(Graph(h), Graph(h1), th, slot, u) else Graph(h1) == Graph(h)
    ensures CaptureMade(h, Put(h1, r, WithRef(h1[r].body, |h1[r].body.refs|, u)), th, r, slot, addr, u)
  {
    var g, g1 := Graph(h), Graph(h1);
    assert h.Keys == g.Keys && h1.Keys == g1.Keys;
    if u == addr {
      var k :| 0 <= k <= |g[th].openupval| && g1 == g[th := g[th].(openupval := Insert(g[th].openupval, k, u))][u := Upval(Open(th, slot))];
      forall x | x in g[th].openupval ensures x in g1[th].openupval { InInsert(g[th].openupval, k, u, x); }
    }
    forall x | x in h ensures x in h1 && (x != th ==> h1[x].body == h[x].body) { assert g1[x] == h1[x].body && g[x] == h[x].body; }
    assert g1[th] == h1[th].body && g[th] == h[th].body;
  }

  lemma InInsert(s: seq<Ref>, k: nat, u: Ref, x: Ref)
    requires k <= |s| && x in s
    ensures x in Insert(s, k, u)
  {
    var j :| 0 <= j < |s| && s[j] == x;
    assert Insert(s, k, u)[if j < k then j else j + 1] == x;
  }

  lemma StartClosure(h: Heap, h1: Heap, h2: Heap, th: Ref, r: Ref, captured: seq<(nat, Ref)>)
    requires r !in h && h1.Keys == h.Keys + {r} && th in h && h[th].body.Thread? && h1[r].body == Holder(TFunction, [])
    requires forall x :: x in h ==> h1[x] == h[x]
    requires h2 == Put(h1, th, Stacked(h1[th].body, |h1[th].body.stack|, Object(r)))
    ensures ClosureMade(h, h2, th, r, captured, 0, [])
  {
  }

  lemma PushedNow(h: Heap, h': Heap, th: Ref, v: Value)
    requires th in h && h[th].body.Thread? && Graph(h') == Graph(h)[th := Stacked(h[th].body, |h[th].body.stack|, v)]
    ensures Pushed(Graph(h), Graph(h'), th, v)
  {
  }
}
