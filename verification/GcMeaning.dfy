/** What the steps of program and collector mean, object by object and position by position. */
module GcMeaning {
  import opened GcHeap
  import opened GcLists
  import opened GcSweeping
  import opened GcMutator
  import opened GcEffects

  // ---------------------------------------------------------------- values, references, reach

  function InSlot(stack: seq<Value>, s: nat): Value { if s < |stack| then stack[s] else Plain }

  function SlotsOf(h: Heap, th: Ref): seq<Value> { if th in h && h[th].body.Thread? then h[th].body.stack else [] }

  /** What a program gets for a reference: itself, or the value of an upvalue, which is in a stack
      slot while it is open. */
  function Behind(h: Heap, x: Ref): Value {
    if x in h && h[x].body.Upval? then
      match h[x].body.loc
      case Closed(v) => v
      case Open(t, s) => InSlot(SlotsOf(h, t), s)
    else Object(x)
  }

  /** r refers to x. */
  predicate Refers(h: Heap, r: Ref, x: Ref)
    requires r in h
  {
    match h[r].body
    case StringBody(_) => false
    case Holder(_, refs) => x in refs
    case Upval(_) => Behind(h, r) == Object(x)
    case Thread(globals, stack, _) => globals == Object(x) || Object(x) in stack
  }

  predicate IsRoot(c: View, x: Ref) { x == c.mainthread || x == c.running || c.registry == Object(x) || Object(x) in c.mt }

  ghost predicate Trail(h: Heap, c: View, p: seq<Ref>) {
    && p != [] && IsRoot(c, p[0]) && (forall i :: 0 <= i < |p| ==> p[i] in h)
    && (forall i :: 0 <= i < |p| - 1 ==> Refers(h, p[i], p[i + 1]))
  }

  ghost predicate InReach(h: Heap, c: View, r: Ref) { exists p :: Trail(h, c, p) && p[|p| - 1] == r }

  lemma RefersIs(h: Heap, r: Ref, x: Ref)
    requires r in h
    ensures Refers(h, r, x) <==> x in Kids(h, r)
  {
  }

  lemma RootIs(c: View, x: Ref)
    ensures IsRoot(c, x) <==> x in RootsOf(c)
  {
  }

  lemma ReachIs(h: Heap, c: View, r: Ref)
    ensures InReach(h, c, r) <==> Reachable(h, RootsOf(c), r)
  {
    hide Refers, Kids, IsRoot, RootsOf;
    if InReach(h, c, r) {
      var p :| Trail(h, c, p) && p[|p| - 1] == r;
      RootIs(c, p[0]);
      forall i | 0 <= i < |p| - 1 ensures p[i + 1] in Kids(h, p[i]) { RefersIs(h, p[i], p[i + 1]); }
      assert Path(h, RootsOf(c), p);
    }
    if Reachable(h, RootsOf(c), r) {
      var p :| Path(h, RootsOf(c), p) && p[|p| - 1] == r;
      RootIs(c, p[0]);
      forall i | 0 <= i < |p| - 1 ensures Refers(h, p[i], p[i + 1]) { RefersIs(h, p[i], p[i + 1]); }
      assert Trail(h, c, p);
    }
  }

  // ---------------------------------------------------------------- what stays

  /** r holds what it held, though an upvalue may have been closed. */
  predicate SameAs(h: Heap, h': Heap, r: Ref)
    requires r in h && r in h'
  {
    match h[r].body
    case StringBody(_) => h'[r].body == h[r].body
    case Holder(_, _) => h'[r].body == h[r].body
    case Upval(_) => h'[r].body.Upval? && Behind(h', r) == Behind(h, r)
    case Thread(globals, stack, _) => h'[r].body.Thread? && h'[r].body.globals == globals && h'[r].body.stack == stack
  }

  /** What is in reach stays in reach and as it is, and nothing comes into reach. */
  ghost predicate Unmoved(h: Heap, h': Heap, c: View) {
    && (forall r :: InReach(h, c, r) <==> InReach(h', c, r))
    && (forall r :: InReach(h, c, r) ==> r in h && r in h' && SameAs(h, h', r))
  }

  lemma KeptUnmoved(h: Heap, h': Heap, c: View)
    requires Kept(h, h', RootsOf(c))
    ensures Unmoved(h, h', c)
  {
    hide Reachable, InReach, RootsOf;
    forall r ensures (InReach(h, c, r) <==> InReach(h', c, r)) && (InReach(h, c, r) ==> r in h && r in h' && SameAs(h, h', r)) {
      ReachIs(h, c, r);
      ReachIs(h', c, r);
    }
  }

  /** No object but o changes, and none comes or goes. */
  ghost predicate OnlyAt(h: Heap, h': Heap, o: Ref) { h'.Keys == h.Keys && forall r :: r in h && r != o ==> h'[r].body == h[r].body }

  lemma GraphOnly(h: Heap, h': Heap, o: Ref, b: Body)
    requires o in h && Graph(h') == Graph(h)[o := b]
    ensures OnlyAt(h, h', o) && h'[o].body == b
  {
    assert h'.Keys == Graph(h').Keys == h.Keys;
    forall r | r in h ensures h'[r].body == if r == o then b else h[r].body { assert Graph(h')[r] == h'[r].body; }
  }

  // ---------------------------------------------------------------- the program's steps

  /** v has been pushed on the stack of th; the other objects that were there stay as they are. */
  ghost predicate PushedOn(h: Heap, h': Heap, th: Ref, v: Value) {
    && th in h && th in h' && h[th].body.Thread? && h'[th].body.Thread? && h'[th].body.stack == h[th].body.stack + [v]
    && h'[th].body.globals == h[th].body.globals && h'[th].body.openupval == h[th].body.openupval
    && (forall r :: r in h && r != th ==> r in h' && h'[r].body == h[r].body)
  }

  /** How many of the first n slots hold an object. */
  function Objects(stack: seq<Value>, slots: seq<nat>, n: nat): nat
    requires n <= |slots|
  {
    if n == 0 then 0 else Objects(stack, slots, n - 1) + if InSlot(stack, slots[n - 1]).Object? then 1 else 0
  }

  /** refs are the objects that the slots hold, in order. */
  predicate ListOf(stack: seq<Value>, slots: seq<nat>, refs: seq<Ref>) {
    && |refs| == Objects(stack, slots, |slots|)
    && (forall k :: 0 <= k < |slots| && InSlot(stack, slots[k]).Object? ==>
         Objects(stack, slots, k) < |refs| && refs[Objects(stack, slots, k)] == InSlot(stack, slots[k]).r)
  }

  /** Reference i of o is x, put over the old one or behind the last; the others stay. */
  ghost predicate FieldSet(h: Heap, h': Heap, o: Ref, i: nat, x: Ref) {
    && OnlyAt(h, h', o) && o in h && h[o].body.Holder? && h'[o].body.Holder? && h'[o].body.tag == h[o].body.tag
    && var refs, refs' := h[o].body.refs, h'[o].body.refs;
       && i <= |refs| && |refs'| == (if i == |refs| then |refs| + 1 else |refs|) && refs'[i] == x
       && (forall k :: 0 <= k < |refs| && k != i ==> refs'[k] == refs[k])
  }

  /** Reference i of o is gone, those behind it move up. */
  ghost predicate FieldCleared(h: Heap, h': Heap, o: Ref, i: nat) {
    && OnlyAt(h, h', o) && o in h && h[o].body.Holder? && h'[o].body.Holder? && h'[o].body.tag == h[o].body.tag
    && var refs, refs' := h[o].body.refs, h'[o].body.refs;
       && i < |refs| && |refs'| == |refs| - 1
       && (forall k :: 0 <= k < |refs'| ==> refs'[k] == refs[if k < i then k else k + 1])
  }

  /** Slot s of th holds v, an old one or one just past the last; the others stay. */
  ghost predicate SlotSet(h: Heap, h': Heap, th: Ref, s: nat, v: Value) {
    && OnlyAt(h, h', th) && th in h && h[th].body.Thread? && h'[th].body.Thread?
    && h'[th].body.globals == h[th].body.globals && h'[th].body.openupval == h[th].body.openupval
    && var stack, stack' := h[th].body.stack, h'[th].body.stack;
       && s <= |stack| && |stack'| == (if s == |stack| then |stack| + 1 else |stack|) && stack'[s] == v
       && (forall k :: 0 <= k < |stack| && k != s ==> stack'[k] == stack[k])
  }

  ghost predicate UpvalSet(h: Heap, h': Heap, u: Ref, v: Value) {
    if u in h && h[u].body.Upval? then
      match h[u].body.loc
      case Closed(_) => OnlyAt(h, h', u) && h'[u].body == Upval(Closed(v))
      case Open(t, s) => SlotSet(h, h', t, s, v) && s < |h[t].body.stack|
    else h' == h
  }

  /** The slots of th from n on are gone, and its upvalues for them are closed with the values they
      held; dead objects may be gone, no other object changes. */
  ghost predicate Left(h: Heap, h': Heap, c: View, th: Ref, n: nat) {
    && th in h && h[th].body.Thread? && th in h' && h'[th].body.Thread? && h'[th].body.globals == h[th].body.globals
    && |SlotsOf(h', th)| == (if n <= |SlotsOf(h, th)| then n else |SlotsOf(h, th)|) && SlotsOf(h', th) <= SlotsOf(h, th)
    && (forall u :: u in h && u in h' && OpenAt(h, th, u) && h[u].body.loc.slot >= n ==>
         h'[u].body == Upval(Closed(InSlot(SlotsOf(h, th), h[u].body.loc.slot))))
    && h'.Keys <= h.Keys && (forall r :: r in h && r !in h' ==> h[r].color == White(!c.cw) && !InReach(h, c, r))
    && (forall r :: r in h' && r != th ==> SameAs(h, h', r))
  }

  /** u is an upvalue that is a slot of th. */
  predicate OpenAt(h: Heap, th: Ref, u: Ref) { u in h && h[u].body.Upval? && h[u].body.loc.Open? && h[u].body.loc.thread == th }

  function FieldOf(h: Heap, o: Value): seq<Ref> { if o.Object? && o.r in h && h[o.r].body.Holder? then h[o.r].body.refs else [] }

  predicate IsHolder(h: Heap, o: Value) { o.Object? && o.r in h && h[o.r].body.Holder? }

  ghost predicate Does(op: Op, h: Heap, c: View, h': Heap, c': View) {
    var th, stack := c.running, SlotsOf(h, c.running);
    && th in h && h[th].body.Thread? && c'.mainthread == c.mainthread && c'.registry == c.registry
    && (op.Switch? || c'.running == c.running) && (op.SetMt? || c'.mt == c.mt)
    && match op
       case Step => Unmoved(h, h', c)
       case Full => Unmoved(h, h', c) && forall r :: r in h' <==> r in h && (InReach(h, c, r) || h[r].fixed)
       case NewObj(r, tag, slots) =>
         if r in h then h' == h
         else h'.Keys == h.Keys + {r} && PushedOn(h, h', th, Object(r)) && h'[r].body.Holder? && h'[r].body.tag == tag
              && ListOf(stack, slots, h'[r].body.refs)
       case NewThr(r) =>
         if r in h then h' == h
         else h'.Keys == h.Keys + {r} && PushedOn(h, h', th, Object(r)) && h'[r].body == Thread(h[th].body.globals, [], [])
       case NewStr(r, b) =>
         if r in h || b >= |c.strt| then h' == h
         else h'.Keys == h.Keys + {r} && PushedOn(h, h', th, Object(r)) && h'[r].body == StringBody(b)
       case FindStr(r) =>
         if r in h && h[r].body.StringBody? then h'.Keys == h.Keys && PushedOn(h, h', th, Object(r)) else h' == h
       case Clos(r, captured) =>
         if r in h then h' == h else exists done :: ClosureMade(h, h', th, r, captured, |captured|, done)
       case Get(s, i) =>
         var refs := FieldOf(h, InSlot(stack, s));
         if i < |refs| then h'.Keys == h.Keys && PushedOn(h, h', th, Behind(h, refs[i])) else h' == h
       case Set(s, i, t) =>
         var o, v := InSlot(stack, s), InSlot(stack, t);
         if v.Object? && IsHolder(h, o) && i <= |FieldOf(h, o)| then FieldSet(h, h', o.r, i, v.r) else h' == h
       case Clear(s, i) =>
         var o := InSlot(stack, s);
         if i < |FieldOf(h, o)| then FieldCleared(h, h', o.r, i) else h' == h
       case SetUp(s, i, t) =>
         var refs := FieldOf(h, InSlot(stack, s));
         if i < |refs| then UpvalSet(h, h', refs[i], InSlot(stack, t)) else h' == h
       case Move(dst, src) =>
         if dst <= |stack| then SlotSet(h, h', th, dst, InSlot(stack, src)) else h' == h
       case Leave(n) => Left(h, h', c, th, n)
       case Switch(s) =>
         var v := InSlot(stack, s);
         h' == h && c'.running == if v.Object? && v.r in h && h[v.r].body.Thread? then v.r else th
       case SetMt(i, s) =>
         h' == h && |c'.mt| == |c.mt| && forall k :: 0 <= k < |c.mt| ==> c'.mt[k] == if k == i then InSlot(stack, s) else c.mt[k]
  }

  // ---------------------------------------------------------------- the steps mean this

  lemma PushMeans(g: map<Ref, Body>, h: Heap, h': Heap, th: Ref, v: Value)
    requires Pushed(g, Graph(h'), th, v) && (forall r :: r in h ==> r in g && g[r] == h[r].body) && th in h
    ensures PushedOn(h, h', th, v) && h'.Keys == g.Keys && forall r :: r in g && r != th ==> h'[r].body == g[r]
  {
    assert h'.Keys == Graph(h').Keys == g.Keys;
    forall r | r in g && r != th ensures h'[r].body == g[r] { assert Graph(h')[r] == h'[r].body; }
    assert Graph(h')[th] == h'[th].body;
  }

  lemma NewMeans(h: Heap, h': Heap, th: Ref, r: Ref, b: Body)
    requires Pushed(Graph(h)[r := b], Graph(h'), th, Object(r)) && th in h && r !in h
    ensures h'.Keys == h.Keys + {r} && PushedOn(h, h', th, Object(r)) && h'[r].body == b
  {
    var g := Graph(h)[r := b];
    assert g.Keys == h.Keys + {r};
    PushMeans(g, h, h', th, Object(r));
    assert g[r] == b && r != th;
  }

  lemma {:induction false} HeldMeans(h: Heap, th: Ref, slots: seq<nat>)
    requires th in h && h[th].body.Thread?
    ensures ListOf(SlotsOf(h, th), slots, HeldRefs(h, th, slots))
    decreases |slots|
  {
    hide ListOf, InSlot, SlotValue;
    if slots == [] {
      ListNone(SlotsOf(h, th));
    } else {
      HeldMeans(h, th, slots[..|slots| - 1]);
      SlotMeans(h, th, slots[|slots| - 1]);
      ListGrows(SlotsOf(h, th), slots, HeldRefs(h, th, slots[..|slots| - 1]));
    }
  }

  lemma ListNone(stack: seq<Value>)
    ensures ListOf(stack, [], [])
  {
  }

  lemma ListGrows(stack: seq<Value>, slots: seq<nat>, refs: seq<Ref>)
    requires slots != [] && ListOf(stack, slots[..|slots| - 1], refs)
    ensures var v := InSlot(stack, slots[|slots| - 1]); ListOf(stack, slots, refs + if v.Object? then [v.r] else [])
  {
    hide InSlot;
    var n := |slots| - 1;
    ObjectsPrefix(stack, slots, n, n);
    forall k | 0 <= k < n && InSlot(stack, slots[k]).Object?
      ensures Objects(stack, slots, k) < |refs| && refs[Objects(stack, slots, k)] == InSlot(stack, slots[k]).r
    {
      ObjectsPrefix(stack, slots, n, k);
      assert slots[..n][k] == slots[k];
    }
  }

  lemma {:induction false} ObjectsPrefix(stack: seq<Value>, slots: seq<nat>, n: nat, k: nat)
    requires k <= n <= |slots|
    ensures Objects(stack, slots[..n], k) == Objects(stack, slots, k)
  {
    if k > 0 { ObjectsPrefix(stack, slots, n, k - 1); }
  }

  lemma SlotMeans(h: Heap, th: Ref, s: nat)
    ensures SlotValue(h, th, s) == InSlot(SlotsOf(h, th), s)
  {
  }

  lemma StoreMeans(h: Heap, h': Heap, o: Ref, i: nat, x: Ref)
    requires o in h && h[o].body.Holder? && i <= |h[o].body.refs| && Graph(h') == Graph(h)[o := WithRef(h[o].body, i, x)]
    ensures FieldSet(h, h', o, i, x)
  {
    GraphOnly(h, h', o, WithRef(h[o].body, i, x));
  }

  lemma ClearMeans(h: Heap, h': Heap, o: Ref, i: nat)
    requires o in h && h[o].body.Holder? && i < |h[o].body.refs|
    requires Graph(h') == Graph(h)[o := h[o].body.(refs := Drop(h[o].body.refs, i))]
    ensures FieldCleared(h, h', o, i)
  {
    GraphOnly(h, h', o, h[o].body.(refs := Drop(h[o].body.refs, i)));
  }

  lemma MoveMeans(h: Heap, h': Heap, th: Ref, s: nat, v: Value)
    requires th in h && h[th].body.Thread? && s <= |h[th].body.stack| && Graph(h') == Graph(h)[th := Stacked(h[th].body, s, v)]
    ensures SlotSet(h, h', th, s, v)
  {
    GraphOnly(h, h', th, Stacked(h[th].body, s, v));
  }

  lemma UpvalMeans(h: Heap, h': Heap, u: Ref, v: Value)
    requires UpvalueSet(h, h', u, v)
    ensures UpvalSet(h, h', u, v)
  {
    if u in h && h[u].body.Upval? {
      match h[u].body.loc
      case Closed(_) => GraphOnly(h, h', u, Upval(Closed(v)));
      case Open(t, s) => MoveMeans(h, h', t, s, v);
    }
  }

  lemma LoadMeans(h: Heap, x: Ref)
    ensures Loaded(h, x) == Behind(h, x)
  {
  }

  lemma SameMeans(h: Heap, h': Heap, r: Ref)
    requires r in h && r in h' && SameObject(h, h', r)
    ensures SameAs(h, h', r)
  {
  }

  lemma LeaveMeans(h: Heap, c: View, h': Heap, n: nat)
    requires FrameLeft(h, h', c.cw, c.running, n) && Invariant(h, c)
    ensures Left(h, h', c, c.running, n)
  {
    hide Invariant, InReach, RootsOf;
    var th := c.running;
    forall r | r in h && r !in h' ensures h[r].color == White(!c.cw) && !InReach(h, c, r) {
      ReachIs(h, c, r);
      if Reachable(h, RootsOf(c), r) { ReachAlive(h, c, r); }
    }
    forall r | r in h' && r != th ensures SameAs(h, h', r) { SameMeans(h, h', r); }
    forall u | u in h && u in h' && OpenAt(h, th, u) && h[u].body.loc.slot >= n
      ensures h'[u].body == Upval(Closed(InSlot(SlotsOf(h, th), h[u].body.loc.slot)))
    {
      assert SameObject(h, h', u);
      assert !IsOpen(h', u) || h'[u].body.loc.thread != th || SlotOf(h', u) < n;
    }
  }

  lemma ReachAlive(h: Heap, c: View, r: Ref)
    requires Invariant(h, c) && Reachable(h, RootsOf(c), r)
    ensures r in h && !IsDead(h, c.cw, r)
  {
    ReachableAlive(h, c.cw, RootsOf(c), r);
  }

  lemma MtMeans(mt: seq<Value>, mt': seq<Value>, i: nat, v: Value)
    requires mt' == if i < |mt| then mt[i := v] else mt
    ensures |mt'| == |mt| && forall k :: 0 <= k < |mt| ==> mt'[k] == if k == i then v else mt[k]
  {
  }

  lemma FullMeans(h: Heap, h': Heap, c: View)
    requires Exact(h, h', RootsOf(c))
    ensures forall r :: r in h' <==> r in h && (InReach(h, c, r) || h[r].fixed)
  {
    hide InReach, Reachable, RootsOf;
    forall r ensures r in h' <==> r in h && (InReach(h, c, r) || h[r].fixed) { ReachIs(h, c, r); }
  }

  lemma Means(op: Op, h: Heap, c: View, h': Heap, c': View)
    requires Invariant(h, c) && Effect(op, h, c, h', c')
    ensures Does(op, h, c, h', c')
  {
    hide Invariant, Pushed, PushedOn, Graph, Kept, Exact, Unmoved, InReach, FieldSet, FieldCleared, SlotSet, UpvalSet, UpvalueSet, Left, FrameLeft,
         ListOf, HeldRefs, ClosureMade, Loaded, Behind, SlotValue, WithRef, Stacked, Drop, RootsOf;
    var th := c.running;
    forall s ensures SlotValue(h, th, s) == InSlot(SlotsOf(h, th), s) { SlotMeans(h, th, s); }
    match op
    case Step => KeptUnmoved(h, h', c);
    case Full => KeptUnmoved(h, h', c); FullMeans(h, h', c);
    case NewObj(r, tag, slots) => if r !in h { NewMeans(h, h', th, r, Holder(tag, HeldRefs(h, th, slots))); HeldMeans(h, th, slots); }
    case NewThr(r) => if r !in h { NewMeans(h, h', th, r, Thread(h[th].body.globals, [], [])); }
    case NewStr(r, b) => if r !in h && b < |c.strt| { NewMeans(h, h', th, r, StringBody(b)); }
    case FindStr(r) => if r in h && h[r].body.StringBody? { PushMeansHere(h, h', th, Object(r)); }
    case Clos(_, _) =>
    case Get(s, i) =>
      var o := SlotValue(h, th, s);
      if HasField(h, o, i) { PushMeansHere(h, h', th, Loaded(h, h[o.r].body.refs[i])); LoadMeans(h, h[o.r].body.refs[i]); }
    case Set(s, i, t) =>
      var o, v := SlotValue(h, th, s), SlotValue(h, th, t);
      if v.Object? && CanSet(h, o, i) { StoreMeans(h, h', o.r, i, v.r); }
    case Clear(s, i) =>
      var o := SlotValue(h, th, s);
      if HasField(h, o, i) { ClearMeans(h, h', o.r, i); }
    case SetUp(s, i, t) =>
      var o := SlotValue(h, th, s);
      if HasField(h, o, i) { UpvalMeans(h, h', h[o.r].body.refs[i], SlotValue(h, th, t)); }
    case Move(dst, src) => if dst <= |h[th].body.stack| { MoveMeans(h, h', th, dst, SlotValue(h, th, src)); }
    case Leave(n) => LeaveMeans(h, c, h', n);
    case Switch(_) =>
    case SetMt(i, s) => MtMeans(c.mt, c'.mt, i, SlotValue(h, th, s));
  }

  lemma PushMeansHere(h: Heap, h': Heap, th: Ref, v: Value)
    requires Pushed(Graph(h), Graph(h'), th, v) && th in h
    ensures PushedOn(h, h', th, v) && h'.Keys == h.Keys
  {
    PushMeans(Graph(h), h, h', th, v);
    assert Graph(h).Keys == h.Keys;
  }
}
