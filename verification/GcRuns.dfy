/** Runs of program and collector, and what they mean for a program. */
module GcRuns {
  import opened GcHeap
  import opened GcSweeping
  import opened GcMutator
  import opened GcEffects
  import opened GcMeaning

  datatype State = State(h: Heap, c: View)

  /** Each state of the trace comes from the one before by a step of the script, and in each every
      reference in every object in reach leads to an object that is there. */
  ghost predicate Steps(script: seq<Op>, trace: seq<State>) {
    && |trace| == |script| + 1
    && (forall i :: 0 <= i < |script| ==> Does(script[i], trace[i].h, trace[i].c, trace[i + 1].h, trace[i + 1].c))
    && (forall i :: 0 <= i < |trace| ==> Whole(trace[i].h, trace[i].c))
  }

  /** The roots are there, and so is everything to which an object in reach refers. */
  ghost predicate Whole(h: Heap, c: View) {
    && (forall x :: IsRoot(c, x) ==> x in h)
    && (forall r, x :: InReach(h, c, r) && r in h && Refers(h, r, x) ==> x in h)
  }

  lemma WholeNow(h: Heap, c: View)
    requires Intact(h, RootsOf(c))
    ensures Whole(h, c)
  {
    hide InReach, Reachable, RootsOf, IsRoot, Refers, Kids;
    forall x | IsRoot(c, x) ensures x in h { RootIs(c, x); }
    forall r, x | InReach(h, c, r) && r in h && Refers(h, r, x) ensures x in h {
      ReachIs(h, c, r);
      RefersIs(h, r, x);
    }
  }

  lemma StepsNone(trace: seq<State>)
    requires |trace| == 1 && Whole(trace[0].h, trace[0].c)
    ensures Steps([], trace)
  {
  }

  lemma StepsNext(script: seq<Op>, n: nat, trace: seq<State>, s: State)
    requires n < |script| && Steps(script[..n], trace) && Does(script[n], trace[n].h, trace[n].c, s.h, s.c) && Whole(s.h, s.c)
    ensures Steps(script[..n + 1], trace + [s])
  {
    hide Does, Whole;
    var t := trace + [s];
    forall i | 0 <= i < n + 1 ensures Does(script[..n + 1][i], t[i].h, t[i].c, t[i + 1].h, t[i + 1].c) {
      if i < n { assert script[..n][i] == script[i]; }
    }
  }

  /** While only the collector works, what is in reach stays in reach and as it is, and nothing
      comes into reach. */
  lemma {:induction false} CollectorUnseen(script: seq<Op>, trace: seq<State>, i: nat, j: nat)
    requires Steps(script, trace) && i <= j < |trace| && forall k :: i <= k < j ==> script[k].Step? || script[k].Full?
    ensures Unmoved(trace[i].h, trace[j].h, trace[i].c) && forall x :: IsRoot(trace[j].c, x) <==> IsRoot(trace[i].c, x)
    decreases j - i
  {
    hide Whole, Unmoved;
    if i == j {
      UnmovedSelf(trace[i].h, trace[i].c);
    } else {
      CollectorUnseen(script, trace, i, j - 1);
      assert Does(script[j - 1], trace[j - 1].h, trace[j - 1].c, trace[j - 1 + 1].h, trace[j - 1 + 1].c);
      UnmovedNext(trace[i].h, trace[j - 1].h, trace[j].h, trace[i].c, trace[j - 1].c);
    }
  }

  lemma UnmovedSelf(h: Heap, c: View)
    ensures Unmoved(h, h, c)
  {
  }

  lemma SameReach(h: Heap, c: View, c': View, r: Ref)
    requires (forall x :: IsRoot(c', x) <==> IsRoot(c, x)) && InReach(h, c, r)
    ensures InReach(h, c', r)
  {
    hide IsRoot, Refers;
    var p :| Trail(h, c, p) && p[|p| - 1] == r;
    assert Trail(h, c', p);
  }

  lemma UnmovedNext(h: Heap, h1: Heap, h2: Heap, c: View, c1: View)
    requires Unmoved(h, h1, c) && Unmoved(h1, h2, c1) && forall x :: IsRoot(c1, x) <==> IsRoot(c, x)
    ensures Unmoved(h, h2, c)
  {
    hide InReach, IsRoot, Behind;
    forall r ensures (InReach(h, c, r) <==> InReach(h2, c, r)) && (InReach(h, c, r) ==> r in h && r in h2 && SameAs(h, h2, r)) {
      if InReach(h1, c, r) { SameReach(h1, c, c1, r); }
      if InReach(h1, c1, r) { SameReach(h1, c1, c, r); }
      if InReach(h2, c, r) { SameReach(h2, c, c1, r); }
      if InReach(h2, c1, r) { SameReach(h2, c1, c, r); }
    }
  }

  // ---------------------------------------------------------------- what a program reads

  /** A field that has been set gives what was stored; any other gives what it gave. */
  lemma GetAfterSet(h0: Heap, c0: View, h1: Heap, c1: View, h2: Heap, c2: View, s: nat, i: nat, t: nat, j: nat)
    requires Does(Set(s, i, t), h0, c0, h1, c1) && Does(Get(s, j), h1, c1, h2, c2)
    requires var stack := SlotsOf(h0, c0.running);
      && InSlot(stack, t).Object? && IsHolder(h0, InSlot(stack, s)) && i <= |FieldOf(h0, InSlot(stack, s))|
      && (j == i || j < |FieldOf(h0, InSlot(stack, s))|)
    ensures var stack := SlotsOf(h0, c0.running);
      var x := if j == i then InSlot(stack, t).r else FieldOf(h0, InSlot(stack, s))[j];
      SlotsOf(h2, c2.running) == stack + [Behind(h1, x)] && (!(x in h0 && h0[x].body.Upval?) ==> Behind(h1, x) == Object(x))
  {
  }

  /** An upvalue that has been set gives what was stored, unless its slot is the one that named the
      closure. */
  lemma GetAfterSetUp(h0: Heap, c0: View, h1: Heap, c1: View, h2: Heap, c2: View, f: nat, i: nat, t: nat)
    requires Does(SetUp(f, i, t), h0, c0, h1, c1) && Does(Get(f, i), h1, c1, h2, c2)
    requires var refs := FieldOf(h0, InSlot(SlotsOf(h0, c0.running), f));
      && i < |refs| && refs[i] in h0 && h0[refs[i]].body.Upval?
      && !(OpenAt(h0, c0.running, refs[i]) && h0[refs[i]].body.loc.slot == f)
    ensures SlotsOf(h2, c2.running) == SlotsOf(h1, c1.running) + [InSlot(SlotsOf(h0, c0.running), t)]
  {
    var o := InSlot(SlotsOf(h0, c0.running), f);
    var u := FieldOf(h0, o)[i];
    assert h1[o.r].body == h0[o.r].body;
    assert InSlot(SlotsOf(h1, c1.running), f) == o;
  }

  /** A slot that has been set gives what the other held. */
  lemma GetAfterMove(h0: Heap, c0: View, h1: Heap, c1: View, h2: Heap, c2: View, dst: nat, src: nat, i: nat)
    requires Does(Move(dst, src), h0, c0, h1, c1) && Does(Get(dst, i), h1, c1, h2, c2) && dst <= |SlotsOf(h0, c0.running)|
    requires i < |FieldOf(h0, InSlot(SlotsOf(h0, c0.running), src))|
    ensures SlotsOf(h2, c2.running) == SlotsOf(h1, c1.running) + [Behind(h1, FieldOf(h0, InSlot(SlotsOf(h0, c0.running), src))[i])]
  {
  }

  /** The new object is on top of the stack and has what was in the slots. */
  lemma GetAfterNew(h0: Heap, c0: View, h1: Heap, c1: View, h2: Heap, c2: View, r: Ref, tag: Tag, slots: seq<nat>, k: nat)
    requires Does(NewObj(r, tag, slots), h0, c0, h1, c1) && Does(Get(|SlotsOf(h0, c0.running)|, k), h1, c1, h2, c2) && r !in h0
    requires k < |slots| && forall i :: 0 <= i < |slots| ==> InSlot(SlotsOf(h0, c0.running), slots[i]).Object?
    ensures SlotsOf(h2, c2.running) == SlotsOf(h0, c0.running) + [Object(r), Behind(h1, InSlot(SlotsOf(h0, c0.running), slots[k]).r)]
  {
    AllObjects(SlotsOf(h0, c0.running), slots, k);
    AllObjects(SlotsOf(h0, c0.running), slots, |slots|);
  }

  lemma {:induction false} AllObjects(stack: seq<Value>, slots: seq<nat>, n: nat)
    requires n <= |slots| && forall i :: 0 <= i < |slots| ==> InSlot(stack, slots[i]).Object?
    ensures Objects(stack, slots, n) == n
  {
    if n > 0 { AllObjects(stack, slots, n - 1); }
  }

  // ---------------------------------------------------------------- what goes

  /** What a store overwrites is out of reach if nothing else refers to it, and the next full
      collection frees it. */
  lemma OverwrittenGoes(h0: Heap, c0: View, h1: Heap, c1: View, h2: Heap, c2: View, s: nat, i: nat, t: nat)
    requires Does(Set(s, i, t), h0, c0, h1, c1) && Does(Full, h1, c1, h2, c2)
    requires var o, v := InSlot(SlotsOf(h0, c0.running), s), InSlot(SlotsOf(h0, c0.running), t);
      && v.Object? && i < |FieldOf(h0, o)|
      && var x := FieldOf(h0, o)[i];
         && x != v.r && !IsRoot(c0, x) && (forall k :: 0 <= k < |FieldOf(h0, o)| && k != i ==> FieldOf(h0, o)[k] != x)
         && (forall r :: r in h0 && r != o.r ==> !Refers(h0, r, x))
    ensures var x := FieldOf(h0, InSlot(SlotsOf(h0, c0.running), s))[i];
      !InReach(h1, c1, x) && (x in h1 && !h1[x].fixed ==> x !in h2)
  {
    var o := InSlot(SlotsOf(h0, c0.running), s);
    var x := FieldOf(h0, o)[i];
    if InReach(h1, c1, x) {
      var p :| Trail(h1, c1, p) && p[|p| - 1] == x;
      var n := |p| - 1;
      if n > 0 {
        assert Refers(h1, p[n - 1], p[n - 1 + 1]);
        if p[n - 1] != o.r { SameRefers(h0, h1, o.r, p[n - 1], x); }
      }
    }
  }

  /** What any other object refers to does not change with a field. */
  lemma SameRefers(h0: Heap, h1: Heap, o: Ref, r: Ref, x: Ref)
    requires OnlyAt(h0, h1, o) && o in h0 && h0[o].body.Holder? && h1[o].body.Holder? && r in h0 && r != o
    ensures Refers(h1, r, x) <==> Refers(h0, r, x)
  {
    if h0[r].body.Upval? && h0[r].body.loc.Open? { assert SlotsOf(h1, h0[r].body.loc.thread) == SlotsOf(h0, h0[r].body.loc.thread); }
  }
}
