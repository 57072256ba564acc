/** The collectable objects of a Lua state as a graph of references with marks. */
module GcHeap {

  type Ref = nat

  datatype Value = Plain | Object(r: Ref)

  /** The two whites, gray (neither white nor black) and black of lgc.h. */
  datatype Color = White(w: bool) | Gray | Black

  datatype Location = Open(thread: Ref, slot: nat) | Closed(v: Value)

  datatype Tag = TUserdata | TFunction | TTable | TProto

  /** refs are the references of an object in the order in which its traversal marks them. */
  datatype Body =
    | StringBody(bucket: nat)
    | Holder(tag: Tag, refs: seq<Ref>)
    | Upval(loc: Location)
    | Thread(globals: Value, stack: seq<Value>, openupval: seq<Ref>)

  datatype Obj = Obj(color: Color, fixed: bool, body: Body)

  type Heap = map<Ref, Obj>

  function ValueRefs(v: Value): set<Ref> { if v.Object? then {v.r} else {} }

  function SlotValue(h: Heap, th: Ref, slot: nat): Value {
    if th in h && h[th].body.Thread? && slot < |h[th].body.stack| then h[th].body.stack[slot] else Plain
  }

  /** Where the current value of an upvalue lives. */
  function UpvalValue(h: Heap, loc: Location): Value {
    match loc
    case Open(th, slot) => SlotValue(h, th, slot)
    case Closed(v) => v
  }

  /** The objects r refers to. An open upvalue refers to the value in its stack slot; a thread
      does not refer to its open upvalues. */
  function Kids(h: Heap, r: Ref): set<Ref>
    requires r in h
  {
    match h[r].body
    case StringBody(_) => {}
    case Holder(_, refs) => set x | x in refs
    case Upval(loc) => ValueRefs(UpvalValue(h, loc))
    case Thread(g, stack, _) => ValueRefs(g) + (set v | v in stack && v.Object? :: v.r)
  }

  predicate IsOpen(h: Heap, r: Ref) { r in h && h[r].body.Upval? && h[r].body.loc.Open? }

  /** Objects that wait in a gray list while they are gray. */
  predicate Queued(b: Body) { b.Thread? || (b.Holder? && b.tag != TUserdata) }

  predicate IsWhite(h: Heap, r: Ref)
    requires r in h
  {
    h[r].color.White?
  }

  /** isdead: white of the other colour. */
  predicate IsDead(h: Heap, cw: bool, r: Ref)
    requires r in h
  {
    h[r].color == White(!cw)
  }

  function WhiteSet(h: Heap): set<Ref> { set r | r in h && IsWhite(h, r) }

  // ---------------------------------------------------------------- reachability

  /** A path of references from a root. */
  ghost predicate Path(h: Heap, roots: set<Ref>, p: seq<Ref>) {
    && p != [] && p[0] in roots
    && (forall i :: 0 <= i < |p| ==> p[i] in h)
    && (forall i :: 0 <= i < |p| - 1 ==> p[i + 1] in Kids(h, p[i]))
  }

  ghost predicate Reachable(h: Heap, roots: set<Ref>, r: Ref) {
    exists p :: Path(h, roots, p) && p[|p| - 1] == r
  }

  ghost predicate ClosedIn(h: Heap, s: set<Ref>) {
    s <= h.Keys && forall r :: r in s ==> Kids(h, r) <= s
  }

  /** A closed set with the roots has every reachable object. */
  lemma {:induction false} ReachableWithin(h: Heap, roots: set<Ref>, s: set<Ref>, p: seq<Ref>)
    requires ClosedIn(h, s) && roots <= s && Path(h, roots, p)
    ensures p[|p| - 1] in s
  {
    if |p| > 1 {
      var q := p[..|p| - 1];
      ReachableWithin(h, roots, s, q);
      assert p[|p| - 1] in Kids(h, q[|q| - 1]);
    }
  }

  lemma ReachableIn(h: Heap, roots: set<Ref>, s: set<Ref>, r: Ref)
    requires ClosedIn(h, s) && roots <= s && Reachable(h, roots, r)
    ensures r in s
  {
    var p :| Path(h, roots, p) && p[|p| - 1] == r;
    ReachableWithin(h, roots, s, p);
  }

  lemma ReachableStep(h: Heap, roots: set<Ref>, r: Ref, x: Ref)
    requires r in h && x in h && Reachable(h, roots, r) && x in Kids(h, r)
    ensures Reachable(h, roots, x)
  {
    var p :| Path(h, roots, p) && p[|p| - 1] == r;
    assert Path(h, roots, p + [x]);
    assert (p + [x])[|p + [x]| - 1] == x;
  }

  lemma RootReachable(h: Heap, roots: set<Ref>, r: Ref)
    requires r in h && r in roots
    ensures Reachable(h, roots, r)
  {
    assert Path(h, roots, [r]) && [r][|[r]| - 1] == r;
  }

  ghost function ReachSet(h: Heap, roots: set<Ref>): set<Ref> { set r | r in h && Reachable(h, roots, r) }

  /** Where nothing reachable dangles, the reachable objects are closed. */
  lemma ReachSetClosed(h: Heap, roots: set<Ref>, s: set<Ref>)
    requires ClosedIn(h, s) && roots <= s
    ensures ClosedIn(h, ReachSet(h, roots)) && roots <= ReachSet(h, roots)
  {
    forall r, x | r in ReachSet(h, roots) && x in Kids(h, r) ensures x in ReachSet(h, roots) {
      ReachableIn(h, roots, s, r);
      ReachableStep(h, roots, r, x);
    }
    forall r | r in roots ensures r in ReachSet(h, roots) { RootReachable(h, roots, r); }
  }

  /** Two heaps that agree on what the objects of a closed set refer to have the same reachable
      objects. */
  lemma ReachSame(h: Heap, h': Heap, roots: set<Ref>, s: set<Ref>)
    requires ClosedIn(h, s) && roots <= s
    requires forall r :: r in s ==> r in h' && Kids(h', r) == Kids(h, r)
    ensures forall r :: Reachable(h, roots, r) <==> Reachable(h', roots, r)
  {
    forall r ensures Reachable(h, roots, r) <==> Reachable(h', roots, r) {
      if Reachable(h, roots, r) {
        var p :| Path(h, roots, p) && p[|p| - 1] == r;
        PathWithin(h, roots, s, p);
        assert Path(h', roots, p);
      }
      if Reachable(h', roots, r) {
        var p :| Path(h', roots, p) && p[|p| - 1] == r;
        assert ClosedIn(h', s);
        PathWithin(h', roots, s, p);
        assert Path(h, roots, p);
      }
    }
  }

  lemma PathWithin(h: Heap, roots: set<Ref>, s: set<Ref>, p: seq<Ref>)
    requires ClosedIn(h, s) && roots <= s && Path(h, roots, p)
    ensures forall i :: 0 <= i < |p| ==> p[i] in s
  {
    forall i | 0 <= i < |p| ensures p[i] in s {
      var q := p[..i + 1];
      assert Path(h, roots, q);
      ReachableWithin(h, roots, s, q);
    }
  }

  // ---------------------------------------------------------------- marking

  /** Only colours differ. */
  ghost predicate SameBodies(h: Heap, h': Heap) {
    h.Keys == h'.Keys && forall r :: r in h ==> h'[r].body == h[r].body && h'[r].fixed == h[r].fixed
  }

  lemma SameKids(h: Heap, h': Heap)
    requires SameBodies(h, h')
    ensures forall r :: r in h ==> Kids(h', r) == Kids(h, r)
    ensures forall s :: ClosedIn(h, s) ==> ClosedIn(h', s)
  {
  }

  /** Marking turns white objects of keep gray or black and touches nothing else. */
  ghost predicate Marked(h: Heap, h': Heap, keep: set<Ref>) {
    && SameBodies(h, h')
    && (forall r :: r in h && !IsWhite(h, r) ==> h'[r] == h[r])
    && (forall r :: r in h && IsWhite(h, r) && !IsWhite(h', r) ==> r in keep)
    && (forall r :: r in h && IsWhite(h, r) && IsWhite(h', r) ==> h'[r] == h[r])
    && (forall r :: r in h && IsWhite(h, r) && !IsWhite(h', r) && IsOpen(h, r) ==> KidsMarked(h', r))
    && (forall r :: r in h && IsWhite(h, r) && !IsWhite(h', r) && Queued(h[r].body) ==> h'[r].color.Gray?)
  }

  ghost predicate KidsMarked(h: Heap, r: Ref)
    requires r in h
  {
    forall x :: x in Kids(h, r) ==> x in h && !IsWhite(h, x)
  }

  lemma MarkedTrans(a: Heap, b: Heap, c: Heap, keep: set<Ref>)
    requires Marked(a, b, keep) && Marked(b, c, keep)
    ensures Marked(a, c, keep)
  {
    SameKids(a, b);
    SameKids(b, c);
    SameKids(a, c);
    forall r | r in a && IsWhite(a, r) && !IsWhite(c, r) && IsOpen(a, r) ensures KidsMarked(c, r) {
      if !IsWhite(b, r) { assert KidsMarked(b, r); }
    }
  }

  ghost predicate Distinct(s: seq<Ref>) { forall i, j :: 0 <= i < j < |s| ==> s[i] != s[j] }

  /** The tri-colour invariant of the mark phase; busy objects are being traversed. */
  ghost predicate Tricolour(h: Heap, gray: seq<Ref>, grayagain: seq<Ref>, busy: set<Ref>) {
    && (forall r :: r in h && h[r].color.Black? && r !in busy ==> KidsMarked(h, r))
    && (forall r :: r in h && h[r].color.Black? ==> !h[r].body.Thread? && !h[r].body.StringBody? && !IsOpen(h, r))
    && (forall r :: r in h && h[r].color.Gray? && r !in busy ==>
          h[r].body.StringBody? || IsOpen(h, r) || (Queued(h[r].body) && (r in gray || r in grayagain)))
    && (forall r :: r in gray || r in grayagain ==> r in h && h[r].color.Gray? && Queued(h[r].body))
    && Distinct(gray + grayagain)
  }
}
