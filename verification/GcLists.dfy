/** The lists that hold the collectable objects: the root list, the buckets of the string table,
    each thread's open upvalues in descending slot order, and the ring of all open upvalues. */
module GcLists {
  import opened GcHeap

  function Drop(s: seq<Ref>, i: nat): seq<Ref>
    requires i < |s|
  {
    s[..i] + s[i + 1..]
  }

  function Insert(s: seq<Ref>, i: nat, x: Ref): seq<Ref>
    requires i <= |s|
  {
    s[..i] + [x] + s[i..]
  }

  lemma DropMembers(s: seq<Ref>, i: nat)
    requires i < |s| && Distinct(s)
    ensures Distinct(Drop(s, i)) && forall x :: x in Drop(s, i) <==> x in s && x != s[i]
  {
    var t := Drop(s, i);
    forall j | 0 <= j < |t| ensures t[j] == s[if j < i then j else j + 1] {}
    forall x | x in s && x != s[i] ensures x in t {
      var j :| 0 <= j < |s| && s[j] == x;
      assert t[if j < i then j else j - 1] == x;
    }
  }

  lemma InsertMembers(s: seq<Ref>, i: nat, x: Ref)
    requires i <= |s| && Distinct(s) && x !in s
    ensures Distinct(Insert(s, i, x)) && forall y :: y in Insert(s, i, x) <==> y in s || y == x
  {
    var t := Insert(s, i, x);
    forall j | 0 <= j < |t| ensures t[j] == (if j < i then s[j] else if j == i then x else s[j - 1]) {}
    assert t[i] == x;
    forall y | y in s ensures y in t {
      var j :| 0 <= j < |s| && s[j] == y;
      assert t[if j < i then j else j + 1] == y;
    }
  }

  lemma InsertHead(s: seq<Ref>, x: Ref)
    ensures Insert(s, 0, x) == [x] + s
  {
  }

  /** rootgc has every object but strings, open upvalues and those just taken out. */
  ghost predicate RootList(h: Heap, rootgc: seq<Ref>, out: set<Ref>) {
    Distinct(rootgc) && forall r :: r in rootgc <==> InRoots(h, r) && r !in out
  }

  ghost predicate InRoots(h: Heap, r: Ref) { r in h && !h[r].body.StringBody? && !IsOpen(h, r) }

  ghost predicate StringLists(h: Heap, strt: seq<seq<Ref>>) {
    && |strt| > 0
    && (forall b :: 0 <= b < |strt| ==> Distinct(strt[b]))
    && (forall b, r :: 0 <= b < |strt| && r in strt[b] ==> r in h && h[r].body == StringBody(b))
    && (forall r :: r in h && h[r].body.StringBody? ==> h[r].body.bucket < |strt| && r in strt[h[r].body.bucket])
  }

  ghost predicate UvRing(h: Heap, uvhead: seq<Ref>) {
    Distinct(uvhead) && forall r :: r in uvhead <==> IsOpen(h, r)
  }

  function SlotOf(h: Heap, u: Ref): nat
    requires IsOpen(h, u)
  {
    h[u].body.loc.slot
  }

  /** The open upvalues of a thread, highest slot first, one for a slot. */
  ghost predicate OpenList(h: Heap, th: Ref)
    requires th in h && h[th].body.Thread?
  {
    var uvs := h[th].body.openupval;
    && (forall u :: u in uvs ==> IsOpen(h, u) && h[u].body.loc.thread == th && SlotOf(h, u) < |h[th].body.stack|)
    && (forall i, j :: 0 <= i < j < |uvs| ==> SlotOf(h, uvs[i]) > SlotOf(h, uvs[j]))
  }

  ghost predicate OpenListed(h: Heap, u: Ref)
    requires IsOpen(h, u)
  {
    var th := h[u].body.loc.thread;
    th in h && h[th].body.Thread? && u in h[th].body.openupval
  }

  ghost predicate OpenLists(h: Heap) {
    && (forall th :: th in h && h[th].body.Thread? ==> OpenList(h, th))
    && (forall u :: IsOpen(h, u) ==> OpenListed(h, u))
  }

  /** Every collectable object is in exactly one list; open upvalues are also in the ring. */
  ghost predicate Structured(h: Heap, rootgc: seq<Ref>, strt: seq<seq<Ref>>, uvhead: seq<Ref>, out: set<Ref>) {
    RootList(h, rootgc, out) && StringLists(h, strt) && OpenLists(h) && UvRing(h, uvhead)
  }

  lemma OpenDistinct(h: Heap, th: Ref)
    requires th in h && h[th].body.Thread? && OpenList(h, th)
    ensures Distinct(h[th].body.openupval)
  {
    var uvs := h[th].body.openupval;
    forall i, j | 0 <= i < j < |uvs| ensures uvs[i] != uvs[j] { assert SlotOf(h, uvs[i]) > SlotOf(h, uvs[j]); }
  }

  // ---------------------------------------------------------------- changes of one object

  lemma StructureColours(h: Heap, h': Heap, rootgc: seq<Ref>, strt: seq<seq<Ref>>, uvhead: seq<Ref>, out: set<Ref>)
    requires Structured(h, rootgc, strt, uvhead, out) && SameBodies(h, h')
    ensures Structured(h', rootgc, strt, uvhead, out)
  {
    forall r ensures InRoots(h', r) <==> InRoots(h, r) {}
    OpenListsSame(h, h');
    UvRingSame(h, h', uvhead);
  }

  lemma OpenListsSame(h: Heap, h': Heap)
    requires OpenLists(h) && SameBodies(h, h')
    ensures OpenLists(h')
  {
    forall th | th in h' && h'[th].body.Thread? ensures OpenList(h', th) { assert OpenList(h, th); }
    forall u | IsOpen(h', u) ensures OpenListed(h', u) { assert IsOpen(h, u) && OpenListed(h, u); }
  }

  lemma UvRingSame(h: Heap, h': Heap, uvhead: seq<Ref>)
    requires UvRing(h, uvhead) && SameBodies(h, h')
    ensures UvRing(h', uvhead)
  {
    forall r ensures IsOpen(h', r) <==> IsOpen(h, r) {}
  }

  /** An object that is neither string nor open upvalue is changed for another such object; the
      open upvalues of a thread and their slots stay. */
  predicate Alike(a: Body, b: Body) {
    match a
    case StringBody(_) => a == b
    case Holder(t, _) => b.Holder? && b.tag == t
    case Upval(loc) => a == b || (loc.Closed? && b.Upval? && b.loc.Closed?)
    case Thread(_, stack, uvs) => b.Thread? && b.openupval == uvs && |stack| <= |b.stack|
  }

  lemma StructureAlike(h: Heap, o: Ref, b: Obj, rootgc: seq<Ref>, strt: seq<seq<Ref>>, uvhead: seq<Ref>)
    requires Structured(h, rootgc, strt, uvhead, {}) && o in h && Alike(h[o].body, b.body)
    ensures Structured(h[o := b], rootgc, strt, uvhead, {})
  {
    var h' := h[o := b];
    forall r ensures (InRoots(h', r) <==> InRoots(h, r)) && (IsOpen(h', r) <==> IsOpen(h, r)) {}
    forall th | th in h' && h'[th].body.Thread? ensures OpenList(h', th) { assert OpenList(h, th); }
    forall u | IsOpen(h', u) ensures OpenListed(h', u) { assert IsOpen(h, u) && OpenListed(h, u); }
  }

  // ---------------------------------------------------------------- objects that go

  lemma StructureFreeString(h: Heap, rootgc: seq<Ref>, strt: seq<seq<Ref>>, uvhead: seq<Ref>, b: nat, i: nat)
    requires Structured(h, rootgc, strt, uvhead, {}) && b < |strt| && i < |strt[b]|
    ensures Structured(h - {strt[b][i]}, rootgc, strt[b := Drop(strt[b], i)], uvhead, {})
  {
    var s := strt[b][i];
    var h' := h - {s};
    assert h[s].body == StringBody(b);
    DropMembers(strt[b], i);
    forall r ensures (InRoots(h', r) <==> InRoots(h, r)) && (IsOpen(h', r) <==> IsOpen(h, r)) {}
    forall th | th in h' && h'[th].body.Thread? ensures OpenList(h', th) { assert OpenList(h, th); }
    forall u | IsOpen(h', u) ensures OpenListed(h', u) { assert IsOpen(h, u) && OpenListed(h, u); }
  }

  /** An object is taken from the root list but is still there. */
  lemma StructureUnlink(h: Heap, rootgc: seq<Ref>, strt: seq<seq<Ref>>, uvhead: seq<Ref>, i: nat)
    requires Structured(h, rootgc, strt, uvhead, {}) && i < |rootgc|
    ensures Structured(h, Drop(rootgc, i), strt, uvhead, {rootgc[i]})
  {
    DropMembers(rootgc, i);
  }

  /** It goes, unless it is a thread that still has open upvalues. */
  lemma StructureFree(h: Heap, rootgc: seq<Ref>, strt: seq<seq<Ref>>, uvhead: seq<Ref>, r: Ref)
    requires Structured(h, rootgc, strt, uvhead, {r}) && InRoots(h, r)
    requires h[r].body.Thread? ==> h[r].body.openupval == []
    ensures Structured(h - {r}, rootgc, strt, uvhead, {})
  {
    var h' := h - {r};
    forall x ensures (InRoots(h', x) <==> InRoots(h, x) && x != r) && (IsOpen(h', x) <==> IsOpen(h, x)) {}
    forall th | th in h' && h'[th].body.Thread? ensures OpenList(h', th) { assert OpenList(h, th); }
    forall u | IsOpen(h', u) ensures OpenListed(h', u) { assert IsOpen(h, u) && OpenListed(h, u); }
  }

  function WithOpen(o: Obj, uvs: seq<Ref>): Obj
    requires o.body.Thread?
  {
    o.(body := o.body.(openupval := uvs))
  }

  /** The heap without the k-th open upvalue of a thread. */
  function FreeOpen(h: Heap, th: Ref, k: nat): Heap
    requires th in h && h[th].body.Thread? && k < |h[th].body.openupval|
  {
    var uvs := h[th].body.openupval;
    h[th := WithOpen(h[th], Drop(uvs, k))] - {uvs[k]}
  }

  lemma StructureFreeOpen(h: Heap, rootgc: seq<Ref>, strt: seq<seq<Ref>>, uvhead: seq<Ref>, out: set<Ref>, th: Ref, k: nat, i: nat)
    requires Structured(h, rootgc, strt, uvhead, out) && th in h && h[th].body.Thread?
    requires k < |h[th].body.openupval| && i < |uvhead| && uvhead[i] == h[th].body.openupval[k]
    ensures Structured(FreeOpen(h, th, k), rootgc, strt, Drop(uvhead, i), out)
  {
    hide Drop;
    var h', u := FreeOpen(h, th, k), uvhead[i];
    assert OpenList(h, th) && u in h[th].body.openupval;
    assert IsOpen(h, u) && u != th;
    DropMembers(uvhead, i);
    OpenFreed(h, th, k);
    forall x ensures (InRoots(h', x) <==> InRoots(h, x)) && (IsOpen(h', x) <==> IsOpen(h, x) && x != u) {}
  }

  lemma OpenFreed(h: Heap, th: Ref, k: nat)
    requires OpenLists(h) && th in h && h[th].body.Thread? && k < |h[th].body.openupval|
    ensures OpenLists(FreeOpen(h, th, k))
  {
    var uvs := h[th].body.openupval;
    var h', u := FreeOpen(h, th, k), uvs[k];
    assert OpenList(h, th) && u in uvs;
    OpenDistinct(h, th);
    DropMembers(uvs, k);
    forall x | x in h' && h'[x].body.Thread? ensures OpenList(h', x) {
      assert OpenList(h, x);
      if x == th { DropDescends(h, h', th, k); }
    }
    forall x | IsOpen(h', x) ensures OpenListed(h', x) { assert IsOpen(h, x) && OpenListed(h, x); }
  }

  lemma DropDescends(h: Heap, h': Heap, th: Ref, k: nat)
    requires th in h && h[th].body.Thread? && OpenList(h, th) && k < |h[th].body.openupval|
    requires th in h' && h'[th] == WithOpen(h[th], Drop(h[th].body.openupval, k))
    requires forall u :: u in h[th].body.openupval && u != h[th].body.openupval[k] ==> u in h' && h'[u] == h[u]
    ensures OpenList(h', th)
  {
    var uvs := h[th].body.openupval;
    var t := Drop(uvs, k);
    OpenDistinct(h, th);
    DropMembers(uvs, k);
    forall j | 0 <= j < |t| ensures t[j] == uvs[if j < k then j else j + 1] {}
  }

  /** The heap where the topmost open upvalue of a thread has its value itself (luaF_close). */
  function CloseTop(h: Heap, th: Ref): Heap
    requires th in h && h[th].body.Thread? && h[th].body.openupval != [] && IsOpen(h, h[th].body.openupval[0])
  {
    var u := h[th].body.openupval[0];
    h[th := WithOpen(h[th], h[th].body.openupval[1..])]
     [u := h[u].(body := Upval(Closed(UpvalValue(h, h[u].body.loc))))]
  }

  lemma StructureCloseTop(h: Heap, rootgc: seq<Ref>, strt: seq<seq<Ref>>, uvhead: seq<Ref>, out: set<Ref>, th: Ref, i: nat)
    requires Structured(h, rootgc, strt, uvhead, out) && th in h && h[th].body.Thread? && h[th].body.openupval != []
    requires i < |uvhead| && uvhead[i] == h[th].body.openupval[0] && uvhead[i] !in out
    ensures IsOpen(h, uvhead[i])
    ensures Structured(CloseTop(h, th), [uvhead[i]] + rootgc, strt, Drop(uvhead, i), out)
  {
    hide Drop;
    var u := uvhead[i];
    assert OpenList(h, th) && u in h[th].body.openupval;
    var h' := CloseTop(h, th);
    assert !InRoots(h, u) && u != th;
    InsertMembers(rootgc, 0, u);
    assert Insert(rootgc, 0, u) == [u] + rootgc;
    DropMembers(uvhead, i);
    OpenClosed(h, th);
    forall x ensures (InRoots(h', x) <==> InRoots(h, x) || x == u) && (IsOpen(h', x) <==> IsOpen(h, x) && x != u) {}
  }

  lemma OpenClosed(h: Heap, th: Ref)
    requires OpenLists(h) && th in h && h[th].body.Thread? && h[th].body.openupval != []
    ensures IsOpen(h, h[th].body.openupval[0]) && OpenLists(CloseTop(h, th))
  {
    var uvs := h[th].body.openupval;
    var u := uvs[0];
    assert OpenList(h, th) && u in uvs;
    var h' := CloseTop(h, th);
    OpenDistinct(h, th);
    DropMembers(uvs, 0);
    assert Drop(uvs, 0) == uvs[1..];
    forall x | x in h' && h'[x].body.Thread? ensures OpenList(h', x) {
      assert OpenList(h, x);
      if x == th { DropDescends(h, h', th, 0); }
    }
    forall x | IsOpen(h', x) ensures OpenListed(h', x) { assert IsOpen(h, x) && OpenListed(h, x); }
  }

  // ---------------------------------------------------------------- objects that come

  /** A new object other than a string or an open upvalue, linked at position i. */
  lemma StructureNew(h: Heap, rootgc: seq<Ref>, strt: seq<seq<Ref>>, uvhead: seq<Ref>, r: Ref, o: Obj, i: nat)
    requires Structured(h, rootgc, strt, uvhead, {}) && r !in h && i <= |rootgc|
    requires o.body.Holder? || (o.body.Thread? && o.body.openupval == []) || (o.body.Upval? && o.body.loc.Closed?)
    ensures Structured(h[r := o], Insert(rootgc, i, r), strt, uvhead, {})
  {
    hide Insert;
    var h' := h[r := o];
    assert !InRoots(h, r);
    InsertMembers(rootgc, i, r);
    forall x ensures (InRoots(h', x) <==> InRoots(h, x) || x == r) && (IsOpen(h', x) <==> IsOpen(h, x)) {}
    forall th | th in h' && h'[th].body.Thread? ensures OpenList(h', th) { if th != r { assert OpenList(h, th); } }
    forall u | IsOpen(h', u) ensures OpenListed(h', u) { assert IsOpen(h, u) && OpenListed(h, u); }
  }

  lemma StructureNewString(h: Heap, rootgc: seq<Ref>, strt: seq<seq<Ref>>, uvhead: seq<Ref>, r: Ref, o: Obj, b: nat)
    requires Structured(h, rootgc, strt, uvhead, {}) && r !in h && b < |strt| && o.body == StringBody(b)
    ensures Structured(h[r := o], rootgc, strt[b := [r] + strt[b]], uvhead, {})
  {
    var h' := h[r := o];
    InsertMembers(strt[b], 0, r);
    assert Insert(strt[b], 0, r) == [r] + strt[b];
    forall x ensures (InRoots(h', x) <==> InRoots(h, x)) && (IsOpen(h', x) <==> IsOpen(h, x)) {}
    forall th | th in h' && h'[th].body.Thread? ensures OpenList(h', th) { assert OpenList(h, th); }
    forall u | IsOpen(h', u) ensures OpenListed(h', u) { assert IsOpen(h, u) && OpenListed(h, u); }
  }

  /** A new open upvalue for a slot, put before the k-th of its thread. */
  function AddOpen(h: Heap, th: Ref, k: nat, u: Ref, slot: nat, c: Color): Heap
    requires th in h && h[th].body.Thread? && k <= |h[th].body.openupval|
  {
    h[th := WithOpen(h[th], Insert(h[th].body.openupval, k, u))][u := Obj(c, false, Upval(Open(th, slot)))]
  }

  lemma StructureAddOpen(h: Heap, rootgc: seq<Ref>, strt: seq<seq<Ref>>, uvhead: seq<Ref>, th: Ref, k: nat, u: Ref, slot: nat, c: Color)
    requires Structured(h, rootgc, strt, uvhead, {}) && th in h && h[th].body.Thread? && slot < |h[th].body.stack| && u !in h
    requires k <= |h[th].body.openupval|
    requires forall i :: 0 <= i < k ==> IsOpen(h, h[th].body.openupval[i]) && SlotOf(h, h[th].body.openupval[i]) > slot
    requires k < |h[th].body.openupval| ==> IsOpen(h, h[th].body.openupval[k]) && SlotOf(h, h[th].body.openupval[k]) < slot
    ensures Structured(AddOpen(h, th, k, u, slot, c), rootgc, strt, [u] + uvhead, {})
  {
    hide Insert;
    var h' := AddOpen(h, th, k, u, slot, c);
    assert !IsOpen(h, u);
    InsertMembers(uvhead, 0, u);
    InsertHead(uvhead, u);
    OpenAdded(h, th, k, u, slot, c);
    forall x ensures (InRoots(h', x) <==> InRoots(h, x)) && (IsOpen(h', x) <==> IsOpen(h, x) || x == u) {}
  }

  lemma OpenAdded(h: Heap, th: Ref, k: nat, u: Ref, slot: nat, c: Color)
    requires OpenLists(h) && th in h && h[th].body.Thread? && slot < |h[th].body.stack| && u !in h
    requires k <= |h[th].body.openupval|
    requires forall i :: 0 <= i < k ==> IsOpen(h, h[th].body.openupval[i]) && SlotOf(h, h[th].body.openupval[i]) > slot
    requires k < |h[th].body.openupval| ==> IsOpen(h, h[th].body.openupval[k]) && SlotOf(h, h[th].body.openupval[k]) < slot
    ensures OpenLists(AddOpen(h, th, k, u, slot, c))
  {
    var h' := AddOpen(h, th, k, u, slot, c);
    assert OpenList(h, th);
    OpenDistinct(h, th);
    forall x | x in h' && h'[x].body.Thread? ensures OpenList(h', x) {
      if x == th {
        InsertDescends(h, th, k, u, slot, c);
      } else {
        assert OpenList(h, x);
      }
    }
    InsertMembers(h[th].body.openupval, k, u);
    forall x | IsOpen(h', x) ensures OpenListed(h', x) { if x != u { assert IsOpen(h, x) && OpenListed(h, x); } }
  }

  lemma InsertDescends(h: Heap, th: Ref, k: nat, u: Ref, slot: nat, c: Color)
    requires th in h && h[th].body.Thread? && OpenList(h, th) && slot < |h[th].body.stack| && u !in h
    requires k <= |h[th].body.openupval|
    requires forall i :: 0 <= i < k ==> SlotOf(h, h[th].body.openupval[i]) > slot
    requires k < |h[th].body.openupval| ==> SlotOf(h, h[th].body.openupval[k]) < slot
    ensures OpenList(AddOpen(h, th, k, u, slot, c), th)
  {
    var uvs := h[th].body.openupval;
    var h', t := AddOpen(h, th, k, u, slot, c), Insert(uvs, k, u);
    forall j | 0 <= j < |t| ensures t[j] == (if j < k then uvs[j] else if j == k then u else uvs[j - 1]) {}
    forall x | x in t ensures IsOpen(h', x) && h'[x].body.loc.thread == th && SlotOf(h', x) < |h'[th].body.stack| {
      if x != u { assert x in uvs; }
    }
    forall i, j | 0 <= i < j < |t| ensures SlotOf(h', t[i]) > SlotOf(h', t[j]) {
      if k < |uvs| && j > k + 1 { assert SlotOf(h, uvs[k]) > SlotOf(h, uvs[j - 1]); }
    }
  }
}
