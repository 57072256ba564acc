/** The first half of an in-place resize: chains are broken, integer keys go to the array part and
    the other keys to the low nodes. */
module TableBreak {
  import opened TableNodes
  import opened TableRebuild
  import opened TableMap
  import opened TableSizes

  /** Nodes that count: not yet treated, or low enough to stay. */
  predicate Counts(j: int, i: nat, nh: nat) { j < i ==> j < nh }

  /** Nodes below i have been treated; asize0 was the size of the array part before it grew. */
  ghost predicate Broken(a: seq<Val>, asize0: nat, t: seq<Node>, i: nat, nh: nat, c: Contents) {
    && asize0 <= |a| && nh <= |t| && i <= |t| && Sound(c)
    && (forall j :: 0 <= j < |t| && t[j].key == NilKey ==> t[j] == FREE)
    && (forall j :: 0 <= j < i && j < nh && Keyed(t, j) ==> Settled(t[j], |a|))
    && (forall j :: Keyed(t, j) && Counts(j, i, nh) ==> Right(t[j], asize0, c))
    && BrokenDistinct(t, i, nh)
    && (forall k :: k in c ==> Found(a, t, i, nh, k, c[k]))
    && (forall x :: 0 <= x < |a| && a[x] != NilVal ==> Lookup(c, IntKey(x + 1)) == a[x])
  }

  predicate Settled(n: Node, asize: nat) { n.next == NULL && n.val != NilVal && !InArray(n.key, asize) }

  predicate Right(n: Node, asize0: nat, c: Contents) { n.val == Lookup(c, n.key) && !InArray(n.key, asize0) && n.key != NaNKey }

  ghost predicate BrokenDistinct(t: seq<Node>, i: nat, nh: nat) {
    forall j, k :: 0 <= j < k < |t| && Counts(j, i, nh) && Counts(k, i, nh) && t[j].key != NilKey && !t[j].key.DeadKey?
      ==> t[j].key != t[k].key
  }

  ghost predicate Found(a: seq<Val>, t: seq<Node>, i: nat, nh: nat, k: Key, v: Val) {
    (InArray(k, |a|) && a[k.k - 1] == v) || exists j :: Keyed(t, j) && Counts(j, i, nh) && t[j].key == k
  }

  // ---------------------------------------------------------------- start

  function Nils(n: nat): (s: seq<Val>)
    ensures |s| == n && forall i :: 0 <= i < n ==> s[i] == NilVal
  {
    seq(n, _ => NilVal)
  }

  function Frees(n: nat): (s: seq<Node>)
    ensures |s| == n && forall i :: 0 <= i < n ==> s[i] == FREE
  {
    seq(n, _ => FREE)
  }

  lemma BreakStart(h: Hash, a: seq<Val>, more: nat, t: seq<Node>, rank: seq<real>, extra: nat, c: Contents, nh: nat)
    requires Chained(h, t, rank) && Agrees(a, t, c) && nh <= |t| + extra
    ensures Broken(a + Nils(more), |a|, t + Frees(extra), 0, nh, c)
  {
    var b, u := a + Nils(more), t + Frees(extra);
    forall k | k in c ensures Found(b, u, 0, nh, k, c[k]) {
      if InArray(k, |a|) {
        assert b[k.k - 1] == a[k.k - 1];
        assert k == IntKey(k.k - 1 + 1);
      } else {
        var j :| Keyed(t, j) && t[j].key == k;
        assert Keyed(u, j) && u[j].key == k;
      }
    }
    forall j | Keyed(u, j) ensures Right(u[j], |a|, c) { assert Keyed(t, j); }
  }

  // ---------------------------------------------------------------- steps

  lemma BreakClear(a: seq<Val>, asize0: nat, t: seq<Node>, i: nat, nh: nat, c: Contents)
    requires Broken(a, asize0, t, i, nh, c) && i < |t| && t[i].val == NilVal
    ensures Broken(a, asize0, t[i := FREE], i + 1, nh, c)
  {
    var u := t[i := FREE];
    forall k | k in c ensures Found(a, u, i + 1, nh, k, c[k]) {
      assert Found(a, t, i, nh, k, c[k]);
      if !(InArray(k, |a|) && a[k.k - 1] == c[k]) {
        var j :| Keyed(t, j) && Counts(j, i, nh) && t[j].key == k;
        assert j != i;
        assert Keyed(u, j) && u[j].key == k;
      }
    }
  }

  /** move_number: an integer key inside the array part. */
  lemma BreakNumber(a: seq<Val>, asize0: nat, t: seq<Node>, i: nat, nh: nat, c: Contents)
    requires Broken(a, asize0, t, i, nh, c) && i < |t| && t[i].val != NilVal && InArray(t[i].key, |a|)
    ensures Broken(a[t[i].key.k - 1 := t[i].val], asize0, t[i := FREE], i + 1, nh, c)
  {
    assert Keyed(t, i);
    var u, b := t[i := FREE], a[t[i].key.k - 1 := t[i].val];
    assert Right(t[i], asize0, c);
    forall k | k in c ensures Found(b, u, i + 1, nh, k, c[k]) {
      assert Found(a, t, i, nh, k, c[k]);
      if k != t[i].key && !(InArray(k, |a|) && a[k.k - 1] == c[k]) {
        var j :| Keyed(t, j) && Counts(j, i, nh) && t[j].key == k;
        assert Keyed(u, j) && u[j].key == k;
      }
    }
  }

  lemma BreakKeep(a: seq<Val>, asize0: nat, t: seq<Node>, i: nat, nh: nat, c: Contents)
    requires Broken(a, asize0, t, i, nh, c) && i < |t| && i < nh && t[i].val != NilVal && !InArray(t[i].key, |a|)
    ensures Broken(a, asize0, t[i := t[i].(next := NULL)], i + 1, nh, c)
  {
    var u := t[i := t[i].(next := NULL)];
    assert Keyed(t, i);
    assert Right(t[i], asize0, c);
    forall k | k in c ensures Found(a, u, i + 1, nh, k, c[k]) {
      assert Found(a, t, i, nh, k, c[k]);
      if !(InArray(k, |a|) && a[k.k - 1] == c[k]) {
        var j :| Keyed(t, j) && Counts(j, i, nh) && t[j].key == k;
        assert Keyed(u, j) && u[j].key == k;
      }
    }
  }

  /** Compaction: a key beyond the new size is copied to a free low node. */
  lemma BreakCompact(a: seq<Val>, asize0: nat, t: seq<Node>, i: nat, nh: nat, c: Contents, n: nat)
    requires Broken(a, asize0, t, i, nh, c) && nh <= i < |t| && t[i].val != NilVal && !InArray(t[i].key, |a|)
    requires n < nh && t[n].key == NilKey
    ensures Broken(a, asize0, t[i := t[i].(next := NULL)][n := t[i].(next := NULL)], i + 1, nh, c)
  {
    var u := t[i := t[i].(next := NULL)][n := t[i].(next := NULL)];
    assert Keyed(t, i);
    assert Right(t[i], asize0, c);
    forall k | k in c ensures Found(a, u, i + 1, nh, k, c[k]) {
      assert Found(a, t, i, nh, k, c[k]);
      if !(InArray(k, |a|) && a[k.k - 1] == c[k]) {
        var j :| Keyed(t, j) && Counts(j, i, nh) && t[j].key == k;
        var x := if j == i then n else j;
        assert Keyed(u, x) && u[x].key == k;
      }
    }
  }

  // ---------------------------------------------------------------- counting keys

  function KeysOf(t: seq<Node>, n: nat): (s: set<Key>)
    requires n <= |t|
  {
    set j | 0 <= j < n :: t[j].key
  }

  lemma {:induction false} KeysSize(t: seq<Node>, n: nat)
    requires n <= |t| && forall i, j :: 0 <= i < j < n ==> t[i].key != t[j].key
    ensures |KeysOf(t, n)| == n
  {
    if n == 0 {
      assert KeysOf(t, n) == {};
    } else {
      KeysSize(t, n - 1);
      assert KeysOf(t, n) == KeysOf(t, n - 1) + {t[n - 1].key};
    }
  }

  /** The keys with values that the node vector must hold when the array part has a given size. */
  function HashKeys(c: Contents, asize: nat): set<Key> { set k | k in c && !InArray(k, asize) }

  /** With a node to move there is a free node below nh, if nh covers the keys to be held. */
  lemma FreeToCompact(a: seq<Val>, asize0: nat, t: seq<Node>, i: nat, nh: nat, c: Contents)
    requires Broken(a, asize0, t, i, nh, c) && nh <= i < |t| && t[i].val != NilVal && !InArray(t[i].key, |a|)
    requires |HashKeys(c, |a|)| <= nh
    ensures exists n :: 0 <= n < nh && t[n].key == NilKey
  {
    if forall n :: 0 <= n < nh ==> t[n].key != NilKey {
      assert Keyed(t, i) && Right(t[i], asize0, c);
      forall n | 0 <= n < nh ensures t[n].key in HashKeys(c, |a|) && t[n].key != t[i].key && Proper(t[n].key) {
        assert Keyed(t, n) && Settled(t[n], |a|) && Right(t[n], asize0, c);
      }
      KeysSize(t, nh);
      assert KeysOf(t, nh) + {t[i].key} <= HashKeys(c, |a|);
      SubsetSize(KeysOf(t, nh) + {t[i].key}, HashKeys(c, |a|));
    }
  }

  // ---------------------------------------------------------------- end

  /** All nodes have been treated and the vector cut to its new size: everything left is loose. */
  lemma BreakEnd(h: Hash, a: seq<Val>, asize0: nat, t: seq<Node>, nh: nat, c: Contents)
    requires Broken(a, asize0, t, |t|, nh, c)
    ensures Rebuilding(h, t[..nh], Zeros(nh)) && Agrees(a, t[..nh], c)
  {
    var u := t[..nh];
    forall j | Keyed(u, j) ensures Loose(u, j) && u[j].val == Lookup(c, u[j].key) && !InArray(u[j].key, |a|) && u[j].key != NaNKey && u[j].val != NilVal {
      assert Keyed(t, j) && Settled(t[j], |a|) && Right(t[j], asize0, c);
      BreakUnlinked(a, asize0, t, nh, c, j);
    }
    BreakLinks(a, asize0, t, nh, c);
    forall k | k in c && !InArray(k, |a|) ensures Here(u, k) {
      assert Found(a, t, |t|, nh, k, c[k]);
      var j :| Keyed(t, j) && Counts(j, |t|, nh) && t[j].key == k;
      assert Keyed(u, j) && u[j].key == k;
    }
    forall x | 0 <= x < |a| ensures a[x] == Lookup(c, IntKey(x + 1)) {
      if IntKey(x + 1) in c {
        assert Found(a, t, |t|, nh, IntKey(x + 1), c[IntKey(x + 1)]);
      }
    }
  }

  function Zeros(n: nat): (s: seq<real>)
    ensures |s| == n
  {
    seq(n, _ => 0.0)
  }

  lemma BreakLinks(a: seq<Val>, asize0: nat, t: seq<Node>, nh: nat, c: Contents)
    requires Broken(a, asize0, t, |t|, nh, c)
    ensures Links(t[..nh], Zeros(nh)) && DistinctKeys(t[..nh])
  {
    var u := t[..nh];
    forall j | 0 <= j < nh ensures u[j].next == NULL { if u[j].key != NilKey { assert Keyed(t, j); } }
  }

  lemma BreakUnlinked(a: seq<Val>, asize0: nat, t: seq<Node>, nh: nat, c: Contents, j: int)
    requires Broken(a, asize0, t, |t|, nh, c) && 0 <= j < nh
    ensures Unlinked(t[..nh], j)
  {
    var u := t[..nh];
    forall i | 0 <= i < nh ensures u[i].next != j { if u[i].key != NilKey { assert Keyed(t, i); } }
  }

  // ---------------------------------------------------------------- after the rebuild

  lemma RebuiltAgrees(h: Hash, a: seq<Val>, t: seq<Node>, u: seq<Node>, rank: seq<real>, c: Contents)
    requires Agrees(a, t, c) && SameEntries(t, u) && Rebuilding(h, u, rank)
    ensures Agrees(a, u, c)
  {
    forall j | Keyed(u, j) ensures u[j].val == Lookup(c, u[j].key) && !InArray(u[j].key, |a|) && u[j].key != NaNKey {
      assert Holds(u, u[j].key, u[j].val);
      assert Holds(t, u[j].key, u[j].val);
      var i :| Keyed(t, i) && t[i].key == u[j].key && t[i].val == u[j].val;
    }
    forall k | k in c && !InArray(k, |a|) ensures Here(u, k) {
      var j :| Keyed(t, j) && t[j].key == k;
      assert Holds(t, k, t[j].val);
      assert Holds(u, k, t[j].val);
      var i :| Keyed(u, i) && u[i].key == k && u[i].val == t[j].val;
    }
  }

  /** All keys of the vector are among s, and none is dead. */
  ghost predicate KeyedWithin(t: seq<Node>, s: set<Key>) { forall j :: Keyed(t, j) ==> t[j].key in s && Proper(t[j].key) }

  lemma RebuiltWithin(h: Hash, a: seq<Val>, t: seq<Node>, rank: seq<real>, c: Contents)
    requires Agrees(a, t, c) && Rebuilding(h, t, rank)
    ensures KeyedWithin(t, HashKeys(c, |a|))
  {
  }

  /** A key of s that is not there finds a free node, if the vector covers s. */
  lemma RoomFor(t: seq<Node>, s: set<Key>, key: Key)
    requires KeyedWithin(t, s) && key in s && Absent(t, key) && |s| <= |t| && DistinctKeys(t)
    ensures exists n :: 0 <= n < |t| && t[n].key == NilKey
  {
    if forall n :: 0 <= n < |t| ==> t[n].key != NilKey {
      forall n | 0 <= n < |t| ensures t[n].key in s && Proper(t[n].key) && t[n].key != key { assert Keyed(t, n); }
      KeysSize(t, |t|);
      assert KeysOf(t, |t|) + {key} <= s;
      SubsetSize(KeysOf(t, |t|) + {key}, s);
    }
  }
}
