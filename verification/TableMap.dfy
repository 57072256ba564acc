/** How array part and node vector of a table hold a finite map. */
module TableMap {
  import opened TableNodes
  import opened TableRebuild

  type Contents = map<Key, Val>

  function Lookup(c: Contents, key: Key): Val { if key in c then c[key] else NilVal }

  /** Storing nil removes the key. */
  function Update(c: Contents, key: Key, v: Val): Contents { if v == NilVal then c - {key} else c[key := v] }

  predicate InArray(key: Key, size: nat) { key.IntKey? && 1 <= key.k <= size }

  ghost predicate Sound(c: Contents) { forall k :: k in c ==> Proper(k) && c[k] != NilVal }

  ghost predicate ArrayAgrees(a: seq<Val>, c: Contents) {
    forall i :: 0 <= i < |a| ==> a[i] == Lookup(c, IntKey(i + 1))
  }

  /** The node vector has the values of the keys that are not in the array part, wherever they
      are; keys without a value may be there too. */
  ghost predicate NodesAgree(t: seq<Node>, asize: nat, c: Contents) {
    && (forall j :: Keyed(t, j) ==> t[j].val == Lookup(c, t[j].key) && !InArray(t[j].key, asize) && t[j].key != NaNKey)
    && (forall k :: k in c && !InArray(k, asize) ==> Here(t, k))
  }

  ghost predicate Here(t: seq<Node>, k: Key) { exists j :: Keyed(t, j) && t[j].key == k }

  ghost predicate Agrees(a: seq<Val>, t: seq<Node>, c: Contents) {
    Sound(c) && ArrayAgrees(a, c) && NodesAgree(t, |a|, c)
  }

  // ---------------------------------------------------------------- new keys

  lemma OverwriteAgrees(a: seq<Val>, t: seq<Node>, c: Contents, mp: nat, key: Key)
    requires Agrees(a, t, c) && mp < |t| && t[mp].val == NilVal && Proper(key) && key !in c && !InArray(key, |a|)
    ensures Agrees(a, Overwritten(t, mp, key), c)
  {
    var u := Overwritten(t, mp, key);
    forall k | k in c && !InArray(k, |a|) ensures Here(u, k) {
      var j :| Keyed(t, j) && t[j].key == k;
      assert Keyed(u, j) && u[j].key == k;
    }
  }

  lemma LinkAgrees(a: seq<Val>, t: seq<Node>, c: Contents, mp: nat, n: nat, key: Key)
    requires Agrees(a, t, c) && mp < |t| && n < |t| && mp != n && t[n].key == NilKey && Proper(key) && key !in c && !InArray(key, |a|)
    ensures Agrees(a, LinkedIn(t, mp, n, key, NilVal), c)
  {
    var u := LinkedIn(t, mp, n, key, NilVal);
    forall k | k in c && !InArray(k, |a|) ensures Here(u, k) {
      var j :| Keyed(t, j) && t[j].key == k;
      assert Keyed(u, j) && u[j].key == k;
    }
  }

  lemma DisplaceAgrees(a: seq<Val>, t: seq<Node>, c: Contents, prev: nat, mp: nat, n: nat, key: Key)
    requires Agrees(a, t, c) && prev < |t| && mp < |t| && n < |t| && mp != n && prev != n && prev != mp
    requires t[n].key == NilKey && Proper(key) && key !in c && !InArray(key, |a|)
    ensures Agrees(a, Displaced(t, prev, mp, n, key, NilVal), c)
  {
    var u := Displaced(t, prev, mp, n, key, NilVal);
    forall k | k in c && !InArray(k, |a|) ensures Here(u, k) {
      var j :| Keyed(t, j) && t[j].key == k;
      assert Keyed(u, Moved(mp, n, j)) && u[Moved(mp, n, j)].key == k;
    }
    forall j | Keyed(u, j) ensures u[j].val == Lookup(c, u[j].key) && !InArray(u[j].key, |a|) && u[j].key != NaNKey {
      if j == n { assert u[j].key == t[mp].key; } else if j != mp { assert u[j].key == t[j].key; }
    }
  }

  // ---------------------------------------------------------------- values

  lemma ArrayWrite(a: seq<Val>, t: seq<Node>, c: Contents, i: nat, v: Val)
    requires Agrees(a, t, c) && i < |a|
    ensures Agrees(a[i := v], t, Update(c, IntKey(i + 1), v))
  {
  }

  /** A value is stored at a node. */
  function Valued(t: seq<Node>, j: nat, v: Val): seq<Node>
    requires j < |t|
  {
    t[j := t[j].(val := v)]
  }

  lemma NodeWrite(h: Hash, a: seq<Val>, t: seq<Node>, rank: seq<real>, c: Contents, j: nat, v: Val)
    requires Agrees(a, t, c) && Chained(h, t, rank) && Keyed(t, j) && Proper(t[j].key)
    ensures Agrees(a, Valued(t, j, v), Update(c, t[j].key, v)) && Chained(h, Valued(t, j, v), rank)
  {
    hide AllPlaced;
    WriteAgrees(t, |a|, c, j, v);
    SamePlaced(h, t, Valued(t, j, v));
  }

  lemma WriteAgrees(t: seq<Node>, asize: nat, c: Contents, j: nat, v: Val)
    requires NodesAgree(t, asize, c) && DistinctKeys(t) && Keyed(t, j) && Proper(t[j].key)
    ensures NodesAgree(Valued(t, j, v), asize, Update(c, t[j].key, v))
  {
    var u := Valued(t, j, v);
    var d := Update(c, t[j].key, v);
    forall k | k in d && !InArray(k, asize) ensures Here(u, k) {
      if k == t[j].key {
        assert Keyed(u, j) && u[j].key == k;
      } else {
        var i :| Keyed(t, i) && t[i].key == k;
        assert Keyed(u, i) && u[i].key == k;
      }
    }
    forall i | Keyed(u, i) ensures u[i].val == Lookup(d, u[i].key) && !InArray(u[i].key, asize) && u[i].key != NaNKey {
      assert Keyed(t, i);
      if i < j { assert t[i].key != t[j].key; } else if j < i { assert t[j].key != t[i].key; }
    }
  }

  /** Neither links nor main positions change. */
  lemma SamePlaced(h: Hash, t: seq<Node>, u: seq<Node>)
    requires |u| == |t| && AllPlaced(h, t)
    requires forall j :: 0 <= j < |t| ==> u[j].next == t[j].next && (Keyed(u, j) <==> Keyed(t, j)) && Origin(u[j].key) == Origin(t[j].key)
    ensures AllPlaced(h, u)
  {
    forall i | Keyed(u, i) ensures Placed(h, u, i) {
      assert Keyed(t, i) && Placed(h, t, i);
      SameLinks(t, u, Main(h, t[i].key, |t|), i);
      assert InPlace(h, u, Main(h, t[i].key, |t|));
    }
  }

  lemma SameLinks(t: seq<Node>, u: seq<Node>, a: int, b: int)
    requires |u| == |t| && (forall j :: 0 <= j < |t| ==> u[j].next == t[j].next) && Reaches(t, a, b)
    ensures Reaches(u, a, b)
  {
    var n: nat :| Path(t, a, b, n);
    SamePath(t, u, a, b, n);
  }

  lemma {:induction false} SamePath(t: seq<Node>, u: seq<Node>, a: int, b: int, n: nat)
    requires |u| == |t| && (forall j :: 0 <= j < |t| ==> u[j].next == t[j].next) && Path(t, a, b, n)
    ensures Path(u, a, b, n)
    decreases n
  {
    if n > 0 { SamePath(t, u, t[a].next, b, n - 1); }
  }

  /** removeentry of the collector: a key without a value that is freed becomes a dead key. */
  lemma DeadChained(h: Hash, a: seq<Val>, t: seq<Node>, rank: seq<real>, c: Contents, j: nat)
    requires Agrees(a, t, c) && Chained(h, t, rank) && Keyed(t, j) && t[j].val == NilVal && Proper(t[j].key)
    ensures var u := t[j := t[j].(key := DeadKey(t[j].key))]; Agrees(a, u, c) && Chained(h, u, rank)
  {
    var u := t[j := t[j].(key := DeadKey(t[j].key))];
    hide AllPlaced;
    forall k | k in c && !InArray(k, |a|) ensures Here(u, k) {
      var i :| Keyed(t, i) && t[i].key == k;
      assert i != j;
      assert Keyed(u, i) && u[i].key == k;
    }
    SamePlaced(h, t, u);
    forall i | Keyed(u, i) ensures u[i].val == Lookup(c, u[i].key) && !InArray(u[i].key, |a|) && u[i].key != NaNKey { assert Keyed(t, i); }
  }

  // ---------------------------------------------------------------- search

  /** The chain from a key's main position still has the key ahead, if it is there at all. */
  ghost predicate Ahead(t: seq<Node>, cur: int, key: Key) {
    forall j :: 0 <= j < |t| && t[j].key == key ==> cur != NULL && Reaches(t, cur, j)
  }

  lemma AheadStart(h: Hash, t: seq<Node>, rank: seq<real>, key: Key)
    requires Chained(h, t, rank) && Proper(key) && |t| > 0
    ensures Ahead(t, Main(h, key, |t|), key)
  {
    forall j | 0 <= j < |t| && t[j].key == key ensures Reaches(t, Main(h, key, |t|), j) { assert Placed(h, t, j); }
  }

  lemma AheadNext(t: seq<Node>, cur: int, key: Key)
    requires Ahead(t, cur, key) && 0 <= cur < |t| && t[cur].key != key
    ensures Ahead(t, t[cur].next, key)
  {
    forall j | 0 <= j < |t| && t[j].key == key ensures t[cur].next != NULL && Reaches(t, t[cur].next, j) {
      var n: nat :| Path(t, cur, j, n);
      assert Path(t, t[cur].next, j, n - 1);
    }
  }

  /** Positions further along any chain. */
  ghost function Above(rank: seq<real>, j: int): set<int>
    requires 0 <= j < |rank|
  {
    set i | 0 <= i < |rank| && rank[i] > rank[j]
  }

  lemma AboveShrinks(t: seq<Node>, rank: seq<real>, j: int)
    requires Links(t, rank) && 0 <= j < |t| && t[j].next != NULL
    ensures 0 <= t[j].next < |rank| && Above(rank, t[j].next) < Above(rank, j)
  {
    assert t[j].next in Above(rank, j) && t[j].next !in Above(rank, t[j].next);
  }
}
