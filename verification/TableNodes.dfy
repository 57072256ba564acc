/** The node vector of a Lua table: a chained scatter table with Brent's variation, where a key
    out of its main position never sits in the main position of another. */
module TableNodes {

  datatype Val = NilVal | SomeVal(x: int)

  /** Any other key is its type, and of a string its hash, as kind, with a value or the address of an
      object as id.  Dead keys are left by the collector in place of keys it has freed. */
  datatype Key = NilKey | IntKey(k: int) | NaNKey | OtherKey(id: nat, kind: nat, collectable: bool) | DeadKey(was: Key)

  datatype Node = Node(val: Val, key: Key, next: int)

  type Hash = (Key, nat) -> nat

  const NULL := -1

  const FREE := Node(NilVal, NilKey, NULL)

  function Origin(k: Key): Key { if k.DeadKey? then k.was else k }

  /** mainposition: any function of the key and the size of the vector. */
  function Main(h: Hash, k: Key, size: nat): (m: nat)
    requires size > 0
    ensures m < size
  {
    h(Origin(k), size) % size
  }

  predicate Keyed(t: seq<Node>, j: int) { 0 <= j < |t| && t[j].key != NilKey }

  predicate InPlace(h: Hash, t: seq<Node>, j: int) { Keyed(t, j) && Main(h, t[j].key, |t|) == j }

  // ---------------------------------------------------------------- chains

  /** b is n links after a. */
  ghost predicate Path(t: seq<Node>, a: int, b: int, n: nat)
    decreases n
  {
    0 <= a < |t| && if n == 0 then a == b else Path(t, t[a].next, b, n - 1)
  }

  ghost predicate Reaches(t: seq<Node>, a: int, b: int) { exists n: nat :: Path(t, a, b, n) }

  /** Links lead to keyed nodes, no two to the same, and ranks grow along them; free nodes are
      unlinked. */
  ghost predicate Links(t: seq<Node>, rank: seq<real>) {
    && |rank| == |t|
    && (forall j :: 0 <= j < |t| && t[j].next != NULL ==> Keyed(t, t[j].next) && rank[j] < rank[t[j].next])
    && (forall i, j :: 0 <= i < j < |t| && t[i].next != NULL ==> t[i].next != t[j].next)
    && (forall j :: 0 <= j < |t| && t[j].key == NilKey ==> t[j] == FREE)
  }

  /** A key is found from its main position, which holds a key that is in place. */
  ghost predicate Placed(h: Hash, t: seq<Node>, j: int)
    requires Keyed(t, j)
  {
    var m := Main(h, t[j].key, |t|);
    InPlace(h, t, m) && Reaches(t, m, j)
  }

  ghost predicate AllPlaced(h: Hash, t: seq<Node>) { forall j :: Keyed(t, j) ==> Placed(h, t, j) }

  /** No key is there twice; dead keys equal nothing. */
  ghost predicate DistinctKeys(t: seq<Node>) {
    forall i, j :: 0 <= i < j < |t| && t[i].key != NilKey && !t[i].key.DeadKey? ==> t[i].key != t[j].key
  }

  /** The invariant of a hash part. */
  ghost predicate Chained(h: Hash, t: seq<Node>, rank: seq<real>) {
    Links(t, rank) && AllPlaced(h, t) && DistinctKeys(t)
  }

  lemma {:induction false} PathLast(t: seq<Node>, a: int, b: int, n: nat)
    requires Path(t, a, b, n) && n > 0
    ensures exists p :: Path(t, a, p, n - 1) && 0 <= p < |t| && t[p].next == b
    decreases n
  {
    if n == 1 {
      assert Path(t, a, a, 0) && t[a].next == b;
    } else {
      PathLast(t, t[a].next, b, n - 1);
      var p :| Path(t, t[a].next, p, n - 2) && 0 <= p < |t| && t[p].next == b;
      assert Path(t, a, p, n - 1);
    }
  }

  // ---------------------------------------------------------------- a key into a free or dead node

  /** newkey when the main position holds no value: its key is replaced, its link stays. */
  function Overwritten(t: seq<Node>, mp: nat, key: Key): seq<Node>
    requires mp < |t|
  {
    t[mp := Node(NilVal, key, t[mp].next)]
  }

  lemma {:induction false} OverwritePath(t: seq<Node>, mp: nat, key: Key, a: int, b: int, n: nat)
    requires mp < |t| && Path(t, a, b, n)
    ensures Path(Overwritten(t, mp, key), a, b, n)
    decreases n
  {
    if n > 0 { OverwritePath(t, mp, key, t[a].next, b, n - 1); }
  }

  lemma OverwriteReaches(t: seq<Node>, mp: nat, key: Key, a: int, b: int)
    requires mp < |t| && Reaches(t, a, b)
    ensures Reaches(Overwritten(t, mp, key), a, b)
  {
    var n: nat :| Path(t, a, b, n);
    OverwritePath(t, mp, key, a, b, n);
  }

  ghost predicate Absent(t: seq<Node>, key: Key) { forall j :: 0 <= j < |t| ==> t[j].key != key }

  predicate Proper(key: Key) { key != NilKey && !key.DeadKey? && key != NaNKey }

  lemma OverwriteChained(h: Hash, t: seq<Node>, rank: seq<real>, mp: nat, key: Key)
    requires Chained(h, t, rank) && Proper(key) && Absent(t, key)
    requires mp < |t| && mp == Main(h, key, |t|) && t[mp].val == NilVal
    ensures Chained(h, Overwritten(t, mp, key), rank)
  {
    var u := Overwritten(t, mp, key);
    assert InPlace(h, u, mp);
    forall j | Keyed(u, j) ensures Placed(h, u, j) {
      if j == mp {
        assert Path(u, mp, mp, 0);
      } else {
        assert Placed(h, t, j);
        OverwriteReaches(t, mp, key, Main(h, t[j].key, |t|), j);
      }
    }
  }

  // ---------------------------------------------------------------- a node linked behind its main position

  /** The node n, free so far, gets the given content and follows mp. */
  function LinkedIn(t: seq<Node>, mp: nat, n: nat, key: Key, val: Val): seq<Node>
    requires mp < |t| && n < |t| && mp != n
  {
    t[n := Node(val, key, t[mp].next)][mp := t[mp].(next := n)]
  }

  /** Nothing leads to a node. */
  ghost predicate Unlinked(t: seq<Node>, n: int) { forall j :: 0 <= j < |t| ==> t[j].next != n }

  lemma {:induction false} LinkPath(t: seq<Node>, mp: nat, n: nat, key: Key, val: Val, a: int, b: int, k: nat)
    requires mp < |t| && n < |t| && mp != n && Unlinked(t, n) && a != n && Path(t, a, b, k)
    ensures Reaches(LinkedIn(t, mp, n, key, val), a, b)
    decreases k
  {
    var u := LinkedIn(t, mp, n, key, val);
    if k == 0 {
      assert Path(u, a, b, 0);
    } else {
      LinkPath(t, mp, n, key, val, t[a].next, b, k - 1);
      var i: nat :| Path(u, t[a].next, b, i);
      if a == mp {
        assert Path(u, n, b, i + 1);
        assert Path(u, a, b, i + 2);
      } else {
        assert Path(u, a, b, i + 1);
      }
    }
  }

  function LinkRank(t: seq<Node>, rank: seq<real>, mp: nat, n: nat): seq<real>
    requires mp < |t| && n < |t| && |rank| == |t|
  {
    var next := t[mp].next;
    rank[n := if 0 <= next < |t| then (rank[mp] + rank[next]) / 2.0 else rank[mp] + 1.0]
  }

  /** The links are sound after node n, unlinked before, follows mp. */
  lemma LinkLinks(t: seq<Node>, rank: seq<real>, mp: nat, n: nat, key: Key, val: Val)
    requires Links(t, rank) && Keyed(t, mp) && n < |t| && mp != n && key != NilKey
    requires Unlinked(t, n) && t[n].next == NULL
    ensures Links(LinkedIn(t, mp, n, key, val), LinkRank(t, rank, mp, n))
  {
    var u, r := LinkedIn(t, mp, n, key, val), LinkRank(t, rank, mp, n);
    forall j | 0 <= j < |u| && u[j].next != NULL ensures Keyed(u, u[j].next) && r[j] < r[u[j].next] {
      if j == mp { assert u[j].next == n; } else if j != n { assert u[j].next == t[j].next != n; }
    }
  }

  lemma LinkPlaced(h: Hash, t: seq<Node>, mp: nat, n: nat, key: Key, val: Val, j: int)
    requires mp < |t| && n < |t| && mp != n && Unlinked(t, n) && key != NilKey
    requires Keyed(t, j) && j != n && Placed(h, t, j) && Main(h, t[j].key, |t|) != n
    ensures Placed(h, LinkedIn(t, mp, n, key, val), j)
  {
    var m := Main(h, t[j].key, |t|);
    var k: nat :| Path(t, m, j, k);
    LinkPath(t, mp, n, key, val, m, j, k);
  }

  lemma LinkNew(h: Hash, t: seq<Node>, mp: nat, n: nat, key: Key, val: Val)
    requires InPlace(h, t, mp) && n < |t| && mp != n && key != NilKey && Main(h, key, |t|) == mp
    ensures Placed(h, LinkedIn(t, mp, n, key, val), n)
  {
    var u := LinkedIn(t, mp, n, key, val);
    assert Path(u, n, n, 0);
    assert Path(u, mp, n, 1);
  }

  lemma LinkChained(h: Hash, t: seq<Node>, rank: seq<real>, mp: nat, n: nat, key: Key)
    requires Chained(h, t, rank) && Proper(key) && Absent(t, key) && InPlace(h, t, mp) && Main(h, key, |t|) == mp
    requires n < |t| && t[n].key == NilKey
    ensures mp != n && Chained(h, LinkedIn(t, mp, n, key, NilVal), LinkRank(t, rank, mp, n))
  {
    var u := LinkedIn(t, mp, n, key, NilVal);
    LinkLinks(t, rank, mp, n, key, NilVal);
    LinkNew(h, t, mp, n, key, NilVal);
    forall j | Keyed(u, j) ensures Placed(h, u, j) {
      if j != n {
        assert Keyed(t, j) && Placed(h, t, j);
        LinkPlaced(h, t, mp, n, key, NilVal, j);
      }
    }
  }

  // ---------------------------------------------------------------- the colliding node is moved away

  /** The node at mp moves to n, prev links to it there, and mp gets the given content. */
  function Displaced(t: seq<Node>, prev: nat, mp: nat, n: nat, key: Key, val: Val): seq<Node>
    requires prev < |t| && mp < |t| && n < |t|
  {
    t[prev := t[prev].(next := n)][n := t[mp]][mp := Node(val, key, NULL)]
  }

  function Moved(mp: nat, n: nat, a: int): int { if a == mp then n else a }

  lemma {:induction false} DisplacePath(t: seq<Node>, rank: seq<real>, prev: nat, mp: nat, n: nat, key: Key, val: Val, a: int, b: int, k: nat)
    requires Links(t, rank) && prev < |t| && mp < |t| && n < |t| && mp != n && t[prev].next == mp && prev != n
    requires Unlinked(t, n) && a != n && Path(t, a, b, k)
    ensures Reaches(Displaced(t, prev, mp, n, key, val), Moved(mp, n, a), Moved(mp, n, b))
    decreases k
  {
    var u := Displaced(t, prev, mp, n, key, val);
    assert prev != mp;
    if k == 0 {
      assert Path(u, Moved(mp, n, a), Moved(mp, n, b), 0);
    } else {
      var c := t[a].next;
      DisplacePath(t, rank, prev, mp, n, key, val, c, b, k - 1);
      var i: nat :| Path(u, Moved(mp, n, c), Moved(mp, n, b), i);
      assert c != n && c != NULL;
      if c == mp { assert a == prev; }
      assert u[Moved(mp, n, a)].next == Moved(mp, n, c);
      assert Path(u, Moved(mp, n, a), Moved(mp, n, b), i + 1);
    }
  }

  lemma DisplaceLinks(t: seq<Node>, rank: seq<real>, prev: nat, mp: nat, n: nat, key: Key, val: Val)
    requires Links(t, rank) && prev < |t| && Keyed(t, mp) && n < |t| && mp != n && t[prev].next == mp && prev != n
    requires Unlinked(t, n) && key != NilKey
    ensures Links(Displaced(t, prev, mp, n, key, val), rank[n := rank[mp]])
  {
    var u, r := Displaced(t, prev, mp, n, key, val), rank[n := rank[mp]];
    assert prev != mp;
    forall j | 0 <= j < |u| && u[j].next != NULL ensures Keyed(u, u[j].next) && r[j] < r[u[j].next] {
      if j == n { assert u[j].next == t[mp].next; } else if j != prev { assert u[j].next == t[j].next; }
    }
    forall i, j | 0 <= i < j < |u| && u[i].next != NULL ensures u[i].next != u[j].next {
      if i != prev && i != n && j != prev && j != n && j != mp { assert t[i].next != t[j].next; }
    }
  }

  lemma DisplacePlaced(h: Hash, t: seq<Node>, rank: seq<real>, prev: nat, mp: nat, n: nat, key: Key, val: Val, j: int)
    requires Links(t, rank) && prev < |t| && Keyed(t, mp) && n < |t| && mp != n && t[prev].next == mp && prev != n
    requires Unlinked(t, n) && key != NilKey && !InPlace(h, t, mp)
    requires Keyed(t, j) && j != n && Placed(h, t, j) && Main(h, t[j].key, |t|) != n
    ensures Keyed(Displaced(t, prev, mp, n, key, val), Moved(mp, n, j))
    ensures Placed(h, Displaced(t, prev, mp, n, key, val), Moved(mp, n, j))
  {
    var u := Displaced(t, prev, mp, n, key, val);
    var m := Main(h, t[j].key, |t|);
    assert m != mp && prev != mp;
    var k: nat :| Path(t, m, j, k);
    DisplacePath(t, rank, prev, mp, n, key, val, m, j, k);
    assert u[Moved(mp, n, j)].key == t[j].key;
    assert InPlace(h, u, m);
  }

  lemma DisplaceNew(h: Hash, t: seq<Node>, prev: nat, mp: nat, n: nat, key: Key, val: Val)
    requires prev < |t| && mp < |t| && n < |t| && key != NilKey && Main(h, key, |t|) == mp
    ensures Placed(h, Displaced(t, prev, mp, n, key, val), mp)
  {
    assert Path(Displaced(t, prev, mp, n, key, val), mp, mp, 0);
  }

  lemma DisplaceChained(h: Hash, t: seq<Node>, rank: seq<real>, prev: nat, mp: nat, n: nat, key: Key)
    requires Chained(h, t, rank) && Proper(key) && Absent(t, key) && Keyed(t, mp) && !InPlace(h, t, mp) && Main(h, key, |t|) == mp
    requires n < |t| && t[n].key == NilKey && prev < |t| && t[prev].next == mp
    ensures Chained(h, Displaced(t, prev, mp, n, key, NilVal), rank[n := rank[mp]])
  {
    var u := Displaced(t, prev, mp, n, key, NilVal);
    assert prev != n && prev != mp && Unlinked(t, n);
    DisplaceLinks(t, rank, prev, mp, n, key, NilVal);
    DisplaceNew(h, t, prev, mp, n, key, NilVal);
    forall j | Keyed(u, j) ensures Placed(h, u, j) {
      if j != mp {
        var i := if j == n then mp else j;
        assert Keyed(t, i) && Placed(h, t, i);
        DisplacePlaced(h, t, rank, prev, mp, n, key, NilVal, i);
      }
    }
    DisplaceDistinct(t, prev, mp, n, key);
  }

  lemma DisplaceDistinct(t: seq<Node>, prev: nat, mp: nat, n: nat, key: Key)
    requires DistinctKeys(t) && Absent(t, key) && mp < |t| && n < |t| && prev < |t| && mp != n && prev != n && prev != mp && t[n].key == NilKey
    ensures DistinctKeys(Displaced(t, prev, mp, n, key, NilVal))
  {
    var u := Displaced(t, prev, mp, n, key, NilVal);
    forall j | 0 <= j < |u| ensures u[j].key == (if j == n then t[mp].key else if j == mp then key else t[j].key) {}
  }
}
