/** Addresses used again: a dead key and a later key may have the same address.  Each key with an
    object stays ahead of its dead twins, so a search from its main position meets it first. */
module TableTwins {
  import opened TableNodes
  import opened TableMap

  /** The object at each address that is in use. */
  type Owner = map<nat, Key>

  predicate HasObject(k: Key) { k.OtherKey? && k.collectable }

  predicate KeyOwned(k: Key, owner: Owner) { HasObject(k) ==> k.id in owner && owner[k.id] == k }

  /** The keys of live nodes are objects that are there, so no two have one address. */
  ghost predicate Owned(t: seq<Node>, owner: Owner) { forall j :: 0 <= j < |t| ==> KeyOwned(t[j].key, owner) }

  /** A dead key equals any object at its address. */
  predicate Twins(d: Key, key: Key) { d.DeadKey? && d.was.OtherKey? && HasObject(key) && d.was.id == key.id }

  predicate Matches(d: Key, key: Key) { d == key || Twins(d, key) }

  /** Whatever matches a key and is found from its main position is node j or comes after it. */
  ghost predicate Foremost(h: Hash, t: seq<Node>, j: int, key: Key) {
    |t| > 0 && forall d :: 0 <= d < |t| && Matches(t[d].key, key) && Reaches(t, Main(h, key, |t|), d) ==> Reaches(t, j, d)
  }

  ghost predicate LiveFirst(h: Hash, t: seq<Node>) {
    forall j :: Keyed(t, j) && !t[j].key.DeadKey? ==> Foremost(h, t, j, t[j].key)
  }

  ghost predicate Traced(h: Hash, t: seq<Node>, owner: Owner) { LiveFirst(h, t) && Owned(t, owner) }

  // ---------------------------------------------------------------- new keys

  lemma OverwriteTraced(h: Hash, t: seq<Node>, owner: Owner, mp: nat, key: Key)
    requires Traced(h, t, owner) && Proper(key) && Absent(t, key) && KeyOwned(key, owner) && mp < |t| && mp == Main(h, key, |t|)
    ensures Traced(h, Overwritten(t, mp, key), owner)
  {
    var u := Overwritten(t, mp, key);
    forall j | Keyed(u, j) && !u[j].key.DeadKey? && j != mp ensures Foremost(h, u, j, u[j].key) {
      assert Foremost(h, t, j, t[j].key);
      forall d | 0 <= d < |u| && Matches(u[d].key, u[j].key) && Reaches(u, Main(h, u[j].key, |u|), d) ensures Reaches(u, j, d) {
        SameLinks(u, t, Main(h, u[j].key, |u|), d);
        SameLinks(t, u, j, d);
      }
    }
  }

  lemma {:induction false} LinkPathBack(t: seq<Node>, mp: nat, n: nat, key: Key, a: int, b: int, k: nat)
    requires mp < |t| && n < |t| && mp != n && Unlinked(t, n) && a != n && b != n
    requires Path(LinkedIn(t, mp, n, key, NilVal), a, b, k)
    ensures Reaches(t, a, b)
    decreases k
  {
    var u := LinkedIn(t, mp, n, key, NilVal);
    if k == 0 {
      assert Path(t, a, b, 0);
    } else {
      if a == mp {
        assert Path(u, n, b, k - 1) && Path(u, t[mp].next, b, k - 2);
        LinkPathBack(t, mp, n, key, t[mp].next, b, k - 2);
      } else {
        LinkPathBack(t, mp, n, key, t[a].next, b, k - 1);
      }
      var i: nat :| Path(t, t[a].next, b, i);
      assert Path(t, a, b, i + 1);
    }
  }

  lemma LinkTraced(h: Hash, t: seq<Node>, owner: Owner, mp: nat, n: nat, key: Key)
    requires Traced(h, t, owner) && Proper(key) && Absent(t, key) && KeyOwned(key, owner) && mp < |t| && mp == Main(h, key, |t|)
    requires AllPlaced(h, t) && n < |t| && mp != n && t[n].key == NilKey && Unlinked(t, n) && !t[mp].key.DeadKey?
    ensures Traced(h, LinkedIn(t, mp, n, key, NilVal), owner)
  {
    var u := LinkedIn(t, mp, n, key, NilVal);
    forall j | Keyed(u, j) && !u[j].key.DeadKey? ensures Foremost(h, u, j, u[j].key) {
      forall d | 0 <= d < |u| && Matches(u[d].key, u[j].key) && Reaches(u, Main(h, u[j].key, |u|), d) ensures Reaches(u, j, d) {
        var k: nat :| Path(u, Main(h, u[j].key, |u|), d, k);
        if j == n {
          if d == n { assert Path(u, n, n, 0); } else { assert Path(u, n, d, k - 1); }
        } else {
          assert Placed(h, t, j);
          LinkFollows(h, t, mp, n, key, j, d, k);
        }
      }
    }
  }

  lemma LinkFollows(h: Hash, t: seq<Node>, mp: nat, n: nat, key: Key, j: int, d: int, k: nat)
    requires LiveFirst(h, t) && Proper(key) && Absent(t, key) && mp < |t| && n < |t| && mp != n && t[n].key == NilKey && Unlinked(t, n)
    requires Keyed(t, j) && !t[j].key.DeadKey? && 0 <= d < |t| && Main(h, t[j].key, |t|) != n
    requires var u := LinkedIn(t, mp, n, key, NilVal); Matches(u[d].key, t[j].key) && Path(u, Main(h, t[j].key, |t|), d, k)
    ensures Reaches(LinkedIn(t, mp, n, key, NilVal), j, d)
  {
    assert d != n;
    LinkPathBack(t, mp, n, key, Main(h, t[j].key, |t|), d, k);
    assert Foremost(h, t, j, t[j].key);
    var i: nat :| Path(t, j, d, i);
    LinkPath(t, mp, n, key, NilVal, j, d, i);
  }

  lemma {:induction false} DisplacePathBack(t: seq<Node>, rank: seq<real>, prev: nat, mp: nat, n: nat, key: Key, a: int, b: int, k: nat)
    requires Links(t, rank) && prev < |t| && mp < |t| && n < |t| && mp != n && t[prev].next == mp && prev != n && Unlinked(t, n)
    requires a != mp && b != mp && Path(Displaced(t, prev, mp, n, key, NilVal), a, b, k)
    ensures Reaches(t, if a == n then mp else a, if b == n then mp else b)
    decreases k
  {
    var u := Displaced(t, prev, mp, n, key, NilVal);
    var a', b' := if a == n then mp else a, if b == n then mp else b;
    if k == 0 {
      assert Path(t, a', b', 0);
    } else {
      var c := u[a].next;
      if c == mp { assert t[a'].next == t[prev].next; }
      DisplacePathBack(t, rank, prev, mp, n, key, c, b, k - 1);
      assert t[a'].next == if c == n then mp else c;
      var i: nat :| Path(t, t[a'].next, b', i);
      assert Path(t, a', b', i + 1);
    }
  }

  lemma DisplaceTraced(h: Hash, t: seq<Node>, rank: seq<real>, owner: Owner, prev: nat, mp: nat, n: nat, key: Key)
    requires Traced(h, t, owner) && Links(t, rank) && AllPlaced(h, t) && Proper(key) && Absent(t, key) && KeyOwned(key, owner)
    requires Keyed(t, mp) && mp == Main(h, key, |t|) && !InPlace(h, t, mp) && n < |t| && t[n].key == NilKey
    requires prev < |t| && t[prev].next == mp
    ensures Traced(h, Displaced(t, prev, mp, n, key, NilVal), owner)
  {
    var u := Displaced(t, prev, mp, n, key, NilVal);
    assert prev != n && prev != mp && Unlinked(t, n);
    forall j | Keyed(u, j) && !u[j].key.DeadKey? ensures Foremost(h, u, j, u[j].key) {
      if j != mp {
        DisplaceFirst(h, t, rank, prev, mp, n, key, if j == n then mp else j);
      }
    }
    forall j | 0 <= j < |u| ensures KeyOwned(u[j].key, owner) { assert u[j].key == if j == n then t[mp].key else if j == mp then key else t[j].key; }
  }

  lemma DisplaceFirst(h: Hash, t: seq<Node>, rank: seq<real>, prev: nat, mp: nat, n: nat, key: Key, j: int)
    requires LiveFirst(h, t) && Links(t, rank) && AllPlaced(h, t) && Proper(key) && Absent(t, key)
    requires Keyed(t, mp) && !InPlace(h, t, mp) && n < |t| && t[n].key == NilKey && Unlinked(t, n) && mp != n && prev != n
    requires prev < |t| && t[prev].next == mp && Keyed(t, j) && !t[j].key.DeadKey?
    ensures var u := Displaced(t, prev, mp, n, key, NilVal); Foremost(h, u, Moved(mp, n, j), t[j].key)
  {
    var u := Displaced(t, prev, mp, n, key, NilVal);
    var m := Main(h, t[j].key, |t|);
    assert Placed(h, t, j) && Foremost(h, t, j, t[j].key) && m != mp && m != n;
    forall d | 0 <= d < |u| && Matches(u[d].key, t[j].key) && Reaches(u, m, d) ensures Reaches(u, Moved(mp, n, j), d) {
      assert d != mp by { assert u[mp].key == key; }
      var d' := if d == n then mp else d;
      var k: nat :| Path(u, m, d, k);
      DisplacePathBack(t, rank, prev, mp, n, key, m, d, k);
      assert u[d].key == t[d'].key;
      var i: nat :| Path(t, j, d', i);
      DisplacePath(t, rank, prev, mp, n, key, NilVal, j, d', i);
    }
  }

  /** A node vector without dead keys. */
  lemma NoDeadTraced(h: Hash, t: seq<Node>, owner: Owner)
    requires DistinctKeys(t) && Owned(t, owner) && forall j :: 0 <= j < |t| ==> !t[j].key.DeadKey?
    ensures Traced(h, t, owner)
  {
    forall j | Keyed(t, j) ensures Foremost(h, t, j, t[j].key) {
      forall d | 0 <= d < |t| && Matches(t[d].key, t[j].key) ensures Reaches(t, j, d) {
        assert d == j by { assert t[d].key == t[j].key; }
        assert Path(t, j, j, 0);
      }
    }
  }

  /** The keys of the map have their objects. */
  lemma ContentsOwned(a: seq<Val>, t: seq<Node>, owner: Owner, c: Contents)
    requires Agrees(a, t, c) && Owned(t, owner)
    ensures forall k :: k in c ==> KeyOwned(k, owner)
  {
    forall k | k in c ensures KeyOwned(k, owner) {
      if !InArray(k, |a|) {
        assert Here(t, k);
        var j :| Keyed(t, j) && t[j].key == k;
        assert KeyOwned(t[j].key, owner);
      }
    }
  }

  // ---------------------------------------------------------------- values, and keys that die

  /** Values may change and keys may die; nothing moves. */
  ghost predicate Faded(t: seq<Node>, u: seq<Node>) {
    && |u| == |t|
    && (forall j :: 0 <= j < |t| ==> u[j].next == t[j].next)
    && (forall j :: 0 <= j < |t| ==> u[j].key == t[j].key || (HasObject(t[j].key) && u[j].key == DeadKey(t[j].key)))
  }

  lemma FadedReaches(t: seq<Node>, u: seq<Node>, a: int, b: int)
    requires Faded(t, u)
    ensures Reaches(t, a, b) <==> Reaches(u, a, b)
  {
    if Reaches(t, a, b) { SameLinks(t, u, a, b); }
    if Reaches(u, a, b) { SameLinks(u, t, a, b); }
  }

  /** What is foremost for a key whose object is still there stays so. */
  lemma FadedForemost(h: Hash, t: seq<Node>, u: seq<Node>, owner: Owner, j: int, key: Key)
    requires Faded(t, u) && Owned(t, owner) && KeyOwned(key, owner) && !key.DeadKey? && Foremost(h, t, j, key)
    ensures Foremost(h, u, j, key)
  {
    forall d | 0 <= d < |u| && Matches(u[d].key, key) && Reaches(u, Main(h, key, |u|), d) ensures Reaches(u, j, d) {
      FadedReaches(t, u, Main(h, key, |t|), d);
      FadedReaches(t, u, j, d);
      assert KeyOwned(t[d].key, owner);
    }
  }

  lemma FadedTraced(h: Hash, t: seq<Node>, u: seq<Node>, owner: Owner)
    requires Traced(h, t, owner) && Faded(t, u)
    ensures Traced(h, u, owner)
  {
    forall j | Keyed(u, j) && !u[j].key.DeadKey? ensures Foremost(h, u, j, u[j].key) {
      assert Foremost(h, t, j, t[j].key) && KeyOwned(t[j].key, owner);
      FadedForemost(h, t, u, owner, j, t[j].key);
    }
    forall j | 0 <= j < |u| ensures KeyOwned(u[j].key, owner) { assert KeyOwned(t[j].key, owner); }
  }
}
