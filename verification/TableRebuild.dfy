/** Re-creating the chains of a node vector in place: every node is loose until it is placed. */
module TableRebuild {
  import opened TableNodes

  ghost predicate Loose(t: seq<Node>, j: int)
    requires Keyed(t, j)
  {
    t[j].next == NULL && Unlinked(t, j)
  }

  ghost predicate Rebuilding(h: Hash, t: seq<Node>, rank: seq<real>) {
    && Links(t, rank) && DistinctKeys(t)
    && (forall j :: Keyed(t, j) ==> t[j].val != NilVal)
    && (forall j :: Keyed(t, j) ==> Placed(h, t, j) || Loose(t, j))
  }

  ghost predicate Holds(t: seq<Node>, key: Key, val: Val) { exists j :: Keyed(t, j) && t[j].key == key && t[j].val == val }

  /** The same keys with the same values, wherever they sit. */
  ghost predicate SameEntries(t: seq<Node>, u: seq<Node>) {
    |t| == |u| && forall key, val :: Holds(t, key, val) <==> Holds(u, key, val)
  }

  lemma SameEntriesTrans(a: seq<Node>, b: seq<Node>, c: seq<Node>)
    requires SameEntries(a, b) && SameEntries(b, c)
    ensures SameEntries(a, c)
  {
    hide Holds;
  }

  /** Two vectors whose nodes correspond hold the same entries. */
  lemma Corresponding(t: seq<Node>, u: seq<Node>, f: int -> int, g: int -> int)
    requires |t| == |u|
    requires forall j :: Keyed(t, j) ==> Keyed(u, f(j)) && u[f(j)].key == t[j].key && u[f(j)].val == t[j].val
    requires forall j :: Keyed(u, j) ==> Keyed(t, g(j)) && t[g(j)].key == u[j].key && t[g(j)].val == u[j].val
    ensures SameEntries(t, u)
  {
    forall key, val ensures Holds(t, key, val) <==> Holds(u, key, val) {
      if Holds(t, key, val) {
        var j :| Keyed(t, j) && t[j].key == key && t[j].val == val;
        assert Keyed(u, f(j));
      }
      if Holds(u, key, val) {
        var j :| Keyed(u, j) && u[j].key == key && u[j].val == val;
        assert Keyed(t, g(j));
      }
    }
  }

  /** What a step on node n keeps: nodes placed before stay placed, but the one that makes room. */
  ghost predicate PlacedStay(h: Hash, t: seq<Node>, u: seq<Node>, n: int) {
    && |u| == |t| && (forall j :: j != n && Keyed(t, j) && Placed(h, t, j) ==> Keyed(u, j) && Placed(h, u, j))
    && (forall j :: j != n && Keyed(u, j) && !Keyed(t, j) ==> Placed(h, u, j))
  }

  function InPlaceSet(h: Hash, t: seq<Node>): set<int> { set j | 0 <= j < |t| && InPlace(h, t, j) }

  /** Linked or placed somewhere is not loose, unless the node is where it belongs. */
  lemma PlacedHasPrev(h: Hash, t: seq<Node>, j: int)
    requires Keyed(t, j) && Placed(h, t, j) && !InPlace(h, t, j)
    ensures !Loose(t, j) && Reaches(t, Main(h, t[j].key, |t|), j)
  {
    var m := Main(h, t[j].key, |t|);
    var n: nat :| Path(t, m, j, n);
    PathLast(t, m, j, n);
  }

  lemma LooseNotReached(t: seq<Node>, a: int, j: int)
    requires Keyed(t, j) && Loose(t, j) && a != j
    ensures !Reaches(t, a, j)
  {
    if Reaches(t, a, j) {
      var n: nat :| Path(t, a, j, n);
      PathLast(t, a, j, n);
    }
  }

  // ---------------------------------------------------------------- the main position is free

  function MovedHome(t: seq<Node>, mp: nat, n: nat): seq<Node>
    requires mp < |t| && n < |t|
  {
    t[mp := t[n]][n := FREE]
  }

  lemma {:induction false} HomePath(t: seq<Node>, rank: seq<real>, mp: nat, n: nat, a: int, b: int, k: nat)
    requires Links(t, rank) && mp < |t| && n < |t| && t[mp] == FREE && Unlinked(t, n) && a != n && a != mp && Path(t, a, b, k)
    ensures Path(MovedHome(t, mp, n), a, b, k)
    decreases k
  {
    if k > 0 { HomePath(t, rank, mp, n, t[a].next, b, k - 1); }
  }

  lemma HomeLinks(t: seq<Node>, rank: seq<real>, mp: nat, n: nat)
    requires Links(t, rank) && mp < |t| && t[mp] == FREE && Keyed(t, n) && Loose(t, n)
    ensures Links(MovedHome(t, mp, n), rank)
  {
  }

  lemma HomeStep(h: Hash, t: seq<Node>, rank: seq<real>, mp: nat, n: nat)
    requires Rebuilding(h, t, rank) && mp < |t| && t[mp] == FREE && Keyed(t, n) && Loose(t, n) && mp == Main(h, t[n].key, |t|)
    ensures var u := MovedHome(t, mp, n); Rebuilding(h, u, rank) && SameEntries(t, u) && PlacedStay(h, t, u, n) && !Keyed(u, n)
  {
    var u := MovedHome(t, mp, n);
    HomeLinks(t, rank, mp, n);
    assert Path(u, mp, mp, 0);
    forall j | Keyed(t, j) && j != n && Placed(h, t, j) ensures Keyed(u, j) && Placed(h, u, j) { HomePlaced(h, t, rank, mp, n, j); }
    forall j | Keyed(u, j) && j != mp ensures Placed(h, u, j) || Loose(u, j) {
      assert Keyed(t, j);
      if Loose(t, j) { assert Loose(u, j); }
    }
    HomeEntries(t, mp, n);
  }

  lemma HomePlaced(h: Hash, t: seq<Node>, rank: seq<real>, mp: nat, n: nat, j: int)
    requires Links(t, rank) && mp < |t| && t[mp] == FREE && Keyed(t, n) && Loose(t, n) && mp == Main(h, t[n].key, |t|)
    requires Keyed(t, j) && j != n && Placed(h, t, j)
    ensures Keyed(MovedHome(t, mp, n), j) && Placed(h, MovedHome(t, mp, n), j)
  {
    var m := Main(h, t[j].key, |t|);
    var k: nat :| Path(t, m, j, k);
    HomePath(t, rank, mp, n, m, j, k);
    assert InPlace(h, MovedHome(t, mp, n), m);
  }

  lemma HomeEntries(t: seq<Node>, mp: nat, n: nat)
    requires mp < |t| && t[mp] == FREE && Keyed(t, n)
    ensures SameEntries(t, MovedHome(t, mp, n)) && (DistinctKeys(t) ==> DistinctKeys(MovedHome(t, mp, n)))
  {
    Corresponding(t, MovedHome(t, mp, n), j => if j == n then mp else j, j => if j == mp then n else j);
  }

  // ---------------------------------------------------------------- linked behind a node in place

  lemma LinkStep(h: Hash, t: seq<Node>, rank: seq<real>, mp: nat, n: nat)
    requires Rebuilding(h, t, rank) && InPlace(h, t, mp) && Keyed(t, n) && Loose(t, n) && mp != n && mp == Main(h, t[n].key, |t|)
    ensures var u := LinkedIn(t, mp, n, t[n].key, t[n].val);
            Rebuilding(h, u, LinkRank(t, rank, mp, n)) && SameEntries(t, u) && PlacedStay(h, t, u, n) && Keyed(u, n) && Placed(h, u, n)
  {
    var u := LinkedIn(t, mp, n, t[n].key, t[n].val);
    LinkLinks(t, rank, mp, n, t[n].key, t[n].val);
    LinkNew(h, t, mp, n, t[n].key, t[n].val);
    forall j | 0 <= j < |t| ensures u[j].key == t[j].key && u[j].val == t[j].val {}
    forall j | Keyed(t, j) && j != n && Placed(h, t, j) ensures Keyed(u, j) && Placed(h, u, j) {
      assert InPlace(h, t, Main(h, t[j].key, |t|));
      NotItsOwnHead(h, t, n, j);
      LinkPlaced(h, t, mp, n, t[n].key, t[n].val, j);
    }
    forall j | Keyed(u, j) && j != n ensures Placed(h, u, j) || Loose(u, j) {
      assert Keyed(t, j);
      if Loose(t, j) && !Placed(h, t, j) {
        NotInPlace(h, t, j);
        assert Loose(u, j);
      }
    }
    SameKeys(t, u);
  }

  lemma SameKeys(t: seq<Node>, u: seq<Node>)
    requires |u| == |t| && forall j :: 0 <= j < |t| ==> u[j].key == t[j].key && u[j].val == t[j].val
    ensures SameEntries(t, u) && (DistinctKeys(t) ==> DistinctKeys(u))
  {
    Corresponding(t, u, j => j, j => j);
  }

  lemma NotInPlace(h: Hash, t: seq<Node>, j: int)
    requires Keyed(t, j) && !Placed(h, t, j)
    ensures !InPlace(h, t, j)
  {
    assert Path(t, j, j, 0);
  }

  /** A node out of place heads no chain. */
  lemma NotItsOwnHead(h: Hash, t: seq<Node>, n: int, j: int)
    requires Keyed(t, n) && !InPlace(h, t, n) && Keyed(t, j) && Placed(h, t, j)
    ensures Main(h, t[j].key, |t|) != n
  {
  }

  // ---------------------------------------------------------------- the colliding node makes room

  lemma DisplaceStay(h: Hash, t: seq<Node>, rank: seq<real>, prev: nat, mp: nat, n: nat, j: int)
    requires Rebuilding(h, t, rank) && Keyed(t, mp) && !InPlace(h, t, mp) && prev < |t| && t[prev].next == mp
    requires Keyed(t, n) && Loose(t, n) && mp != n && !InPlace(h, t, n) && Keyed(t, j) && j != n
    ensures var u := Displaced(t, prev, mp, n, t[n].key, t[n].val);
            Keyed(u, Moved(mp, n, j)) && (Placed(h, t, j) ==> Placed(h, u, Moved(mp, n, j))) && (!Placed(h, t, j) && j != mp ==> Loose(u, j))
  {
    var u := Displaced(t, prev, mp, n, t[n].key, t[n].val);
    assert prev != n && prev != mp;
    if Placed(h, t, j) {
      NotItsOwnHead(h, t, n, j);
      DisplacePlaced(h, t, rank, prev, mp, n, t[n].key, t[n].val, j);
    } else if j != mp {
      NotInPlace(h, t, j);
      assert Loose(t, j);
    }
  }

  lemma DisplaceStep(h: Hash, t: seq<Node>, rank: seq<real>, prev: nat, mp: nat, n: nat)
    requires Rebuilding(h, t, rank) && Keyed(t, mp) && !InPlace(h, t, mp) && prev < |t| && t[prev].next == mp
    requires Keyed(t, n) && Loose(t, n) && mp != n && mp == Main(h, t[n].key, |t|)
    ensures var u := Displaced(t, prev, mp, n, t[n].key, t[n].val);
            Rebuilding(h, u, rank[n := rank[mp]]) && SameEntries(t, u) && PlacedStay(h, t, u, n) && Keyed(u, n) && Placed(h, u, n)
  {
    hide SameEntries, DistinctKeys, Placed, Links;
    var u := Displaced(t, prev, mp, n, t[n].key, t[n].val);
    assert prev != n;
    DisplaceLinks(t, rank, prev, mp, n, t[n].key, t[n].val);
    DisplaceNew(h, t, prev, mp, n, t[n].key, t[n].val);
    assert Placed(h, t, mp) by { assert !Loose(t, mp); }
    forall j | Keyed(t, j) && j != n
      ensures Keyed(u, Moved(mp, n, j)) && (Placed(h, t, j) ==> Placed(h, u, Moved(mp, n, j))) && (!Placed(h, t, j) ==> Loose(u, j)) {
      DisplaceStay(h, t, rank, prev, mp, n, j);
    }
    forall j | Keyed(u, j) && j != n && j != mp ensures Placed(h, u, j) || Loose(u, j) {
      assert Keyed(t, j) && Moved(mp, n, j) == j;
    }
    assert Moved(mp, n, mp) == n;
    SwapEntries(t, u, mp, n);
  }

  lemma SwapEntries(t: seq<Node>, u: seq<Node>, mp: nat, n: nat)
    requires |u| == |t| && mp < |t| && n < |t| && u[n].key == t[mp].key && u[n].val == t[mp].val && u[mp].key == t[n].key && u[mp].val == t[n].val
    requires forall j :: 0 <= j < |t| && j != mp && j != n ==> u[j].key == t[j].key && u[j].val == t[j].val
    ensures SameEntries(t, u) && (DistinctKeys(t) ==> DistinctKeys(u))
  {
    Corresponding(t, u, j => if j == n then mp else if j == mp then n else j, j => if j == n then mp else if j == mp then n else j);
  }

  function Swapped(t: seq<Node>, mp: nat, n: nat): seq<Node>
    requires mp < |t| && n < |t|
  {
    t[n := t[mp]][mp := t[n]]
  }

  lemma {:induction false} SwapPath(t: seq<Node>, mp: nat, n: nat, a: int, b: int, k: nat)
    requires mp < |t| && n < |t| && Unlinked(t, n) && Unlinked(t, mp) && a != n && a != mp && Path(t, a, b, k)
    ensures Path(Swapped(t, mp, n), a, b, k)
    decreases k
  {
    if k > 0 { SwapPath(t, mp, n, t[a].next, b, k - 1); }
  }

  /** The colliding node is itself loose: it comes next, and one more key is in its main position. */
  lemma SwapStep(h: Hash, t: seq<Node>, rank: seq<real>, mp: nat, n: nat)
    requires Rebuilding(h, t, rank) && Keyed(t, mp) && Loose(t, mp) && !InPlace(h, t, mp)
    requires Keyed(t, n) && Loose(t, n) && mp != n && mp == Main(h, t[n].key, |t|)
    ensures var u := Swapped(t, mp, n);
            Rebuilding(h, u, rank) && SameEntries(t, u) && PlacedStay(h, t, u, n) && Keyed(u, n) && InPlaceSet(h, t) < InPlaceSet(h, u)
  {
    var u := Swapped(t, mp, n);
    assert !InPlace(h, t, n);
    assert Path(u, mp, mp, 0) && InPlace(h, u, mp);
    forall j | Keyed(t, j) && j != n && Placed(h, t, j) ensures Keyed(u, j) && Placed(h, u, j) {
      var m := Main(h, t[j].key, |t|);
      if j == mp { PlacedHasPrev(h, t, j); }
      var k: nat :| Path(t, m, j, k);
      SwapPath(t, mp, n, m, j, k);
      assert InPlace(h, u, m);
    }
    forall j | Keyed(u, j) ensures Placed(h, u, j) || Loose(u, j) {
      if j != mp && j != n { assert Keyed(t, j); }
    }
    SwapEntries(t, u, mp, n);
    assert mp in InPlaceSet(h, u) && mp !in InPlaceSet(h, t);
  }
}
