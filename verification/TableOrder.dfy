/** The entries of a table in the order of luaH_next, and traversals that clear entries and let
    keys die as they go. */
module TableOrder {
  import opened TableNodes
  import opened TableMap
  import opened TableTwins

  /** The entries in the order of a traversal: the array part, then the nodes. */
  function EntryKey(a: seq<Val>, t: seq<Node>, i: nat): Key
    requires i < |a| + |t|
  {
    if i < |a| then IntKey(i + 1) else t[i - |a|].key
  }

  function EntryVal(a: seq<Val>, t: seq<Node>, i: nat): Val
    requires i < |a| + |t|
  {
    if i < |a| then a[i] else t[i - |a|].val
  }

  // ---------------------------------------------------------------- the entry of a key

  ghost predicate Matching(h: Hash, t: seq<Node>, key: Key, j: int) {
    0 <= j < |t| && Matches(t[j].key, key) && Reaches(t, Main(h, key, |t|), j)
  }

  /** Where a traversal goes on after a key: behind its place in the array part, or behind the first
      node of its chain that has the key or a dead key at its address. */
  ghost predicate IndexOf(h: Hash, a: seq<Val>, t: seq<Node>, key: Key, i: int) {
    if key == NilKey then i == -1
    else if InArray(key, |a|) then i == key.k - 1
    else Matching(h, t, key, i - |a|) && Foremost(h, t, i - |a|, key)
  }

  lemma {:induction false} PathRank(t: seq<Node>, rank: seq<real>, a: int, b: int, n: nat)
    requires Links(t, rank) && Path(t, a, b, n)
    ensures 0 <= a < |t| && 0 <= b < |t| && (if n == 0 then a == b else rank[a] < rank[b])
    decreases n
  {
    if n > 0 { PathRank(t, rank, t[a].next, b, n - 1); }
  }

  lemma SameIndex(h: Hash, a: seq<Val>, t: seq<Node>, rank: seq<real>, key: Key, i: int, j: int)
    requires Links(t, rank) && IndexOf(h, a, t, key, i) && IndexOf(h, a, t, key, j)
    ensures i == j
  {
    if key != NilKey && !InArray(key, |a|) {
      assert Matching(h, t, key, i - |a|) && Matching(h, t, key, j - |a|);
      var m: nat :| Path(t, i - |a|, j - |a|, m);
      var n: nat :| Path(t, j - |a|, i - |a|, n);
      PathRank(t, rank, i - |a|, j - |a|, m);
      PathRank(t, rank, j - |a|, i - |a|, n);
    }
  }

  lemma EntryInMap(a: seq<Val>, t: seq<Node>, rank: seq<real>, c: Contents, m: nat)
    requires Links(t, rank) && Agrees(a, t, c) && m < |a| + |t| && EntryVal(a, t, m) != NilVal
    ensures EntryKey(a, t, m) in c && Proper(EntryKey(a, t, m))
  {
    if m >= |a| { assert Keyed(t, m - |a|); }
  }

  lemma EntryOf(a: seq<Val>, t: seq<Node>, c: Contents, k: Key) returns (m: nat)
    requires Agrees(a, t, c) && k in c
    ensures m < |a| + |t| && EntryKey(a, t, m) == k && EntryVal(a, t, m) != NilVal
  {
    if InArray(k, |a|) {
      m := k.k - 1;
      assert a[m] == Lookup(c, IntKey(m + 1));
    } else {
      assert Here(t, k);
      var j :| Keyed(t, j) && t[j].key == k;
      m := j + |a|;
    }
  }

  /** A traversal goes on behind the entry of a key with a value, dead twins or not. */
  lemma LiveIndex(h: Hash, a: seq<Val>, t: seq<Node>, rank: seq<real>, owner: Owner, c: Contents, m: nat)
    requires Chained(h, t, rank) && Agrees(a, t, c) && Traced(h, t, owner) && m < |a| + |t| && EntryVal(a, t, m) != NilVal
    ensures IndexOf(h, a, t, EntryKey(a, t, m), m) && KeyOwned(EntryKey(a, t, m), owner)
  {
    EntryInMap(a, t, rank, c, m);
    if m >= |a| {
      assert Keyed(t, m - |a|) && Placed(h, t, m - |a|);
      assert Foremost(h, t, m - |a|, t[m - |a|].key);
    }
  }

  lemma EntriesDiffer(a: seq<Val>, t: seq<Node>, rank: seq<real>, c: Contents, m: nat, n: nat)
    requires Links(t, rank) && DistinctKeys(t) && Agrees(a, t, c)
    requires m < |a| + |t| && n < |a| + |t| && m != n && EntryVal(a, t, m) != NilVal
    ensures EntryKey(a, t, m) != EntryKey(a, t, n)
  {
    EntryInMap(a, t, rank, c, m);
    if m >= |a| { assert Keyed(t, m - |a|); }
    if n >= |a| && t[n - |a|].key != NilKey { assert Keyed(t, n - |a|); }
  }

  // ---------------------------------------------------------------- changes that add no entry

  /** Values change or go, keys may die, and no entry without a value gets one. */
  ghost predicate Dimmed(a: seq<Val>, t: seq<Node>, b: seq<Val>, u: seq<Node>) {
    && |b| == |a| && Faded(t, u)
    && (forall m :: 0 <= m < |a| + |t| && EntryVal(b, u, m) != NilVal ==> EntryVal(a, t, m) != NilVal)
  }

  lemma DimmedSelf(a: seq<Val>, t: seq<Node>)
    ensures Dimmed(a, t, a, t)
  {
  }

  lemma DimmedTrans(a: seq<Val>, t: seq<Node>, b: seq<Val>, u: seq<Node>, c: seq<Val>, v: seq<Node>)
    requires Dimmed(a, t, b, u) && Dimmed(b, u, c, v)
    ensures Dimmed(a, t, c, v)
  {
    forall m | 0 <= m < |a| + |t| && EntryVal(c, v, m) != NilVal ensures EntryVal(a, t, m) != NilVal { assert EntryVal(b, u, m) != NilVal; }
    forall j | 0 <= j < |t| ensures v[j].next == t[j].next && (v[j].key == t[j].key || (HasObject(t[j].key) && v[j].key == DeadKey(t[j].key))) {
      assert u[j].next == t[j].next && v[j].next == u[j].next;
    }
  }

  /** The place of a key outlives its value, and the key as long as its object is there. */
  lemma IndexStays(h: Hash, a: seq<Val>, t: seq<Node>, b: seq<Val>, u: seq<Node>, owner: Owner, key: Key, i: int)
    requires Dimmed(a, t, b, u) && Owned(t, owner) && KeyOwned(key, owner) && !key.DeadKey? && IndexOf(h, a, t, key, i)
    ensures IndexOf(h, b, u, key, i)
  {
    if key != NilKey && !InArray(key, |a|) {
      FadedForemost(h, t, u, owner, i - |a|, key);
      FadedReaches(t, u, Main(h, key, |t|), i - |a|);
    }
  }

  // ---------------------------------------------------------------- the keys met

  /** The keys met up to an entry of a traversal that began with other values: none twice, and every
      entry passed that has a value now is met. */
  ghost predicate Met(a0: seq<Val>, t0: seq<Node>, a: seq<Val>, t: seq<Node>, ks: seq<Key>, at: int) {
    && (forall i, j :: 0 <= i < j < |ks| ==> ks[i] != ks[j])
    && (forall k :: k in ks ==> exists m :: 0 <= m <= at && m < |a0| + |t0| && EntryKey(a0, t0, m) == k)
    && (forall m :: 0 <= m <= at && m < |a| + |t| && EntryVal(a, t, m) != NilVal ==> EntryKey(a, t, m) in ks)
  }

  /** No key of an entry with a value is there twice. */
  ghost predicate Differ(a: seq<Val>, t: seq<Node>) {
    forall m, n :: 0 <= m < |a| + |t| && 0 <= n < |a| + |t| && m != n && EntryVal(a, t, m) != NilVal ==> EntryKey(a, t, m) != EntryKey(a, t, n)
  }

  lemma AllDiffer(h: Hash, a: seq<Val>, t: seq<Node>, rank: seq<real>, c: Contents)
    requires Chained(h, t, rank) && Agrees(a, t, c)
    ensures Differ(a, t)
  {
    hide Links, AllPlaced, Agrees, DistinctKeys;
    forall m, n | 0 <= m < |a| + |t| && 0 <= n < |a| + |t| && m != n && EntryVal(a, t, m) != NilVal ensures EntryKey(a, t, m) != EntryKey(a, t, n) {
      EntriesDiffer(a, t, rank, c, m, n);
    }
  }

  lemma NoneMet(a: seq<Val>, t: seq<Node>)
    ensures Met(a, t, a, t, [], -1)
  {
  }

  lemma MetFades(a0: seq<Val>, t0: seq<Node>, a: seq<Val>, t: seq<Node>, b: seq<Val>, u: seq<Node>, c: Contents, rank: seq<real>, ks: seq<Key>, at: int)
    requires Met(a0, t0, a, t, ks, at) && Dimmed(a, t, b, u) && Agrees(b, u, c) && Links(u, rank)
    ensures Met(a0, t0, b, u, ks, at)
  {
    forall m | 0 <= m <= at && m < |b| + |u| && EntryVal(b, u, m) != NilVal ensures EntryKey(b, u, m) in ks {
      EntryInMap(b, u, rank, c, m);
      assert EntryVal(a, t, m) != NilVal && EntryKey(a, t, m) == EntryKey(b, u, m);
    }
  }

  /** The traversal goes on to entry n, all between without values. */
  lemma Meet(a0: seq<Val>, t0: seq<Node>, a: seq<Val>, t: seq<Node>, ks: seq<Key>, at: int, n: int, k: Key)
    requires Met(a0, t0, a, t, ks, at) && Differ(a0, t0) && Dimmed(a0, t0, a, t) && -1 <= at < n <= |a| + |t|
    requires forall m :: at < m < n ==> EntryVal(a, t, m) == NilVal
    ensures n == |a| + |t| ==> Met(a0, t0, a, t, ks, n)
    ensures n < |a| + |t| && EntryVal(a, t, n) != NilVal && EntryKey(a, t, n) == k && !k.DeadKey? ==> Met(a0, t0, a, t, ks + [k], n)
  {
    forall m | 0 <= m < n && EntryVal(a, t, m) != NilVal ensures m <= at {}
    if n < |a| + |t| && EntryVal(a, t, n) != NilVal && EntryKey(a, t, n) == k && !k.DeadKey? {
      assert EntryVal(a0, t0, n) != NilVal && EntryKey(a0, t0, n) == k;
      forall x | x in ks ensures x != k {
        var m :| 0 <= m <= at && m < |a0| + |t0| && EntryKey(a0, t0, m) == x;
      }
      forall i | 0 <= i < |ks| ensures ks[i] != k { assert ks[i] in ks; }
      forall x | x in ks + [k] ensures exists m :: 0 <= m <= n && m < |a0| + |t0| && EntryKey(a0, t0, m) == x {
        if x in ks { var m :| 0 <= m <= at && m < |a0| + |t0| && EntryKey(a0, t0, m) == x; } else { assert x == k && EntryKey(a0, t0, n) == x; }
      }
      forall m | 0 <= m <= n && EntryVal(a, t, m) != NilVal ensures EntryKey(a, t, m) in ks + [k] {
        if m == n { assert (ks + [k])[|ks|] == k; } else { assert EntryKey(a, t, m) in ks; }
      }
    }
  }

  lemma AllMet(a0: seq<Val>, t0: seq<Node>, a: seq<Val>, t: seq<Node>, c: Contents, ks: seq<Key>)
    requires Met(a0, t0, a, t, ks, |a| + |t|) && Agrees(a, t, c)
    ensures (forall i, j :: 0 <= i < j < |ks| ==> ks[i] != ks[j]) && forall k :: k in c ==> k in ks
  {
    forall k | k in c ensures k in ks { var m := EntryOf(a, t, c, k); }
  }

  // ---------------------------------------------------------------- what a program does on the way

  /** A write to a field that exists, of nil perhaps, or the collector passing through the table. */
  datatype Change = Field(key: Key, v: Val) | Marking

  function Changed(c: Contents, ch: Change): Contents {
    if ch.Field? && ch.key in c then Update(c, ch.key, ch.v) else c
  }

  function AllChanged(c: Contents, changes: seq<Change>): Contents
    decreases |changes|
  {
    if changes == [] then c else AllChanged(Changed(c, changes[0]), changes[1..])
  }

  /** The map when n keys have been met, if changes[i] are made after key i. */
  function MapAt(c: Contents, changes: seq<seq<Change>>, n: nat): Contents {
    if n == 0 then c
    else if n <= |changes| then AllChanged(MapAt(c, changes, n - 1), changes[n - 1])
    else MapAt(c, changes, n - 1)
  }

  /** A table that is left alone. */
  lemma LeftAlone(c: Contents, changes: seq<seq<Change>>)
    requires changes == []
    ensures forall n :: MapAt(c, changes, n) == c
  {
    forall n ensures MapAt(c, changes, n) == c { MapStays(c, changes, n); }
  }

  lemma {:induction false} MapStays(c: Contents, changes: seq<seq<Change>>, n: nat)
    requires changes == []
    ensures MapAt(c, changes, n) == c
    decreases n
  {
    if n > 0 { MapStays(c, changes, n - 1); }
  }
}
