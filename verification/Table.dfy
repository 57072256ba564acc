/** Lua tables (ltable.c): an array part and a chained scatter table that is rehashed in place.
    The shared dummy node is the empty node vector.  Writing methods ask for fewer than MAXASIZE
    (2 to the 26) keys, so that setnodevector's "table overflow" error cannot be raised. */
module Table {
  import opened TableNodes
  import opened TableRebuild
  import opened TableMap
  import opened TableSizes
  import opened TableBreak
  import opened TableCount
  import opened TableTwins
  import opened TableOrder

  /** What a lookup returns: nothing, a slot of the array part, or a node. */
  datatype Place = Nowhere | Slot(i: nat) | AtNode(j: nat)

  datatype SetResult = Ok(p: Place) | IndexIsNil | IndexIsNaN

  class LuaTable {
    const hash: Hash
    var slots: seq<Val>
    var node: seq<Node>
    var lastfree: int
    ghost var rank: seq<real>
    ghost var contents: Contents
    ghost var owner: Owner

    ghost predicate Valid()
      reads this
    {
      && Chained(hash, node, rank) && Agrees(slots, node, contents) && FullFrom(node, lastfree) && Traced(hash, node, owner)
      && |slots| <= MAXASIZE && |node| <= MAXASIZE
    }

    /** luaH_new. */
    constructor (h: Hash, narray: nat, nhash: nat, ghost objects: Owner)
      requires narray <= MAXASIZE && nhash <= MAXASIZE
      ensures Valid() && contents == map[] && owner == objects && hash == h && |slots| == narray && |node| >= nhash
    {
      SizeBound(nhash);
      hash := h;
      slots := Nils(narray);
      var size := if nhash == 0 then 0 else Two(CeilLog2(nhash));
      node := Frees(size);
      lastfree := size;
      rank := Zeros(size);
      contents := map[];
      owner := objects;
      NoDeadTraced(h, Frees(size), objects);
    }

    // -------------------------------------------------------------- lookup

    /** The search along a chain shared by luaH_get, luaH_getnum and luaH_getstr. */
    method Find(key: Key) returns (j: int)
      requires Valid() && Proper(key)
      ensures j == NULL ==> Absent(node, key)
      ensures j != NULL ==> Keyed(node, j) && node[j].key == key
    {
      hide AllPlaced, DistinctKeys, Links, Agrees, FullFrom, Traced, Ahead;
      if node == [] { return NULL; }
      AheadStart(hash, node, rank, key);
      RankLength(node, rank);
      j := Main(hash, key, |node|);
      while j != NULL && node[j].key != key
        invariant j != NULL ==> 0 <= j < |node|
        invariant Ahead(node, j, key)
        decreases j != NULL, if j != NULL then Above(rank, j) else {}
      {
        AheadNext(node, j, key);
        NextInRange(node, rank, j);
        j := node[j].next;
      }
      AheadEnd(node, j, key);
    }

    /** luaH_get: nothing for nil and NaN, the array part for its indices, else the hash part. */
    method Get(key: Key) returns (p: Place)
      requires Valid() && !key.DeadKey?
      ensures p.Nowhere? ==> key !in contents && !InArray(key, |slots|)
      ensures Proper(key) && p.Nowhere? ==> Absent(node, key)
      ensures !p.Nowhere? ==> Proper(key) && IsPlace(p, key) && At(p) == Lookup(contents, key)
      ensures At(p) != NilVal <==> key in contents
    {
      if !Proper(key) { return Nowhere; }
      if InArray(key, |slots|) { return Slot(key.k - 1); }
      var j := Find(key);
      if j == NULL { return Nowhere; }
      p := AtNode(j);
    }

    /** The place belongs to the key. */
    predicate IsPlace(p: Place, key: Key)
      reads this
    {
      match p
      case Nowhere => false
      case Slot(i) => i < |slots| && key == IntKey(i + 1)
      case AtNode(j) => j < |node| && node[j].key == key
    }

    function At(p: Place): Val
      requires p.Slot? ==> p.i < |slots|
      requires p.AtNode? ==> p.j < |node|
      reads this
    {
      match p
      case Nowhere => NilVal
      case Slot(i) => slots[i]
      case AtNode(j) => node[j].val
    }

    /** The caller of luaH_set writes through the place it got. */
    method Assign(p: Place, v: Val, ghost key: Key)
      requires Valid() && Proper(key) && IsPlace(p, key)
      modifies this`slots, this`node, this`contents
      ensures Valid() && contents == Update(old(contents), key, v) && |slots| == |old(slots)| && |node| == |old(node)|
      ensures slots == if p.Slot? then old(slots)[p.i := v] else old(slots)
      ensures node == if p.AtNode? then Valued(old(node), p.j, v) else old(node)
    {
      hide AllPlaced, DistinctKeys, Links, Agrees, FullFrom, Traced;
      match p
      case Slot(i) =>
        ArrayWrite(slots, node, contents, i, v);
        contents := Update(contents, key, v);
        slots := slots[i := v];
      case AtNode(j) =>
        NodeWrite(hash, slots, node, rank, contents, j, v);
        FadedTraced(hash, node, Valued(node, j, v), owner);
        FullSame(node, Valued(node, j, v), lastfree);
        contents := Update(contents, key, v);
        node := Valued(node, j, v);
    }

    // -------------------------------------------------------------- free nodes and chains

    /** getfreepos: lastfree goes down to a node without a key, or below the vector. */
    method GetFreePos() returns (n: int)
      requires lastfree <= |node|
      modifies this`lastfree
      ensures n == NULL ==> forall j :: 0 <= j < old(lastfree) ==> Keyed(node, j)
      ensures n != NULL ==> 0 <= n < old(lastfree) && n == lastfree && node[n].key == NilKey
      ensures n != NULL ==> forall j :: n < j < old(lastfree) ==> Keyed(node, j)
      ensures lastfree <= old(lastfree)
    {
      while lastfree > 0
        invariant lastfree <= old(lastfree)
        invariant forall j :: 0 <= j && lastfree <= j < old(lastfree) ==> Keyed(node, j)
      {
        lastfree := lastfree - 1;
        if node[lastfree].key == NilKey { return lastfree; }
      }
      lastfree := lastfree - 1;
      n := NULL;
    }

    /** find_prev_node: the node of mp's chain that leads to next. */
    method FindPrev(mp: nat, next: nat) returns (prev: int)
      requires Links(node, rank) && mp < |node| && next < |node| && mp != next
      ensures prev == NULL <==> !Reaches(node, mp, next)
      ensures prev != NULL ==> 0 <= prev < |node| && node[prev].next == next
    {
      hide Links, Reaches;
      RankLength(node, rank);
      ReachSelf(node, mp);
      prev := mp;
      while prev != NULL && node[prev].next != next
        invariant prev != NULL ==> 0 <= prev < |node| && prev != next
        invariant Reaches(node, mp, next) ==> prev != NULL && Reaches(node, prev, next)
        invariant prev != NULL ==> Reaches(node, mp, prev)
        decreases prev != NULL, if prev != NULL then Above(rank, prev) else {}
      {
        NextInRange(node, rank, prev);
        ReachNext(node, mp, prev, next);
        prev := node[prev].next;
      }
      if prev != NULL { ReachLast(node, mp, prev, next); }
    }

    /** newkey's own search for the previous node, which it knows is there. */
    method FindLink(othern: nat, mp: nat) returns (prev: nat)
      requires Links(node, rank) && othern < |node| && mp < |node| && othern != mp && Reaches(node, othern, mp)
      ensures prev < |node| && node[prev].next == mp
    {
      hide Links, Reaches;
      RankLength(node, rank);
      prev := othern;
      while node[prev].next != mp
        invariant 0 <= prev < |node| && prev != mp && Reaches(node, prev, mp)
        decreases Above(rank, prev)
      {
        NextInRange(node, rank, prev);
        ReachNext(node, prev, prev, mp);
        prev := node[prev].next;
      }
    }

    // -------------------------------------------------------------- in-place rehash

    /** move_node: false when another node took this one's place, with one more key in its main
        position. */
    method MoveNode(n: nat) returns (done: bool)
      requires Rebuilding(hash, node, rank) && n < |node| && node[n].val != NilVal
      modifies this`node, this`rank
      ensures Rebuilding(hash, node, rank) && SameEntries(old(node), node) && PlacedStay(hash, old(node), node, n) && |node| == |old(node)|
      ensures done && Keyed(node, n) ==> Placed(hash, node, n)
      ensures !done ==> Keyed(node, n) && node[n].val != NilVal && InPlaceSet(hash, old(node)) < InPlaceSet(hash, node)
    {
      hide Rebuilding, SameEntries, PlacedStay, Reaches, InPlaceSet, Placed, Loose;
      RebuildingFacts(hash, node, rank);
      var mp := Main(hash, node[n].key, |node|);
      if mp == n {
        HomeAlready(hash, node, rank, n);
        return true;
      }
      var prev := FindPrev(mp, n);
      if prev != NULL {
        LinkedAlready(hash, node, rank, mp, n);
        return true;
      }
      StillLoose(hash, node, rank, mp, n);
      if node[mp].val != NilVal {
        var othermp := Main(hash, node[mp].key, |node|);
        if othermp != mp {
          prev := FindPrev(othermp, mp);
          if prev != NULL {
            DisplaceStep(hash, node, rank, prev, mp, n);
            rank := rank[n := rank[mp]];
            node := Displaced(node, prev, mp, n, node[n].key, node[n].val);
            return true;
          } else {
            StillLoose(hash, node, rank, othermp, mp);
            SwapStep(hash, node, rank, mp, n);
            node := Swapped(node, mp, n);
            RebuildingFacts(hash, node, rank);
            return false;
          }
        } else {
          LinkStep(hash, node, rank, mp, n);
          rank := LinkRank(node, rank, mp, n);
          node := LinkedIn(node, mp, n, node[n].key, node[n].val);
        }
      } else {
        HomeStep(hash, node, rank, mp, n);
        node := MovedHome(node, mp, n);
      }
      return true;
    }

    /** The last loop of resize_hashpart. */
    method MoveNodes()
      requires Rebuilding(hash, node, rank)
      modifies this`node, this`rank
      ensures Rebuilding(hash, node, rank) && SameEntries(old(node), node) && AllPlaced(hash, node) && |node| == |old(node)|
    {
      hide Rebuilding, SameEntries, PlacedStay, InPlaceSet, OutOfPlaceSet, Placed, PlacedBelow, Loose, Keyed;
      SameEntriesSelf(node);
      NoneBelow(hash, node);
      var i := 0;
      while i < |node|
        invariant 0 <= i <= |node| == |old(node)| && Rebuilding(hash, node, rank) && SameEntries(old(node), node)
        invariant PlacedBelow(hash, node, i)
      {
        RebuildingFacts(hash, node, rank);
        if node[i].val != NilVal {
          var done := false;
          while !done
            invariant i < |node| == |old(node)| && Rebuilding(hash, node, rank) && SameEntries(old(node), node) && PlacedBelow(hash, node, i)
            invariant !done ==> node[i].val != NilVal
            invariant done && Keyed(node, i) ==> Placed(hash, node, i)
            decreases !done, OutOfPlaceSet(hash, node)
          {
            ghost var t := node;
            done := MoveNode(i);
            SameEntriesTrans(old(node), t, node);
            PlacedBelowStays(hash, t, node, i);
            if !done { FewerToPlace(hash, t, node); }
          }
        } else {
          FreeIsUnkeyed(hash, node, rank, i);
        }
        PlacedBelowNext(hash, node, i);
        i := i + 1;
      }
      AllBelow(hash, node);
    }

    /** move_number: an integer key inside the array part is moved there. */
    method MoveNumber(i: nat) returns (moved: bool)
      requires i < |node| && node[i].val != NilVal
      modifies this`slots, this`node
      ensures moved <==> InArray(old(node)[i].key, |old(slots)|)
      ensures moved ==> slots == old(slots)[old(node)[i].key.k - 1 := old(node)[i].val] && node == old(node)[i := FREE.(next := old(node)[i].next)]
      ensures !moved ==> slots == old(slots) && node == old(node)
    {
      moved := InArray(node[i].key, |slots|);
      if moved {
        slots := slots[node[i].key.k - 1 := node[i].val];
        node := node[i := node[i].(key := NilKey, val := NilVal)];
      }
    }

    /** One round of the first loop of resize_hashpart. */
    method BreakNode(i: nat, nh: nat, ghost asize0: nat)
      requires Broken(slots, asize0, node, i, nh, contents) && i < |node| && |HashKeys(contents, |slots|)| <= nh
      requires FullBetween(node, lastfree, nh) && (i < nh ==> lastfree == nh)
      modifies this`slots, this`node, this`lastfree
      ensures Broken(slots, asize0, node, i + 1, nh, contents) && |slots| == |old(slots)| && |node| == |old(node)|
      ensures FullBetween(node, lastfree, nh) && (i < nh ==> lastfree == nh)
      ensures forall j :: i < j < |node| ==> node[j] == old(node)[j]
    {
      hide Broken, FullBetween, HashKeys;
      var t := node;
      node := node[i := node[i].(next := NULL)];
      if node[i].val == NilVal {
        BreakClear(slots, asize0, t, i, nh, contents);
        node := node[i := node[i].(key := NilKey)];
        assert node == t[i := FREE];
        FullKept(t, node, lastfree, nh, i);
        return;
      }
      ghost var a := slots;
      var moved := MoveNumber(i);
      if moved {
        BreakNumber(a, asize0, t, i, nh, contents);
        assert node == t[i := FREE];
        FullKept(t, node, lastfree, nh, i);
        return;
      }
      if i < nh {
        FullKept(t, node, lastfree, nh, i);
        BreakKeep(slots, asize0, t, i, nh, contents);
      } else {
        FreeToCompact(slots, asize0, t, i, nh, contents);
        ghost var f :| 0 <= f < nh && t[f].key == NilKey;
        FullKept(t, node, lastfree, nh, i);
        FreeBelow(node, lastfree, nh, f);
        var n := GetFreePos();
        assert n != NULL by { assert !Keyed(node, f); }
        BreakKeyed(slots, asize0, t, i, nh, contents);
        BreakCompact(slots, asize0, t, i, nh, contents, n);
        FullCompact(t, node, lastfree, old(lastfree), nh, i, n);
        node := node[n := node[i]];
      }
    }

    /** resize_hashpart: the node vector is rehashed within itself. Its new size is the next power
        of two, which must cover the keys it is to hold. */
    method ResizeHashPart(nhsize: nat, ghost asize0: nat)
      requires asize0 <= |slots| <= MAXASIZE && Chained(hash, node, rank) && Agrees(slots[..asize0], node, contents)
      requires forall x :: asize0 <= x < |slots| ==> slots[x] == NilVal
      requires |HashKeys(contents, |slots|)| <= nhsize <= MAXASIZE && forall k :: k in contents ==> KeyOwned(k, owner)
      modifies this`slots, this`node, this`lastfree, this`rank
      ensures Valid() && |slots| == |old(slots)| && |node| == Two(if nhsize > 0 then CeilLog2(nhsize) else 0)
      ensures KeyedWithin(node, HashKeys(contents, |slots|)) && lastfree == |node|
    {
      hide Chained, Agrees, Broken, Rebuilding, SameEntries, FullFrom, Traced, KeyedWithin, HashKeys, Two, CeilLog2;
      var oldhsize := |node|;
      var lsize := if nhsize > 0 then CeilLog2(nhsize) else 0;
      var nh := Two(lsize);
      ghost var grown := if oldhsize < nh then nh - oldhsize else 0;
      BreakStart(hash, slots[..asize0], |slots| - asize0, node, rank, grown, contents, nh);
      assert slots[..asize0] + Nils(|slots| - asize0) == slots;
      if oldhsize < nh { node := node + Frees(nh - oldhsize); } else { assert node + Frees(grown) == node; }
      lastfree := nh;
      var i := 0;
      while i < oldhsize
        invariant 0 <= i <= oldhsize <= |node| == oldhsize + grown && |slots| == |old(slots)|
        invariant Broken(slots, asize0, node, i, nh, contents)
        invariant FullBetween(node, lastfree, nh) && (i <= nh ==> lastfree == nh)
        invariant forall j :: oldhsize <= j < |node| ==> node[j] == FREE
      {
        BreakNode(i, nh, asize0);
        i := i + 1;
      }
      BreakRest(slots, asize0, node, i, nh, contents);
      BreakEnd(hash, slots, asize0, node, nh, contents);
      assert oldhsize <= nh ==> node[..nh] == node;
      if oldhsize > nh { node := node[..nh]; }
      lastfree := nh;
      rank := Zeros(nh);
      ghost var t := node;
      MoveNodes();
      RebuiltAgrees(hash, slots, t, node, rank, contents);
      RebuiltWithin(hash, slots, node, rank, contents);
      WithinTraced(hash, node, rank, owner, contents, |slots|);
      SizeBound(nhsize);
      Rebuilt(hash, node, rank);
    }

    // -------------------------------------------------------------- counting keys

    /** countint. */
    method CountInt(key: Key, nums: seq<nat>, ghost c: set<int>) returns (nums': seq<nat>, counted: nat)
      requires SliceCounts(nums, c) && (InArray(key, MAXASIZE) ==> key.k !in c)
      ensures counted == if InArray(key, MAXASIZE) then 1 else 0
      ensures SliceCounts(nums', if InArray(key, MAXASIZE) then c + {key.k} else c)
    {
      hide SliceCounts;
      nums', counted := nums, 0;
      if InArray(key, MAXASIZE) {
        CountOne(nums, c, key.k);
        NumsLength(nums, c);
        nums', counted := nums[CeilLog2(key.k) := nums[CeilLog2(key.k)] + 1], 1;
      }
    }

    /** numusearray: the used indices, slice by slice. */
    method NumUseArray() returns (nums: seq<nat>, ause: nat)
      requires |slots| <= MAXASIZE
      ensures SliceCounts(nums, UsedIndices(slots)) && ause == |UsedIndices(slots)|
    {
      hide UsedIndices, Slice, UpTo, Between, Two;
      ghost var c := UsedIndices(slots);
      nums := seq(MAXBITS + 1, _ => 0);
      ause := 0;
      var lg, ttlg, i := 0, 1, 1;
      TwoZero(slots);
      while lg <= MAXBITS
        invariant 0 <= lg <= MAXBITS + 1 && ttlg == Two(lg) && |nums| == MAXBITS + 1
        invariant i == (if Two(lg) / 2 < |slots| then Two(lg) / 2 else |slots|) + 1
        invariant forall l :: 0 <= l < lg ==> nums[l] == |Slice(c, l)|
        invariant forall l :: lg <= l <= MAXBITS ==> nums[l] == 0
        invariant ause == |UpTo(c, Two(lg) / 2)|
      {
        var lc, lim := 0, ttlg;
        if lim > |slots| {
          lim := |slots|;
          if i > lim { break; }
        }
        BetweenNone(c, Two(lg) / 2, i - 1);
        while i <= lim
          invariant Two(lg) / 2 < i <= lim + 1 && lim <= |slots| && lc == |Between(c, Two(lg) / 2, i - 1)|
        {
          BetweenNext(slots, Two(lg) / 2, i);
          if slots[i - 1] != NilVal { lc := lc + 1; }
          i := i + 1;
        }
        SliceDone(slots, lg, lim);
        Doubled(slots, lg, lim);
        nums := nums[lg := nums[lg] + lc];
        ause := ause + lc;
        lg := lg + 1;
        ttlg := ttlg * 2;
      }
      TopBits();
      SlicesEmpty(slots, lg);
    }

    /** numusehash: the live nodes, and which of their keys are candidates. */
    method NumUseHash(nums0: seq<nat>, ghost c: set<int>) returns (nums: seq<nat>, ause: nat, totaluse: nat)
      requires SliceCounts(nums0, c) && DistinctKeys(node)
      requires forall j :: 0 <= j < |node| && node[j].val != NilVal ==> Proper(node[j].key) && (node[j].key.IntKey? ==> node[j].key.k !in c)
      ensures SliceCounts(nums, c + IntsOf(LiveKeys(node, 0))) && ause == |IntsOf(LiveKeys(node, 0))|
      ensures totaluse == |LiveKeys(node, 0)|
    {
      hide SliceCounts, LiveKeys, IntsOf, DistinctKeys;
      nums, ause, totaluse := nums0, 0, 0;
      var i := |node|;
      NoneLive(node, c);
      while i > 0
        invariant 0 <= i <= |node| && totaluse == |LiveKeys(node, i)| && ause == |IntsOf(LiveKeys(node, i))|
        invariant SliceCounts(nums, c + IntsOf(LiveKeys(node, i)))
      {
        i := i - 1;
        LiveNext(node, i);
        if node[i].val != NilVal {
          ghost var live := LiveKeys(node, i + 1);
          IntsNext(live, node[i].key);
          var counted;
          nums, counted := CountInt(node[i].key, nums, c + IntsOf(live));
          CountedSets(c, live, node[i].key);
          ause := ause + counted;
          totaluse := totaluse + 1;
        }
      }
    }

    // -------------------------------------------------------------- new keys and rehash

    /** luaH_set and luaH_setnum up to the write: the place of the key, made if need be. When room
        is set, s has all keys of the node vector and this one, the vector covers it, and nothing
        is rehashed. */
    method SetPlace(key: Key, ghost room: bool, ghost s: set<Key>) returns (p: Place)
      requires Valid() && Proper(key) && KeyOwned(key, owner) && |contents| < MAXASIZE
      requires room && !InArray(key, |slots|) ==> KeyedWithin(node, s) && key in s && |s| <= |node|
      modifies this`slots, this`node, this`lastfree, this`rank, this`contents
      ensures Valid() && contents == old(contents) && IsPlace(p, key) && At(p) == Lookup(contents, key)
      ensures room ==> slots == old(slots) && |node| == |old(node)|
      ensures room && KeyedWithin(old(node), s) ==> KeyedWithin(node, s)
      decreases if room then 0 else 1, 4
    {
      hide Chained, Agrees, FullFrom, Traced, KeyedWithin;
      p := Get(key);
      if p == Nowhere { p := NewKey(key, room, s); }
    }

    /** newkey: into its main position when no value is there; else a free node is taken, by the
        colliding node if that is out of its main position and by the new key if not. */
    method NewKey(key: Key, ghost room: bool, ghost s: set<Key>) returns (p: Place)
      requires Valid() && Proper(key) && KeyOwned(key, owner) && |contents| < MAXASIZE
      requires key !in contents && !InArray(key, |slots|) && Absent(node, key)
      requires room ==> KeyedWithin(node, s) && key in s && |s| <= |node|
      modifies this`slots, this`node, this`lastfree, this`rank, this`contents
      ensures Valid() && contents == old(contents) && IsPlace(p, key) && At(p) == Lookup(contents, key)
      ensures room ==> slots == old(slots) && |node| == |old(node)| && KeyedWithin(node, s)
      decreases if room then 0 else 1, 3
    {
      hide Chained, Agrees, FullFrom, Traced, KeyedWithin, Absent, Links, Reaches, HashKeys;
      if room { SomeNodes(node, s, key); }
      if node != [] && node[Main(hash, key, |node|)].val == NilVal {
        var mp := Main(hash, key, |node|);
        OverwriteValid(hash, slots, node, rank, lastfree, contents, mp, key, s);
        OverwriteTraced(hash, node, owner, mp, key);
        node := Overwritten(node, mp, key);
        return AtNode(mp);
      }
      FullBound(node, lastfree);
      ghost var lastfree0 := lastfree;
      var n := GetFreePos();
      if n == NULL {
        NoneFree(hash, node, rank, lastfree0, s, key, room);
        Rehash(key);
        p := SetPlace(key, true, HashKeys(contents, |slots|) + {key});
        return;
      }
      p := Collide(key, n, lastfree0, s);
    }

    /** newkey when a value is in the main position: n is the free node taken. */
    method Collide(key: Key, n: nat, ghost lastfree0: int, ghost s: set<Key>) returns (p: Place)
      requires Chained(hash, node, rank) && Agrees(slots, node, contents) && FullFrom(node, lastfree0) && Traced(hash, node, owner)
      requires Proper(key) && KeyOwned(key, owner) && key !in contents && !InArray(key, |slots|) && Absent(node, key)
      requires n < |node| && n == lastfree < lastfree0 && node[n].key == NilKey && forall j :: n < j < lastfree0 ==> Keyed(node, j)
      requires node[Main(hash, key, |node|)].val != NilVal
      modifies this`node, this`rank
      ensures Chained(hash, node, rank) && Agrees(slots, node, contents) && FullFrom(node, lastfree) && Traced(hash, node, owner)
      ensures IsPlace(p, key) && At(p) == NilVal && |node| == |old(node)|
      ensures KeyedWithin(old(node), s) && key in s ==> KeyedWithin(node, s)
    {
      hide Chained, Agrees, FullFrom, Traced, KeyedWithin, Absent, Links, Reaches, HashKeys;
      var mp := Main(hash, key, |node|);
      CollidingKeyed(hash, slots, node, rank, contents, mp);
      var othern := Main(hash, node[mp].key, |node|);
      if othern != mp {
        ReachedFromMain(hash, node, rank, mp);
        var prev := FindLink(othern, mp);
        DisplaceValid(hash, slots, node, rank, lastfree0, contents, prev, mp, n, key, s);
        DisplaceKeepsTraced(hash, node, rank, owner, prev, mp, n, key);
        rank := rank[n := rank[mp]];
        node := Displaced(node, prev, mp, n, key, NilVal);
        p := AtNode(mp);
      } else {
        LinkValid(hash, slots, node, rank, lastfree0, contents, mp, n, key, s);
        LinkKeepsTraced(hash, slots, node, rank, owner, contents, mp, n, key);
        rank := LinkRank(node, rank, mp, n);
        node := LinkedIn(node, mp, n, key, NilVal);
        p := AtNode(n);
      }
    }

    /** The counts of rehash: all keys and the new one, and the integers among them by slice. */
    method CountKeys(ek: Key) returns (nums: seq<nat>, nasize: nat, totaluse: nat)
      requires Valid() && Proper(ek) && ek !in contents && !InArray(ek, |slots|)
      ensures var all := contents.Keys + {ek};
              Candidates(IntsOf(all)) && SliceCounts(nums, IntsOf(all)) && nasize == |IntsOf(all)| && totaluse == |all| == |contents| + 1
    {
      hide Chained, Agrees, FullFrom, Traced, SliceCounts, UsedIndices, LiveKeys, IntsOf, Candidates;
      CountStart(hash, slots, node, rank, contents);
      CountEnd(slots, node, contents, ek);
      nums, nasize := NumUseArray();
      totaluse := nasize;
      var ause, live;
      nums, ause, live := NumUseHash(nums, UsedIndices(slots));
      totaluse := totaluse + live;
      nasize := nasize + ause;
      var counted;
      nums, counted := CountInt(ek, nums, IntsOf(contents.Keys));
      CountTotal(contents, ek, IntsOf(contents.Keys), nasize);
      nasize := nasize + counted;
      totaluse := totaluse + 1;
    }

    /** rehash: sizes that cover all keys and the new one; afterwards there is room for it. */
    method Rehash(ek: Key)
      requires Valid() && Proper(ek) && ek !in contents && |contents| < MAXASIZE && !InArray(ek, |slots|)
      modifies this`slots, this`node, this`lastfree, this`rank, this`contents
      ensures Valid() && contents == old(contents)
      ensures !InArray(ek, |slots|) ==> KeyedWithin(node, HashKeys(contents, |slots|) + {ek}) && |HashKeys(contents, |slots|) + {ek}| <= |node|
      decreases 1, 2
    {
      hide Chained, Agrees, FullFrom, Traced, SliceCounts, IntsOf, HashKeys, KeyedWithin, UpTo, WorthIt, Outside, Candidates;
      ghost var all := contents.Keys + {ek};
      var nums, nasize, totaluse := CountKeys(ek);
      var na;
      na, nasize := ComputeSizes(nums, nasize, IntsOf(all));
      OutsideSize(all, nasize);
      OutsideCovers(contents, ek, nasize, |all|);
      Resize(nasize, totaluse - na, Outside(all, nasize));
      if !InArray(ek, |slots|) { OutsideHash(contents, ek, |slots|); }
    }

    /** resize: array part and node vector get new sizes; s has the keys the node vector is to hold. */
    method Resize(nasize: nat, nhsize: nat, ghost s: set<Key>)
      requires Valid() && nasize <= MAXASIZE && nhsize <= MAXASIZE && |contents| < MAXASIZE
      requires HashKeys(contents, nasize) <= s && |s| <= nhsize
      modifies this`slots, this`node, this`lastfree, this`rank, this`contents
      ensures Valid() && contents == old(contents) && |slots| == nasize && |node| == Two(if nhsize > 0 then CeilLog2(nhsize) else 0)
      ensures KeyedWithin(node, s) && |s| <= |node|
      decreases 1, 1
    {
      hide Chained, Agrees, FullFrom, Traced, HashKeys, KeyedWithin;
      var oldasize := |slots|;
      ghost var a0 := slots;
      AllOwned(hash, slots, node, owner, contents);
      if nasize > oldasize { slots := slots + Nils(nasize - oldasize); }
      assert slots[..oldasize] == a0;
      FewerOutside(contents, nasize, |slots|, s);
      ResizeHashPart(nhsize, oldasize);
      WithinMore(node, HashKeys(contents, |slots|), s);
      if nasize < oldasize { Reinsert(nasize, s); }
    }

    /** The elements of the vanishing slice of the array part go to the node vector. */
    method Reinsert(nasize: nat, ghost s: set<Key>)
      requires Valid() && nasize <= |slots| && |contents| < MAXASIZE
      requires KeyedWithin(node, s) && |s| <= |node| && HashKeys(contents, nasize) <= s
      modifies this`slots, this`node, this`lastfree, this`rank, this`contents
      ensures Valid() && contents == old(contents) && |slots| == nasize && |node| == |old(node)|
      ensures KeyedWithin(node, s)
      decreases 1, 0
    {
      hide Chained, Agrees, FullFrom, Traced, HashKeys, KeyedWithin, Without, Update;
      var oldasize := |slots|;
      var vanishing := slots;
      ghost var c := contents;
      CutAgrees(slots, node, c, nasize);
      slots := slots[..nasize];
      contents := Without(c, nasize, oldasize);
      var i := nasize;
      while i < oldasize
        invariant nasize <= i <= oldasize && Valid() && contents == Without(c, i, oldasize) && |slots| == nasize && |node| == |old(node)|
        invariant KeyedWithin(node, s)
      {
        ghost var key := IntKey(i + 1);
        VanishingValue(vanishing, old(node), c, nasize, i, s);
        if vanishing[i] != NilVal {
          var p := SetPlace(IntKey(i + 1), true, s);
          ghost var t := node;
          Assign(p, vanishing[i], IntKey(i + 1));
          WithinSame(t, node, s);
        }
        WithoutNext(c, i, oldasize);
        i := i + 1;
      }
      WithoutNone(c, oldasize);
    }

    // -------------------------------------------------------------- the table as a map

    /** luaH_set: the errors are those of nil and NaN as an index. */
    method Set(key: Key) returns (r: SetResult)
      requires Valid() && !key.DeadKey? && KeyOwned(key, owner) && |contents| < MAXASIZE
      modifies this`slots, this`node, this`lastfree, this`rank, this`contents
      ensures Valid() && contents == old(contents)
      ensures r == IndexIsNil <==> key == NilKey
      ensures r == IndexIsNaN <==> key == NaNKey
      ensures r.Ok? ==> IsPlace(r.p, key) && At(r.p) == Lookup(contents, key)
    {
      hide Chained, Agrees, FullFrom, Traced;
      var p := Get(key);
      if p != Nowhere { return Ok(p); }
      if key == NilKey { return IndexIsNil; }
      if key == NaNKey { return IndexIsNaN; }
      p := NewKey(key, false, {});
      r := Ok(p);
    }

    /** A write of a value, or of nil, through luaH_set. */
    method Put(key: Key, v: Val) returns (r: SetResult)
      requires Valid() && !key.DeadKey? && KeyOwned(key, owner) && |contents| < MAXASIZE
      modifies this`slots, this`node, this`lastfree, this`rank, this`contents
      ensures Valid() && (r.Ok? <==> Proper(key)) && contents == if r.Ok? then Update(old(contents), key, v) else old(contents)
    {
      hide Chained, Agrees, FullFrom, Traced, Update;
      r := Set(key);
      if r.Ok? { Assign(r.p, v, key); }
    }

    /** The collector's removeentry on a node without a value. */
    method RemoveEntry(j: nat)
      requires Valid() && j < |node| && node[j].val == NilVal
      modifies this`node
      ensures Valid() && Faded(old(node), node) && !HasObject(node[j].key)
      ensures forall i :: 0 <= i < |node| ==> node[i].val == old(node)[i].val && (i != j ==> node[i] == old(node)[i])
      ensures var k := old(node[j]).key; node[j].key == if k.OtherKey? && k.collectable then DeadKey(k) else k
    {
      hide Chained, Agrees, FullFrom, Traced;
      if HasObject(node[j].key) {
        ghost var u := node[j := node[j].(key := DeadKey(node[j].key))];
        KeyDies(hash, slots, node, rank, lastfree, contents, j);
        FadedTraced(hash, node, u, owner);
        node := node[j := node[j].(key := DeadKey(node[j].key))];
      }
    }

    /** What traversetable does to the node vector: the keys of empty entries die. */
    method RemoveEmpty()
      requires Valid()
      modifies this`node
      ensures Valid() && Dimmed(slots, old(node), slots, node)
      ensures forall j :: 0 <= j < |node| && HasObject(node[j].key) ==> node[j].val != NilVal
    {
      hide Chained, Agrees, FullFrom, Traced;
      var i := |node|;
      while i > 0
        invariant 0 <= i <= |node| == |old(node)| && Valid() && Faded(old(node), node)
        invariant forall j :: 0 <= j < |node| ==> node[j].val == old(node)[j].val
        invariant forall j :: i <= j < |node| && HasObject(node[j].key) ==> node[j].val != NilVal
      {
        i := i - 1;
        if node[i].val == NilVal { RemoveEntry(i); }
      }
    }

    /** luaH_resizearray, as OP_SETLIST and lua_createtable use it: the array part does not shrink. */
    method ResizeArray(nasize: nat)
      requires Valid() && |slots| <= nasize <= MAXASIZE && |contents| < MAXASIZE
      modifies this`slots, this`node, this`lastfree, this`rank, this`contents
      ensures Valid() && contents == old(contents) && |slots| == nasize
    {
      hide Chained, Agrees, FullFrom, Traced, HashKeys, KeyedWithin;
      VectorCovers(hash, slots, node, rank, contents, nasize);
      Resize(nasize, |node|, HashKeys(contents, nasize));
    }

    /** A collection passes through the table and frees objects that are keys of no entry. */
    method Free(freed: set<nat>)
      requires Valid() && Unused(contents, freed)
      modifies this`node, this`owner
      ensures Valid() && owner == old(owner) - freed
    {
      hide Chained, Agrees, FullFrom, Traced, Unused, Dimmed;
      RemoveEmpty();
      FewerOwned(hash, slots, node, owner, contents, freed);
      owner := owner - freed;
    }

    /** One call: a write, the making of an object, or a collection with the objects it frees. */
    method Do(call: Call)
      requires Valid() && CallOk(contents, owner, call) && |contents| < MAXASIZE
      modifies this
      ensures Valid() && contents == After(old(contents), call) && owner == OwnerAfter(old(owner), call)
    {
      hide Chained, Agrees, FullFrom, Traced, Unused, Update, HasObject;
      match call
      case Write(key, v) =>
        var _ := Put(key, v);
      case Allocate(key) =>
        MoreOwned(hash, node, owner, key);
        owner := OwnerAfter(owner, call);
      case Collect(freed) =>
        Free(freed);
    }

    /** Any sequence of writes of values and of nil, of allocations and of collections, after which
        addresses may be used again: the table is the map the writes make, in which each key has the
        value last written to it. */
    method Run(calls: seq<Call>)
      requires Valid() && Legal(contents, owner, calls) && |contents| + |calls| < MAXASIZE
      modifies this
      ensures Valid() && contents == AfterAll(old(contents), calls) && HoldsLast(old(contents), calls, contents)
    {
      hide Chained, Agrees, FullFrom, Traced, CallOk, HoldsLast, Update, Proper, OwnerAfter;
      AfterHoldsLast(contents, owner, calls);
      var i := 0;
      assert calls[0..] == calls;
      while i < |calls|
        invariant 0 <= i <= |calls| && Valid() && Legal(contents, owner, calls[i..])
        invariant AfterAll(contents, calls[i..]) == AfterAll(old(contents), calls)
        invariant |contents| <= |old(contents)| + i
      {
        assert calls[i..][1..] == calls[i + 1..] && calls[i..][0] == calls[i];
        if calls[i].Write? { UpdateSize(contents, calls[i].key, calls[i].v); }
        Do(calls[i]);
        i := i + 1;
      }
    }

    // -------------------------------------------------------------- traversal

    /** findindex; false is the error for a key that is not there. */
    method FindIndex(key: Key) returns (ok: bool, i: int)
      requires Valid() && !key.DeadKey?
      ensures ok ==> IndexOf(hash, slots, node, key, i)
      ensures !ok ==> key != NilKey && !InArray(key, |slots|) && forall j :: !Matching(hash, node, key, j)
    {
      hide AllPlaced, DistinctKeys, Links, Agrees, FullFrom, Traced, MatchAhead, Reaches, Foremost;
      if key == NilKey { return true, -1; }
      if InArray(key, |slots|) { return true, key.k - 1; }
      if node == [] { return false, 0; }
      MatchStart(node, Main(hash, key, |node|), key);
      RankLength(node, rank);
      var n: int := Main(hash, key, |node|);
      ghost var mp: nat := n;
      while n != NULL
        invariant n != NULL ==> 0 <= n < |node| && Reaches(node, mp, n)
        invariant MatchAhead(node, mp, n, key)
        decreases n != NULL, if n != NULL then Above(rank, n) else {}
      {
        if node[n].key == key || Twins(node[n].key, key) {
          MatchHere(hash, node, n, key);
          return true, n + |slots|;
        }
        MatchNext(node, mp, n, key);
        NextInRange(node, rank, n);
        if node[n].next != NULL { ReachLast(node, mp, n, node[n].next); }
        n := node[n].next;
      }
      MatchNone(hash, node, key);
      ok, i := false, 0;
    }

    /** luaH_next: the first entry with a value after the one of the key. */
    method Next(key: Key) returns (ok: bool, more: bool, k: Key, v: Val, ghost i: int, ghost n: int)
      requires Valid() && !key.DeadKey?
      ensures !ok ==> forall j :: !IndexOf(hash, slots, node, key, j)
      ensures ok ==> IndexOf(hash, slots, node, key, i) && -1 <= i < n <= |slots| + |node|
      ensures ok ==> forall m :: i < m < n ==> EntryVal(slots, node, m) == NilVal
      ensures ok ==> (more <==> n < |slots| + |node|)
      ensures ok && more ==> k == EntryKey(slots, node, n) && v == EntryVal(slots, node, n) != NilVal
    {
      hide Chained, Agrees, FullFrom, Traced, Reaches, Foremost;
      more, k, v, n := false, NilKey, NilVal, 0;
      var at;
      ok, at := FindIndex(key);
      i := at;
      if !ok { return; }
      at := at + 1;
      while at < |slots|
        invariant i < at && at <= if at <= |slots| then |slots| else |slots| + |node|
        invariant at <= |slots| + |node|
        invariant forall m :: i < m < at ==> EntryVal(slots, node, m) == NilVal
      {
        n := at;
        if slots[at] != NilVal { return true, true, IntKey(at + 1), slots[at], i, n; }
        at := at + 1;
      }
      while at - |slots| < |node|
        invariant i < at && |slots| <= at <= |slots| + |node|
        invariant forall m :: i < m < at ==> EntryVal(slots, node, m) == NilVal
        decreases |slots| + |node| - at
      {
        n := at;
        if node[at - |slots|].val != NilVal { return true, true, node[at - |slots|].key, node[at - |slots|].val, i, n; }
        at := at + 1;
      }
      n := at;
    }

    /** What a program or the collector does to the table between two calls of luaH_next. */
    method Apply(change: Change)
      requires Valid()
      modifies this`slots, this`node, this`contents
      ensures Valid() && contents == Changed(old(contents), change) && Dimmed(old(slots), old(node), slots, node)
    {
      hide Chained, Agrees, FullFrom, Traced, Update;
      match change
      case Field(key, v) =>
        if key.DeadKey? {
          DeadNotIn(slots, node, contents, key);
        } else {
          var p := Get(key);
          if At(p) != NilVal { Assign(p, v, key); }
        }
      case Marking => RemoveEmpty();
    }

    method ApplyAll(changes: seq<Change>)
      requires Valid()
      modifies this`slots, this`node, this`contents
      ensures Valid() && contents == AllChanged(old(contents), changes) && Dimmed(old(slots), old(node), slots, node)
    {
      hide Chained, Agrees, FullFrom, Traced, Dimmed, Changed;
      DimmedSelf(slots, node);
      var i := 0;
      assert changes[0..] == changes;
      while i < |changes|
        invariant 0 <= i <= |changes| && Valid() && Dimmed(old(slots), old(node), slots, node)
        invariant AllChanged(contents, changes[i..]) == AllChanged(old(contents), changes)
      {
        ghost var a, t := slots, node;
        assert changes[i..][1..] == changes[i + 1..] && changes[i..][0] == changes[i];
        Apply(changes[i]);
        DimmedTrans(old(slots), old(node), a, t, slots, node);
        i := i + 1;
      }
    }

    /** One turn of a traversal: a call of luaH_next and the changes made after it. */
    method Turn(key: Key, ks: seq<Key>, changes: seq<seq<Change>>, ghost a0: seq<Val>, ghost t0: seq<Node>, ghost at: int, ghost c0: Contents)
      returns (more: bool, k: Key, ghost n: int)
      requires Valid() && |slots| == |a0| && |node| == |t0| && Dimmed(a0, t0, slots, node) && Met(a0, t0, slots, node, ks, at) && Differ(a0, t0)
      requires -1 <= at < |slots| + |node| && IndexOf(hash, slots, node, key, at) && !key.DeadKey? && KeyOwned(key, owner)
      requires contents == MapAt(c0, changes, |ks|)
      modifies this`slots, this`node, this`contents
      ensures Valid() && |slots| == |a0| && |node| == |t0| && Dimmed(a0, t0, slots, node) && at < n <= |slots| + |node|
      ensures !more ==> n == |slots| + |node| && Met(a0, t0, slots, node, ks, n) && contents == MapAt(c0, changes, |ks|)
      ensures more ==> n < |slots| + |node| && Met(a0, t0, slots, node, ks + [k], n) && contents == MapAt(c0, changes, |ks| + 1)
      ensures more ==> k in MapAt(c0, changes, |ks|) && IndexOf(hash, slots, node, k, n) && !k.DeadKey? && KeyOwned(k, owner)
    {
      hide Chained, Agrees, FullFrom, Traced, Dimmed, Met, Differ, MapAt, IndexOf, KeyOwned;
      var ok, v;
      ghost var i;
      ok, more, k, v, i, n := Next(key);
      IndexIs(hash, slots, node, rank, key, at, i);
      if more { EntryNow(hash, slots, node, rank, owner, contents, n); }
      Meet(a0, t0, slots, node, ks, at, n, k);
      if more {
        ghost var a, t := slots, node;
        if |ks| < |changes| {
          ApplyAll(changes[|ks|]);
          Go(hash, a0, t0, a, t, slots, node, rank, owner, contents, ks + [k], n, k);
        }
        MapNext(c0, changes, |ks|);
      }
    }

    /** A whole traversal with luaH_next, with changes[i] made after the i-th key is met: fields that
        exist are given values or cleared, and keys of cleared ones die.  No key is met twice, each
        has a value when it is met, and none that has one at the end is missed. */
    method Traverse(changes: seq<seq<Change>>) returns (ks: seq<Key>)
      requires Valid()
      modifies this`slots, this`node, this`contents
      ensures Valid() && contents == MapAt(old(contents), changes, |ks|)
      ensures forall i, j :: 0 <= i < j < |ks| ==> ks[i] != ks[j]
      ensures forall i :: 0 <= i < |ks| ==> ks[i] in MapAt(old(contents), changes, i)
      ensures forall k :: k in contents ==> k in ks
      ensures changes == [] ==> contents == old(contents) && forall k :: k in ks <==> k in contents
    {
      ghost var a0, t0 := slots, node;
      hide Chained, Agrees, FullFrom, Traced, Dimmed, Met, Differ, MapAt, IndexOf;
      AllDiffer(hash, slots, node, rank, contents);
      ks := [];
      var key, more := NilKey, true;
      ghost var at := -1;
      NoneMet(slots, node);
      DimmedSelf(slots, node);
      StartIndex(hash, slots, node);
      MapStart(contents, changes);
      while more
        invariant Valid() && |slots| == |a0| && |node| == |t0| && Dimmed(a0, t0, slots, node) && Met(a0, t0, slots, node, ks, at)
        invariant -1 <= at <= |slots| + |node| && contents == MapAt(old(contents), changes, |ks|)
        invariant more ==> IndexOf(hash, slots, node, key, at) && at < |slots| + |node| && !key.DeadKey? && KeyOwned(key, owner)
        invariant !more ==> at == |slots| + |node|
        invariant forall i :: 0 <= i < |ks| ==> ks[i] in MapAt(old(contents), changes, i)
        decreases |a0| + |t0| - at, more
      {
        var k;
        more, k, at := Turn(key, ks, changes, a0, t0, at, old(contents));
        if more {
          key := k;
          ks := ks + [k];
        }
      }
      AllMet(a0, t0, slots, node, contents, ks);
      if changes == [] { LeftAlone(old(contents), changes); }
    }

    // -------------------------------------------------------------- the length operator

    /** An integer index with a value whose successor has none. */
    ghost predicate Border(n: int)
      reads this
    {
      n >= 0 && (n > 0 ==> IntKey(n) in contents) && IntKey(n + 1) !in contents
    }

    /** unbound_search: doubling, then halving; linear once the doubled index leaves int. */
    method UnboundSearch(j0: nat) returns (n: nat)
      requires Valid() && (j0 > 0 ==> IntKey(j0) in contents) && j0 <= MAXASIZE
      ensures Border(n)
    {
      hide Chained, Agrees, FullFrom, Traced;
      MaxSize();
      var i: nat := j0;
      var j := j0 + 1;
      var p := Get(IntKey(j));
      while At(p) != NilVal
        invariant i < j && (i > 0 ==> IntKey(i) in contents)
        invariant PlaceFor(p, IntKey(j)) && (At(p) != NilVal <==> IntKey(j) in contents) && j <= MAX_INT
        decreases MAX_INT - j
      {
        i := j;
        j := j * 2;
        if j > MAX_INT {
          n := LinearSearch();
          return;
        }
        p := Get(IntKey(j));
      }
      while j - i > 1
        invariant i < j && (i > 0 ==> IntKey(i) in contents) && IntKey(j) !in contents
      {
        var m := (i + j) / 2;
        p := Get(IntKey(m));
        if At(p) == NilVal { j := m; } else { i := m; }
      }
      n := i;
    }

    method LinearSearch() returns (n: nat)
      requires Valid()
      ensures Border(n)
    {
      hide Chained, Agrees, FullFrom, Traced;
      var i := 1;
      var p := Get(IntKey(i));
      while At(p) != NilVal
        invariant i >= 1 && PlaceFor(p, IntKey(i)) && (At(p) != NilVal <==> IntKey(i) in contents) && forall k :: 1 <= k < i ==> IntKey(k) in contents
        decreases |contents| + 1 - i
      {
        AllPresent(contents, i);
        i := i + 1;
        p := Get(IntKey(i));
      }
      n := i - 1;
    }

    /** What Get promises of its result. */
    predicate PlaceFor(p: Place, key: Key)
      reads this
    {
      p == Nowhere || IsPlace(p, key)
    }

    /** luaH_getn: a border of the table. */
    method Getn() returns (n: nat)
      requires Valid()
      ensures Border(n)
    {
      hide Chained, Agrees, FullFrom, Traced;
      SlotsAre(slots, node, contents);
      var j := |slots|;
      if j > 0 && slots[j - 1] == NilVal {
        var i := 0;
        while j - i > 1
          invariant 0 <= i < j <= |slots| && (i > 0 ==> slots[i - 1] != NilVal) && slots[j - 1] == NilVal
        {
          var m := (i + j) / 2;
          if slots[m - 1] == NilVal { j := m; } else { i := m; }
        }
        return i;
      }
      if node == [] {
        NoNodes(slots, node, contents, IntKey(j + 1));
        return j;
      }
      n := UnboundSearch(j);
    }
  }

  const MAX_INT := 0x7fff_fffd

  lemma MaxSize()
    ensures MAXASIZE == 0x400_0000
  {
    assert Two(2) == 4;
    assert Two(4) == 16;
    assert Two(6) == 64;
    assert Two(8) == 256;
    assert Two(10) == 1024;
    assert Two(12) == 4096;
    assert Two(14) == 0x4000;
    assert Two(16) == 0x1_0000;
    assert Two(18) == 0x4_0000;
    assert Two(20) == 0x10_0000;
    assert Two(22) == 0x40_0000;
    assert Two(24) == 0x100_0000;
  }

  // ---------------------------------------------------------------- traversal

  /** Matching nodes found from mp are found from the current one. */
  ghost predicate MatchAhead(t: seq<Node>, mp: nat, n: int, key: Key) {
    forall d :: 0 <= d < |t| && Matches(t[d].key, key) && Reaches(t, mp, d) ==> n != NULL && Reaches(t, n, d)
  }

  lemma MatchStart(t: seq<Node>, mp: nat, key: Key)
    requires mp < |t|
    ensures MatchAhead(t, mp, mp, key) && Reaches(t, mp, mp)
  {
    assert Path(t, mp, mp, 0);
  }

  lemma MatchNext(t: seq<Node>, mp: nat, n: int, key: Key)
    requires MatchAhead(t, mp, n, key) && 0 <= n < |t| && !Matches(t[n].key, key)
    ensures MatchAhead(t, mp, t[n].next, key)
  {
    forall d | 0 <= d < |t| && Matches(t[d].key, key) && Reaches(t, mp, d) ensures t[n].next != NULL && Reaches(t, t[n].next, d) {
      ReachNext(t, n, n, d);
    }
  }

  lemma MatchHere(h: Hash, t: seq<Node>, n: int, key: Key)
    requires 0 <= n < |t| && Matches(t[n].key, key) && MatchAhead(t, Main(h, key, |t|), n, key) && Reaches(t, Main(h, key, |t|), n)
    ensures Matching(h, t, key, n) && Foremost(h, t, n, key)
  {
  }

  lemma MatchNone(h: Hash, t: seq<Node>, key: Key)
    requires |t| > 0 && MatchAhead(t, Main(h, key, |t|), NULL, key)
    ensures forall j :: !Matching(h, t, key, j)
  {
  }

  lemma StartIndex(h: Hash, a: seq<Val>, t: seq<Node>)
    ensures IndexOf(h, a, t, NilKey, -1)
  {
  }

  lemma IndexIs(h: Hash, a: seq<Val>, t: seq<Node>, rank: seq<real>, key: Key, at: int, i: int)
    requires Chained(h, t, rank) && IndexOf(h, a, t, key, at)
    ensures IndexOf(h, a, t, key, i) ==> at == i
  {
    if IndexOf(h, a, t, key, i) { SameIndex(h, a, t, rank, key, at, i); }
  }

  lemma EntryNow(h: Hash, a: seq<Val>, t: seq<Node>, rank: seq<real>, owner: Owner, c: Contents, n: nat)
    requires Chained(h, t, rank) && Agrees(a, t, c) && Traced(h, t, owner) && n < |a| + |t| && EntryVal(a, t, n) != NilVal
    ensures var k := EntryKey(a, t, n); k in c && Proper(k) && KeyOwned(k, owner) && IndexOf(h, a, t, k, n)
  {
    EntryInMap(a, t, rank, c, n);
    LiveIndex(h, a, t, rank, owner, c, n);
  }

  /** The traversal goes on after changes. */
  lemma Go(h: Hash, a0: seq<Val>, t0: seq<Node>, a: seq<Val>, t: seq<Node>, b: seq<Val>, u: seq<Node>, rank: seq<real>, owner: Owner, c: Contents, ks: seq<Key>, at: int, key: Key)
    requires Dimmed(a0, t0, a, t) && Dimmed(a, t, b, u) && Met(a0, t0, a, t, ks, at) && Agrees(b, u, c) && Chained(h, u, rank)
    requires Traced(h, t, owner) && KeyOwned(key, owner) && !key.DeadKey? && IndexOf(h, a, t, key, at)
    ensures Dimmed(a0, t0, b, u) && Met(a0, t0, b, u, ks, at) && IndexOf(h, b, u, key, at) && |b| == |a0| && |u| == |t0|
  {
    DimmedTrans(a0, t0, a, t, b, u);
    MetFades(a0, t0, a, t, b, u, c, rank, ks, at);
    IndexStays(h, a, t, b, u, owner, key, at);
  }

  lemma MapStart(c: Contents, changes: seq<seq<Change>>)
    ensures MapAt(c, changes, 0) == c
  {
  }

  lemma MapNext(c: Contents, changes: seq<seq<Change>>, n: nat)
    ensures MapAt(c, changes, n + 1) == if n < |changes| then AllChanged(MapAt(c, changes, n), changes[n]) else MapAt(c, changes, n)
  {
  }

  lemma DeadNotIn(a: seq<Val>, t: seq<Node>, c: Contents, key: Key)
    requires Agrees(a, t, c) && key.DeadKey?
    ensures key !in c && Dimmed(a, t, a, t)
  {
  }

  // ---------------------------------------------------------------- keys that are objects

  lemma AllOwned(h: Hash, a: seq<Val>, t: seq<Node>, owner: Owner, c: Contents)
    requires Agrees(a, t, c) && Traced(h, t, owner)
    ensures forall k :: k in c ==> KeyOwned(k, owner)
  {
    ContentsOwned(a, t, owner, c);
  }

  lemma WithinTraced(h: Hash, t: seq<Node>, rank: seq<real>, owner: Owner, c: Contents, n: nat)
    requires KeyedWithin(t, HashKeys(c, n)) && (forall k :: k in c ==> KeyOwned(k, owner)) && Rebuilding(h, t, rank)
    ensures Traced(h, t, owner)
  {
    forall j | 0 <= j < |t| ensures KeyOwned(t[j].key, owner) && !t[j].key.DeadKey? { if Keyed(t, j) { assert t[j].key in c; } }
    NoDeadTraced(h, t, owner);
  }

  lemma DisplaceKeepsTraced(h: Hash, t: seq<Node>, rank: seq<real>, owner: Owner, prev: nat, mp: nat, n: nat, key: Key)
    requires Chained(h, t, rank) && Traced(h, t, owner) && Proper(key) && Absent(t, key) && KeyOwned(key, owner)
    requires Keyed(t, mp) && mp == Main(h, key, |t|) && !InPlace(h, t, mp) && n < |t| && t[n].key == NilKey && prev < |t| && t[prev].next == mp
    ensures Traced(h, Displaced(t, prev, mp, n, key, NilVal), owner)
  {
    DisplaceTraced(h, t, rank, owner, prev, mp, n, key);
  }

  lemma LinkKeepsTraced(h: Hash, a: seq<Val>, t: seq<Node>, rank: seq<real>, owner: Owner, c: Contents, mp: nat, n: nat, key: Key)
    requires Chained(h, t, rank) && Agrees(a, t, c) && Traced(h, t, owner) && Proper(key) && Absent(t, key) && KeyOwned(key, owner)
    requires mp < |t| && mp == Main(h, key, |t|) && t[mp].val != NilVal && n < |t| && t[n].key == NilKey && mp != n
    ensures Traced(h, LinkedIn(t, mp, n, key, NilVal), owner)
  {
    LiveThere(a, t, rank, c, mp);
    assert Unlinked(t, n);
    LinkTraced(h, t, owner, mp, n, key);
  }

  lemma KeyDies(h: Hash, a: seq<Val>, t: seq<Node>, rank: seq<real>, lastfree: int, c: Contents, j: nat)
    requires Chained(h, t, rank) && Agrees(a, t, c) && FullFrom(t, lastfree) && j < |t| && t[j].val == NilVal && HasObject(t[j].key)
    ensures var u := t[j := t[j].(key := DeadKey(t[j].key))]; Chained(h, u, rank) && Agrees(a, u, c) && FullFrom(u, lastfree)
  {
    DeadChained(h, a, t, rank, c, j);
    FullSame(t, t[j := t[j].(key := DeadKey(t[j].key))], lastfree);
  }

  lemma MoreOwned(h: Hash, t: seq<Node>, owner: Owner, key: Key)
    requires Traced(h, t, owner) && HasObject(key) && key.id !in owner
    ensures Traced(h, t, OwnerAfter(owner, Allocate(key)))
  {
    assert Owned(t, owner);
  }

  /** Objects may go that are keys of no entry, once the keys of empty entries are dead. */
  lemma FewerOwned(h: Hash, a: seq<Val>, t: seq<Node>, owner: Owner, c: Contents, freed: set<nat>)
    requires Traced(h, t, owner) && Agrees(a, t, c) && Unused(c, freed)
    requires forall j :: 0 <= j < |t| && HasObject(t[j].key) ==> t[j].val != NilVal
    ensures Traced(h, t, owner - freed)
  {
    forall j | 0 <= j < |t| ensures KeyOwned(t[j].key, owner - freed) {
      assert KeyOwned(t[j].key, owner);
      if HasObject(t[j].key) { assert Keyed(t, j) && t[j].key in c; }
    }
  }

  // ---------------------------------------------------------------- runs

  /** What happens to a table and to the objects that are or may be its keys. */
  datatype Call = Write(key: Key, v: Val) | Allocate(made: Key) | Collect(freed: set<nat>)

  /** No object at these addresses is the key of an entry. */
  ghost predicate Unused(c: Contents, freed: set<nat>) { forall k :: k in c && HasObject(k) ==> k.id !in freed }

  /** Only objects that are there can be keys; a new one gets an address that is free at that time;
      one that is the key of an entry is not freed. */
  ghost predicate CallOk(c: Contents, owner: Owner, call: Call) {
    match call
    case Write(key, v) => !key.DeadKey? && KeyOwned(key, owner)
    case Allocate(made) => HasObject(made) && made.id !in owner
    case Collect(freed) => Unused(c, freed)
  }

  function After(c: Contents, call: Call): Contents { if call.Write? && Proper(call.key) then Update(c, call.key, call.v) else c }

  function OwnerAfter(owner: Owner, call: Call): Owner {
    match call
    case Write(_, _) => owner
    case Allocate(made) => if made.OtherKey? then owner[made.id := made] else owner
    case Collect(freed) => owner - freed
  }

  ghost predicate Legal(c: Contents, owner: Owner, calls: seq<Call>)
    decreases |calls|
  {
    calls == [] || (CallOk(c, owner, calls[0]) && Legal(After(c, calls[0]), OwnerAfter(owner, calls[0]), calls[1..]))
  }

  /** A key cleared and collected, and its address used for another key. */
  lemma AddressUsedAgain(k: Key, k': Key, v: Val)
    requires HasObject(k) && HasObject(k') && k.id == k'.id
    ensures Legal(map[], map[], [Allocate(k), Write(k, v), Write(k, NilVal), Collect({k.id}), Allocate(k'), Write(k', v)])
  {
    var calls := [Allocate(k), Write(k, v), Write(k, NilVal), Collect({k.id}), Allocate(k'), Write(k', v)];
    assert Legal(map[], map[k.id := k'], []);
    assert calls[5..] == [Write(k', v)] && Legal(map[], map[k.id := k'], calls[5..]);
    assert map[][k.id := k'] == map[k.id := k'] && Legal(map[], map[], calls[4..]) by { assert calls[4..][1..] == calls[5..]; }
    assert map[k.id := k] - {k.id} == map[] && Legal(map[], map[k.id := k], calls[3..]) by { assert calls[3..][1..] == calls[4..]; }
    var c := Update(map[], k, v);
    assert Update(c, k, NilVal) == map[] && Legal(c, map[k.id := k], calls[2..]) by { assert calls[2..][1..] == calls[3..]; }
    assert Legal(map[], map[k.id := k], calls[1..]) by { assert calls[1..][1..] == calls[2..]; }
    assert map[][k.id := k] == map[k.id := k];
  }

  /** The map that the writes make. */
  function AfterAll(c: Contents, calls: seq<Call>): Contents
    decreases |calls|
  {
    if calls == [] then c else AfterAll(After(c, calls[0]), calls[1..])
  }

  ghost predicate WritesTo(call: Call, key: Key) { call.Write? && call.key == key }

  /** A write to a key that is neither nil nor NaN, with no later write to that key. */
  ghost predicate LastTo(calls: seq<Call>, i: nat)
    requires i < |calls|
  {
    calls[i].Write? && calls[i].key !in {NilKey, NaNKey} && forall j :: i < j < |calls| ==> !WritesTo(calls[j], calls[i].key)
  }

  /** Each key has the value last written to it, none if that was nil, and otherwise what it had. */
  ghost predicate HoldsLast(c: Contents, calls: seq<Call>, r: Contents) {
    && (forall i :: 0 <= i < |calls| && LastTo(calls, i) ==>
         if calls[i].v == NilVal then calls[i].key !in r else calls[i].key in r && r[calls[i].key] == calls[i].v)
    && forall key :: key in {NilKey, NaNKey} || (forall i :: 0 <= i < |calls| ==> !WritesTo(calls[i], key)) ==>
         Lookup(r, key) == Lookup(c, key) && (key in r <==> key in c)
  }

  lemma {:induction false} AfterHoldsLast(c: Contents, owner: Owner, calls: seq<Call>)
    requires Legal(c, owner, calls)
    ensures HoldsLast(c, calls, AfterAll(c, calls))
    decreases |calls|
  {
    if calls != [] {
      var rest, c1, r := calls[1..], After(c, calls[0]), AfterAll(c, calls);
      AfterHoldsLast(c1, OwnerAfter(owner, calls[0]), rest);
      forall i | 0 <= i < |calls| && LastTo(calls, i)
        ensures if calls[i].v == NilVal then calls[i].key !in r else calls[i].key in r && r[calls[i].key] == calls[i].v
      {
        if i > 0 {
          assert forall j :: i - 1 < j < |rest| ==> rest[j] == calls[j + 1];
          assert rest[i - 1] == calls[i] && LastTo(rest, i - 1);
        } else {
          forall j | 0 <= j < |rest| ensures !WritesTo(rest[j], calls[0].key) { assert rest[j] == calls[j + 1]; }
        }
      }
      forall key | key in {NilKey, NaNKey} || (forall i :: 0 <= i < |calls| ==> !WritesTo(calls[i], key))
        ensures Lookup(r, key) == Lookup(c, key) && (key in r <==> key in c)
      {
        assert key in {NilKey, NaNKey} || !WritesTo(calls[0], key);
        assert key in {NilKey, NaNKey} || forall i :: 0 <= i < |rest| ==> !WritesTo(rest[i], key) by {
          forall i | 0 <= i < |rest| ensures rest[i] == calls[i + 1] {}
        }
      }
    }
  }

  lemma UpdateSize(c: Contents, key: Key, v: Val)
    ensures |Update(c, key, v)| <= |c| + 1
  {
    assert |Update(c, key, v)| == |Update(c, key, v).Keys| && |c| == |c.Keys|;
    SubsetSize(Update(c, key, v).Keys, c.Keys + {key});
  }

  /** The node vector has a node for each key it holds. */
  lemma VectorCovers(h: Hash, a: seq<Val>, t: seq<Node>, rank: seq<real>, c: Contents, n: nat)
    requires Chained(h, t, rank) && Agrees(a, t, c) && |a| <= n
    ensures |HashKeys(c, n)| <= |t|
  {
    CountStart(h, a, t, rank, c);
    LiveIsHash(a, t, c);
    hide Chained, Agrees;
    LiveSize(t, 0);
    assert HashKeys(c, n) <= HashKeys(c, |a|);
    SubsetSize(HashKeys(c, n), HashKeys(c, |a|));
  }

  lemma {:induction false} LiveSize(t: seq<Node>, i: nat)
    requires i <= |t|
    ensures |LiveKeys(t, i)| <= |t| - i
    decreases |t| - i
  {
    if i == |t| {
      assert LiveKeys(t, i) == {};
    } else {
      LiveSize(t, i + 1);
      assert LiveKeys(t, i) <= LiveKeys(t, i + 1) + {t[i].key};
      SubsetSize(LiveKeys(t, i), LiveKeys(t, i + 1) + {t[i].key});
    }
  }

  /** No free node is left at or above lastfree. */
  ghost predicate FullFrom(t: seq<Node>, lastfree: int) {
    lastfree <= |t| && forall j :: 0 <= j < |t| && lastfree <= j ==> Keyed(t, j)
  }

  lemma RankLength(t: seq<Node>, rank: seq<real>)
    requires Links(t, rank)
    ensures |rank| == |t|
  {
  }

  lemma FullSame(t: seq<Node>, u: seq<Node>, lastfree: int)
    requires FullFrom(t, lastfree) && |u| == |t| && forall j :: Keyed(t, j) ==> Keyed(u, j)
    ensures FullFrom(u, lastfree)
  {
  }

  lemma NextInRange(t: seq<Node>, rank: seq<real>, j: int)
    requires Links(t, rank) && 0 <= j < |t|
    ensures t[j].next != NULL ==> 0 <= t[j].next < |t| && Above(rank, t[j].next) < Above(rank, j)
  {
    if t[j].next != NULL { AboveShrinks(t, rank, j); }
  }

  lemma AheadEnd(t: seq<Node>, j: int, key: Key)
    requires Ahead(t, j, key)
    ensures j == NULL ==> Absent(t, key)
  {
  }

  lemma ReachSelf(t: seq<Node>, a: nat)
    requires a < |t|
    ensures Reaches(t, a, a)
  {
    assert Path(t, a, a, 0);
  }

  lemma ReachNext(t: seq<Node>, a: int, p: int, b: int)
    requires 0 <= p < |t| && p != b
    ensures Reaches(t, p, b) ==> t[p].next != NULL && Reaches(t, t[p].next, b)
    ensures Reaches(t, a, p) && 0 <= t[p].next < |t| ==> Reaches(t, a, t[p].next)
  {
    if Reaches(t, p, b) {
      var n: nat :| Path(t, p, b, n);
      assert Path(t, t[p].next, b, n - 1);
    }
    if Reaches(t, a, p) && 0 <= t[p].next < |t| {
      var n: nat :| Path(t, a, p, n);
      PathSnoc(t, a, p, n);
    }
  }

  lemma {:induction false} PathSnoc(t: seq<Node>, a: int, p: int, n: nat)
    requires Path(t, a, p, n) && 0 <= p < |t| && 0 <= t[p].next < |t|
    ensures Path(t, a, t[p].next, n + 1)
    decreases n
  {
    if n > 0 { PathSnoc(t, t[a].next, p, n - 1); } else { assert Path(t, t[p].next, t[p].next, 0); }
  }

  lemma ReachLast(t: seq<Node>, a: int, p: int, b: int)
    requires Reaches(t, a, p) && 0 <= p < |t| && t[p].next == b && 0 <= b < |t|
    ensures Reaches(t, a, b)
  {
    var n: nat :| Path(t, a, p, n);
    PathSnoc(t, a, p, n);
  }

  lemma RebuildingFacts(h: Hash, t: seq<Node>, rank: seq<real>)
    requires Rebuilding(h, t, rank)
    ensures Links(t, rank) && forall j :: 0 <= j < |t| ==> (t[j].val != NilVal <==> Keyed(t, j)) && (t[j].val == NilVal ==> t[j] == FREE)
  {
    forall j | 0 <= j < |t| ensures (t[j].val != NilVal <==> Keyed(t, j)) && (t[j].val == NilVal ==> t[j] == FREE) {
      if t[j].key == NilKey { assert t[j] == FREE; } else { assert Keyed(t, j); }
    }
  }

  lemma HomeAlready(h: Hash, t: seq<Node>, rank: seq<real>, n: nat)
    requires Rebuilding(h, t, rank) && Keyed(t, n) && Main(h, t[n].key, |t|) == n
    ensures Placed(h, t, n) && SameEntries(t, t) && PlacedStay(h, t, t, n)
  {
    assert Path(t, n, n, 0);
  }

  lemma LinkedAlready(h: Hash, t: seq<Node>, rank: seq<real>, mp: nat, n: nat)
    requires Rebuilding(h, t, rank) && Keyed(t, n) && Main(h, t[n].key, |t|) == mp && mp != n && Reaches(t, mp, n)
    ensures Placed(h, t, n) && SameEntries(t, t) && PlacedStay(h, t, t, n)
  {
    if !Placed(h, t, n) { LooseNotReached(t, mp, n); }
  }

  lemma StillLoose(h: Hash, t: seq<Node>, rank: seq<real>, mp: nat, n: nat)
    requires Rebuilding(h, t, rank) && Keyed(t, n) && Main(h, t[n].key, |t|) == mp && mp != n && !Reaches(t, mp, n)
    ensures Loose(t, n)
  {
  }

  lemma SameEntriesSelf(t: seq<Node>)
    ensures SameEntries(t, t)
  {
  }

  ghost predicate PlacedBelow(h: Hash, t: seq<Node>, i: nat) { forall j :: 0 <= j < i && Keyed(t, j) ==> Placed(h, t, j) }

  lemma PlacedBelowStays(h: Hash, t: seq<Node>, u: seq<Node>, i: nat)
    requires PlacedBelow(h, t, i) && PlacedStay(h, t, u, i)
    ensures PlacedBelow(h, u, i)
  {
  }

  ghost function OutOfPlaceSet(h: Hash, t: seq<Node>): set<int> { set j | 0 <= j < |t| && !InPlace(h, t, j) }

  lemma FewerToPlace(h: Hash, t: seq<Node>, u: seq<Node>)
    requires |u| == |t| && InPlaceSet(h, t) < InPlaceSet(h, u)
    ensures OutOfPlaceSet(h, u) < OutOfPlaceSet(h, t)
  {
    var x :| x in InPlaceSet(h, u) && x !in InPlaceSet(h, t);
    assert x in OutOfPlaceSet(h, t) && x !in OutOfPlaceSet(h, u);
    forall y | y in OutOfPlaceSet(h, u) ensures y in OutOfPlaceSet(h, t) { assert y !in InPlaceSet(h, u); }
  }

  lemma FreeIsUnkeyed(h: Hash, t: seq<Node>, rank: seq<real>, i: nat)
    requires Rebuilding(h, t, rank) && i < |t| && t[i].val == NilVal
    ensures !Keyed(t, i)
  {
  }

  lemma PlacedBelowNext(h: Hash, t: seq<Node>, i: nat)
    requires PlacedBelow(h, t, i) && (Keyed(t, i) ==> Placed(h, t, i))
    ensures PlacedBelow(h, t, i + 1)
  {
  }

  lemma NoneBelow(h: Hash, t: seq<Node>)
    ensures PlacedBelow(h, t, 0)
  {
  }

  lemma AllBelow(h: Hash, t: seq<Node>)
    requires PlacedBelow(h, t, |t|)
    ensures AllPlaced(h, t)
  {
  }

  /** Between lastfree and nh no node is free. */
  ghost predicate FullBetween(t: seq<Node>, lastfree: int, nh: nat) {
    lastfree <= nh <= |t| && forall j :: 0 <= j && lastfree <= j < nh ==> Keyed(t, j)
  }

  lemma FullKept(t: seq<Node>, u: seq<Node>, lastfree: int, nh: nat, i: nat)
    requires FullBetween(t, lastfree, nh) && (i < nh ==> lastfree == nh) && |u| == |t| && forall j :: 0 <= j < |t| && j != i ==> u[j] == t[j]
    ensures FullBetween(u, lastfree, nh)
  {
    forall j | 0 <= j && lastfree <= j < nh ensures Keyed(u, j) { assert Keyed(t, j); }
  }

  lemma FreeBelow(t: seq<Node>, lastfree: int, nh: nat, f: nat)
    requires FullBetween(t, lastfree, nh) && f < nh && t[f].key == NilKey
    ensures f < lastfree && !Keyed(t, f)
  {
    assert f >= lastfree ==> Keyed(t, f);
  }

  lemma BreakKeyed(a: seq<Val>, asize0: nat, t: seq<Node>, i: nat, nh: nat, c: Contents)
    requires Broken(a, asize0, t, i, nh, c) && i < |t| && t[i].val != NilVal
    ensures Keyed(t, i)
  {
  }

  /** Node i has been copied to n, the free node found from the old lastfree down. */
  lemma FullCompact(t: seq<Node>, u: seq<Node>, lastfree: int, lastfree0: int, nh: nat, i: nat, n: nat)
    requires FullBetween(u, lastfree0, nh) && n == lastfree < lastfree0 && i < |u| && Keyed(u, i)
    requires forall j :: n < j < lastfree0 ==> Keyed(u, j)
    ensures FullBetween(u[n := u[i]], lastfree, nh)
  {
    var w := u[n := u[i]];
    forall j | 0 <= j && lastfree <= j < nh ensures Keyed(w, j) { if j > n { assert Keyed(u, j); } }
  }

  lemma SizeBound(n: nat)
    requires n <= MAXASIZE
    ensures Two(if n > 0 then CeilLog2(n) else 0) <= MAXASIZE
  {
    if n > 0 {
      CeilSmall(n);
      if CeilLog2(n) < MAXBITS { TwoMono(CeilLog2(n), MAXBITS); }
    } else {
      TwoMono(0, MAXBITS);
    }
  }

  /** The nodes added by growing need no treatment. */
  lemma BreakRest(a: seq<Val>, asize0: nat, t: seq<Node>, i: nat, nh: nat, c: Contents)
    requires Broken(a, asize0, t, i, nh, c) && forall j :: i <= j < |t| ==> t[j] == FREE
    ensures Broken(a, asize0, t, |t|, nh, c)
  {
    forall k | k in c ensures Found(a, t, |t|, nh, k, c[k]) {
      assert Found(a, t, i, nh, k, c[k]);
      if !(InArray(k, |a|) && a[k.k - 1] == c[k]) {
        var j :| Keyed(t, j) && Counts(j, i, nh) && t[j].key == k;
        assert Counts(j, |t|, nh);
      }
    }
  }

  lemma Rebuilt(h: Hash, t: seq<Node>, rank: seq<real>)
    requires Rebuilding(h, t, rank) && AllPlaced(h, t)
    ensures Chained(h, t, rank) && FullFrom(t, |t|)
  {
  }

  lemma NumsLength(nums: seq<nat>, c: set<int>)
    requires SliceCounts(nums, c)
    ensures |nums| == MAXBITS + 1
  {
  }

  lemma TwoZero(a: seq<Val>)
    ensures Two(0) == 1 && |UpTo(UsedIndices(a), 0)| == 0
  {
    assert UpTo(UsedIndices(a), 0) == {};
  }

  lemma Doubled(a: seq<Val>, lg: nat, lim: nat)
    requires lim == if Two(lg) > |a| then |a| else Two(lg)
    ensures Two(lg + 1) == 2 * Two(lg) && Two(lg + 1) / 2 == Two(lg) && |UpTo(UsedIndices(a), lim)| == |UpTo(UsedIndices(a), Two(lg))|
    ensures lg == MAXBITS ==> Two(lg) == MAXASIZE
  {
    assert UpTo(UsedIndices(a), lim) == UpTo(UsedIndices(a), Two(lg));
  }

  lemma NoneLive(t: seq<Node>, c: set<int>)
    ensures LiveKeys(t, |t|) == {} && IntsOf(LiveKeys(t, |t|)) == {} && c + IntsOf(LiveKeys(t, |t|)) == c
  {
  }

  lemma CountedSets(c: set<int>, live: set<Key>, k: Key)
    requires k !in live
    ensures InArray(k, MAXASIZE) ==> c + IntsOf(live) + {k.k} == c + IntsOf(live + {k}) && |IntsOf(live + {k})| == |IntsOf(live)| + 1
    ensures !InArray(k, MAXASIZE) ==> IntsOf(live + {k}) == IntsOf(live)
    ensures |live + {k}| == |live| + 1
  {
    IntsNext(live, k);
  }

  lemma TopBits()
    ensures Two(MAXBITS + 1) / 2 == MAXASIZE
  {
  }

  lemma SomeNodes(t: seq<Node>, s: set<Key>, key: Key)
    requires key in s && |s| <= |t|
    ensures t != []
  {
    assert |s| > 0 by { SubsetSize({key}, s); }
  }

  lemma FullBound(t: seq<Node>, lastfree: int)
    requires FullFrom(t, lastfree)
    ensures lastfree <= |t|
  {
  }

  /** getfreepos fails only when every node has a key, which is not so when there is room. */
  lemma NoneFree(h: Hash, t: seq<Node>, rank: seq<real>, lastfree: int, s: set<Key>, key: Key, room: bool)
    requires Chained(h, t, rank) && FullFrom(t, lastfree) && forall j :: 0 <= j < lastfree ==> Keyed(t, j)
    requires Absent(t, key) && (room ==> KeyedWithin(t, s) && key in s && |s| <= |t|)
    ensures !room && forall l :: l <= |t| ==> FullFrom(t, l)
  {
    forall j | 0 <= j < |t| ensures Keyed(t, j) {}
    if room {
      RoomFor(t, s, key);
    }
  }

  lemma OverwriteValid(h: Hash, a: seq<Val>, t: seq<Node>, rank: seq<real>, lastfree: int, c: Contents, mp: nat, key: Key, s: set<Key>)
    requires Chained(h, t, rank) && Agrees(a, t, c) && FullFrom(t, lastfree) && Proper(key) && key !in c && !InArray(key, |a|)
    requires Absent(t, key) && mp < |t| && mp == Main(h, key, |t|) && t[mp].val == NilVal
    ensures var u := Overwritten(t, mp, key); Chained(h, u, rank) && Agrees(a, u, c) && FullFrom(u, lastfree)
    ensures KeyedWithin(t, s) && key in s ==> KeyedWithin(Overwritten(t, mp, key), s)
  {
    var u := Overwritten(t, mp, key);
    FullSame(t, u, lastfree);
    OverwriteChained(h, t, rank, mp, key);
    OverwriteAgrees(a, t, c, mp, key);
    hide Chained, Agrees, FullFrom, Traced;
    if KeyedWithin(t, s) && key in s { forall j | Keyed(u, j) ensures u[j].key in s && Proper(u[j].key) { if j != mp { assert Keyed(t, j); } } }
  }

  lemma CollidingKeyed(h: Hash, a: seq<Val>, t: seq<Node>, rank: seq<real>, c: Contents, mp: nat)
    requires Chained(h, t, rank) && Agrees(a, t, c) && mp < |t| && t[mp].val != NilVal
    ensures Keyed(t, mp) && Links(t, rank)
  {
  }

  lemma ReachedFromMain(h: Hash, t: seq<Node>, rank: seq<real>, mp: nat)
    requires Chained(h, t, rank) && Keyed(t, mp)
    ensures Reaches(t, Main(h, t[mp].key, |t|), mp)
  {
    assert Placed(h, t, mp);
  }

  lemma FilledFrom(t: seq<Node>, u: seq<Node>, lastfree0: int, n: nat)
    requires FullFrom(t, lastfree0) && |u| == |t| && n < lastfree0 && n < |t| && (forall j :: n < j < lastfree0 ==> Keyed(t, j))
    requires Keyed(u, n) && forall j :: Keyed(t, j) ==> Keyed(u, j)
    ensures FullFrom(u, n)
  {
    forall j | 0 <= j < |u| && n <= j ensures Keyed(u, j) { if j > n { assert Keyed(t, j); } }
  }

  lemma DisplaceValid(h: Hash, a: seq<Val>, t: seq<Node>, rank: seq<real>, lastfree0: int, c: Contents, prev: nat, mp: nat, n: nat, key: Key, s: set<Key>)
    requires Chained(h, t, rank) && Agrees(a, t, c) && FullFrom(t, lastfree0) && Proper(key) && key !in c && !InArray(key, |a|)
    requires Absent(t, key) && Keyed(t, mp) && !InPlace(h, t, mp) && mp == Main(h, key, |t|) && prev < |t| && t[prev].next == mp
    requires n < |t| && t[n].key == NilKey && n < lastfree0 && forall j :: n < j < lastfree0 ==> Keyed(t, j)
    ensures var u := Displaced(t, prev, mp, n, key, NilVal); Chained(h, u, rank[n := rank[mp]]) && Agrees(a, u, c) && FullFrom(u, n)
    ensures KeyedWithin(t, s) && key in s ==> KeyedWithin(Displaced(t, prev, mp, n, key, NilVal), s)
  {
    var u := Displaced(t, prev, mp, n, key, NilVal);
    assert prev != n && prev != mp;
    DisplaceChained(h, t, rank, prev, mp, n, key);
    DisplaceAgrees(a, t, c, prev, mp, n, key);
    hide Chained, Agrees, FullFrom, Traced;
    FilledFrom(t, u, lastfree0, n);
    if KeyedWithin(t, s) && key in s {
      forall j | Keyed(u, j) ensures u[j].key in s && Proper(u[j].key) { if j == n { assert u[j].key == t[mp].key; } else if j != mp { assert Keyed(t, j); } }
    }
  }

  lemma LinkValid(h: Hash, a: seq<Val>, t: seq<Node>, rank: seq<real>, lastfree0: int, c: Contents, mp: nat, n: nat, key: Key, s: set<Key>)
    requires Chained(h, t, rank) && Agrees(a, t, c) && FullFrom(t, lastfree0) && Proper(key) && key !in c && !InArray(key, |a|)
    requires Absent(t, key) && InPlace(h, t, mp) && mp == Main(h, key, |t|)
    requires n < |t| && t[n].key == NilKey && n < lastfree0 && forall j :: n < j < lastfree0 ==> Keyed(t, j)
    ensures mp != n
    ensures var u := LinkedIn(t, mp, n, key, NilVal); Chained(h, u, LinkRank(t, rank, mp, n)) && Agrees(a, u, c) && FullFrom(u, n)
    ensures KeyedWithin(t, s) && key in s ==> KeyedWithin(LinkedIn(t, mp, n, key, NilVal), s)
  {
    var u := LinkedIn(t, mp, n, key, NilVal);
    LinkChained(h, t, rank, mp, n, key);
    LinkAgrees(a, t, c, mp, n, key);
    hide Chained, Agrees, FullFrom, Traced;
    FilledFrom(t, u, lastfree0, n);
    if KeyedWithin(t, s) && key in s { forall j | Keyed(u, j) ensures u[j].key in s && Proper(u[j].key) { if j != n { assert Keyed(t, j); } } }
  }

  // ---------------------------------------------------------------- rehash counts every key

  lemma CountStart(h: Hash, a: seq<Val>, t: seq<Node>, rank: seq<real>, c: Contents)
    requires Chained(h, t, rank) && Agrees(a, t, c)
    ensures DistinctKeys(t) && FreeEmpty(t)
    ensures forall j :: 0 <= j < |t| && t[j].val != NilVal ==> Proper(t[j].key) && (t[j].key.IntKey? ==> t[j].key.k !in UsedIndices(a))
  {
    forall j | 0 <= j < |t| && t[j].val != NilVal ensures Proper(t[j].key) && (t[j].key.IntKey? ==> t[j].key.k !in UsedIndices(a)) {
      LiveHere(a, t, c, j);
    }
  }

  lemma CountEnd(a: seq<Val>, t: seq<Node>, c: Contents, ek: Key)
    requires Agrees(a, t, c) && FreeEmpty(t) && |a| <= MAXASIZE && ek !in c && !InArray(ek, |a|)
    ensures UsedIndices(a) + IntsOf(LiveKeys(t, 0)) == IntsOf(c.Keys)
    ensures |UsedIndices(a)| + |LiveKeys(t, 0)| == |c| && |UsedIndices(a)| + |IntsOf(LiveKeys(t, 0))| == |IntsOf(c.Keys)|
    ensures InArray(ek, MAXASIZE) ==> ek.k !in IntsOf(c.Keys)
  {
    AllKeysCounted(a, t, c);
    assert |c| == |c.Keys|;
    CountInts(a, t, c);
    if InArray(ek, MAXASIZE) { IntsNext(c.Keys, ek); }
  }

  lemma CountInts(a: seq<Val>, t: seq<Node>, c: Contents)
    requires Agrees(a, t, c) && FreeEmpty(t) && |a| <= MAXASIZE
    ensures UsedIndices(a) + IntsOf(LiveKeys(t, 0)) == IntsOf(c.Keys)
    ensures |UsedIndices(a)| + |IntsOf(LiveKeys(t, 0))| == |IntsOf(c.Keys)|
  {
    LiveIsHash(a, t, c);
    ArrayIsIndexed(a, t, c);
    hide Agrees, LiveKeys, UsedIndices;
    var live := HashKeys(c, |a|);
    forall k ensures k in UsedIndices(a) <==> 1 <= k <= |a| && IntKey(k) in c { IndexKeys(a, k); }
    forall k ensures k in IntsOf(c.Keys) <==> k in UsedIndices(a) || k in IntsOf(live) {
      InInts(c.Keys, k);
      InInts(live, k);
    }
    forall k | k in UsedIndices(a) ensures k !in IntsOf(live) { InInts(live, k); }
    assert UsedIndices(a) !! IntsOf(live);
    assert UsedIndices(a) + IntsOf(live) == IntsOf(c.Keys);
  }

  lemma IndexKeys(a: seq<Val>, k: int)
    ensures IntKey(k) in ArrayKeys(a) <==> k in UsedIndices(a)
    ensures k in UsedIndices(a) ==> InArray(IntKey(k), |a|)
  {
  }

  lemma InInts(s: set<Key>, k: int)
    ensures k in IntsOf(s) <==> 1 <= k <= MAXASIZE && IntKey(k) in s
  {
  }

  lemma CountTotal(c: Contents, ek: Key, ints: set<int>, n: nat)
    requires ints == IntsOf(c.Keys) && n == |ints| && ek !in c
    ensures var all := c.Keys + {ek}; IntsOf(all) == (if InArray(ek, MAXASIZE) then ints + {ek.k} else ints)
    ensures var all := c.Keys + {ek}; |IntsOf(all)| == n + (if InArray(ek, MAXASIZE) then 1 else 0) && |all| == |c| + 1 && Candidates(IntsOf(all))
  {
    IntsNext(c.Keys, ek);
    IntsCandidates(c.Keys + {ek});
  }

  lemma OutsideCovers(c: Contents, ek: Key, n: nat, total: nat)
    ensures HashKeys(c, n) <= Outside(c.Keys + {ek}, n)
  {
  }

  lemma OutsideHash(c: Contents, ek: Key, n: nat)
    requires !InArray(ek, n)
    ensures Outside(c.Keys + {ek}, n) == HashKeys(c, n) + {ek}
  {
  }

  lemma FewerOutside(c: Contents, n: nat, m: nat, s: set<Key>)
    requires HashKeys(c, n) <= s && n <= m
    ensures HashKeys(c, m) <= s && |HashKeys(c, m)| <= |s|
  {
    assert HashKeys(c, m) <= HashKeys(c, n);
    SubsetSize(HashKeys(c, m), s);
  }

  lemma WithinMore(t: seq<Node>, s: set<Key>, s': set<Key>)
    requires KeyedWithin(t, s) && s <= s'
    ensures KeyedWithin(t, s')
  {
  }

  lemma WithinSame(t: seq<Node>, u: seq<Node>, s: set<Key>)
    requires KeyedWithin(t, s) && |u| == |t| && forall j :: 0 <= j < |u| ==> u[j].key == t[j].key
    ensures KeyedWithin(u, s)
  {
    forall j | Keyed(u, j) ensures u[j].key in s && Proper(u[j].key) { assert Keyed(t, j); }
  }

  /** The map without the integer keys in a range. */
  function Without(c: Contents, lo: nat, hi: nat): Contents { map k | k in c && !(k.IntKey? && lo < k.k <= hi) :: c[k] }

  lemma CutAgrees(a: seq<Val>, t: seq<Node>, c: Contents, n: nat)
    requires Agrees(a, t, c) && n <= |a|
    ensures Agrees(a[..n], t, Without(c, n, |a|))
  {
    var d := Without(c, n, |a|);
    forall k | k in d && !InArray(k, n) ensures Here(t, k) { assert k in c && !InArray(k, |a|); }
    forall j | Keyed(t, j) ensures t[j].val == Lookup(d, t[j].key) && !InArray(t[j].key, n) && t[j].key != NaNKey {
      assert t[j].key.IntKey? && t[j].key.k > |a| ==> t[j].key.k > n;
    }
  }

  lemma VanishingValue(a: seq<Val>, t: seq<Node>, c: Contents, n: nat, i: nat, s: set<Key>)
    requires Agrees(a, t, c) && n <= i < |a| && HashKeys(c, n) <= s
    ensures a[i] == Lookup(c, IntKey(i + 1)) && (a[i] != NilVal ==> IntKey(i + 1) in s) && !InArray(IntKey(i + 1), n)
    ensures |Without(c, i, |a|)| <= |c| && Sound(c)
  {
    if a[i] != NilVal { assert IntKey(i + 1) in HashKeys(c, n); }
    SubsetSize(Without(c, i, |a|).Keys, c.Keys);
    assert |Without(c, i, |a|)| == |Without(c, i, |a|).Keys| && |c| == |c.Keys|;
  }

  lemma WithoutNext(c: Contents, i: nat, hi: nat)
    requires i < hi && Sound(c)
    ensures Lookup(c, IntKey(i + 1)) != NilVal ==> Update(Without(c, i, hi), IntKey(i + 1), Lookup(c, IntKey(i + 1))) == Without(c, i + 1, hi)
    ensures Lookup(c, IntKey(i + 1)) == NilVal ==> Without(c, i, hi) == Without(c, i + 1, hi)
  {
    var k := IntKey(i + 1);
    if k in c { assert c[k] != NilVal; }
    var v := Lookup(c, k);
    if v != NilVal { assert Update(Without(c, i, hi), k, v) == Without(c, i + 1, hi); } else { assert Without(c, i, hi) == Without(c, i + 1, hi); }
  }

  lemma WithoutNone(c: Contents, hi: nat)
    ensures Without(c, hi, hi) == c
  {
  }

  lemma NoNodes(a: seq<Val>, t: seq<Node>, c: Contents, key: Key)
    requires Agrees(a, t, c) && t == [] && !InArray(key, |a|)
    ensures key !in c
  {
    assert key in c ==> Here(t, key);
  }

  lemma SlotsAre(a: seq<Val>, t: seq<Node>, c: Contents)
    requires Agrees(a, t, c)
    ensures forall i :: 0 <= i < |a| ==> (a[i] != NilVal <==> IntKey(i + 1) in c)
  {
  }

  lemma AllPresent(c: Contents, i: nat)
    requires i >= 1 && forall k :: 1 <= k <= i ==> IntKey(k) in c
    ensures |c| >= i
  {
    var s := set k | 1 <= k <= i && IntKey(k) in c :: IntKey(k);
    assert s <= c.Keys;
    SubsetSize(s, c.Keys);
    InitialSize(c, i);
    assert |c| == |c.Keys|;
  }

  lemma {:induction false} InitialSize(c: Contents, i: nat)
    requires forall k :: 1 <= k <= i ==> IntKey(k) in c
    ensures |set k | 1 <= k <= i && IntKey(k) in c :: IntKey(k)| == i
  {
    if i > 0 {
      InitialSize(c, i - 1);
      assert (set k | 1 <= k <= i && IntKey(k) in c :: IntKey(k)) == (set k | 1 <= k <= i - 1 && IntKey(k) in c :: IntKey(k)) + {IntKey(i)};
    } else {
      assert (set k | 1 <= k <= i && IntKey(k) in c :: IntKey(k)) == {};
    }
  }

  lemma LiveThere(a: seq<Val>, t: seq<Node>, rank: seq<real>, c: Contents, j: nat)
    requires Links(t, rank) && Agrees(a, t, c) && j < |t| && t[j].val != NilVal
    ensures Keyed(t, j) && t[j].key in c && Proper(t[j].key)
  {
    assert Keyed(t, j);
  }
}
