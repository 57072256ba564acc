/** Counting the keys of a table before it is rehashed. */
module TableCount {
  import opened TableNodes
  import opened TableRebuild
  import opened TableMap
  import opened TableSizes
  import opened TableBreak

  /** The indices of the array part that hold a value. */
  predicate UsedAt(a: seq<Val>, i: int) { 1 <= i <= |a| && a[i - 1] != NilVal }

  function UsedIndices(a: seq<Val>): set<int> { set i | 1 <= i <= |a| && UsedAt(a, i) }

  function Between(c: set<int>, lo: int, hi: int): set<int> { set k | k in c && lo < k <= hi }

  /** The integer keys that could live in an array part. */
  function IntsOf(s: set<Key>): set<int> { set k | k in s && InArray(k, MAXASIZE) :: k.k }

  /** The keys with a value among the nodes from i on. */
  function LiveKeys(t: seq<Node>, i: nat): set<Key> { set j | i <= j < |t| && t[j].val != NilVal :: t[j].key }

  lemma BetweenNext(a: seq<Val>, lo: int, i: nat)
    requires lo < i <= |a| && i > 0
    ensures var c := UsedIndices(a); |Between(c, lo, i)| == |Between(c, lo, i - 1)| + (if a[i - 1] != NilVal then 1 else 0)
  {
    var c := UsedIndices(a);
    if a[i - 1] != NilVal { assert Between(c, lo, i) == Between(c, lo, i - 1) + {i}; } else { assert Between(c, lo, i) == Between(c, lo, i - 1); }
  }

  lemma BetweenNone(c: set<int>, lo: int, hi: int)
    requires hi <= lo
    ensures |Between(c, lo, hi)| == 0
  {
    assert Between(c, lo, hi) == {};
  }

  /** A slice of the array part has been counted up to its end or the end of the array part. */
  lemma SliceDone(a: seq<Val>, lg: nat, lim: nat)
    requires |a| <= MAXASIZE && lim == (if Two(lg) > |a| then |a| else Two(lg))
    ensures var c := UsedIndices(a); |Between(c, Two(lg) / 2, lim)| == |Slice(c, lg)|
    ensures var c := UsedIndices(a); |UpTo(c, lim)| == |UpTo(c, Two(lg) / 2)| + |Slice(c, lg)|
  {
    var c := UsedIndices(a);
    assert Between(c, Two(lg) / 2, lim) == Slice(c, lg);
    UpToSplit(c, lg);
    assert UpTo(c, Two(lg)) == UpTo(c, lim);
  }

  lemma SlicesEmpty(a: seq<Val>, lg: nat)
    requires |a| <= Two(lg) / 2
    ensures var c := UsedIndices(a); (forall l :: l >= lg ==> |Slice(c, l)| == 0) && |UpTo(c, Two(lg) / 2)| == |c|
  {
    var c := UsedIndices(a);
    assert UpTo(c, Two(lg) / 2) == c;
    forall l | l >= lg ensures |Slice(c, l)| == 0 {
      if l > lg { TwoMono(lg, l); }
      assert Slice(c, l) == {};
    }
  }

  /** countint: one more key in its slice. */
  lemma CountOne(nums: seq<nat>, c: set<int>, k: int)
    requires SliceCounts(nums, c) && 1 <= k <= MAXASIZE && k !in c
    ensures CeilLog2(k) <= MAXBITS
    ensures SliceCounts(nums[CeilLog2(k) := nums[CeilLog2(k)] + 1], c + {k})
  {
    CeilSmall(k);
    var d := c + {k};
    hide Two, CeilLog2;
    forall i | 0 <= i <= MAXBITS ensures |Slice(d, i)| == |Slice(c, i)| + (if i == CeilLog2(k) then 1 else 0) {
      SliceOf(k, i);
      if i == CeilLog2(k) { assert Slice(d, i) == Slice(c, i) + {k}; } else { assert Slice(d, i) == Slice(c, i); }
    }
  }

  /** The nodes down to i have been counted. */
  lemma LiveNext(t: seq<Node>, i: nat)
    requires i < |t| && DistinctKeys(t) && (forall j :: 0 <= j < |t| && t[j].val != NilVal ==> Proper(t[j].key))
    ensures t[i].val != NilVal ==> LiveKeys(t, i) == LiveKeys(t, i + 1) + {t[i].key} && t[i].key !in LiveKeys(t, i + 1)
    ensures t[i].val == NilVal ==> LiveKeys(t, i) == LiveKeys(t, i + 1)
  {
  }

  lemma IntsNext(s: set<Key>, k: Key)
    ensures IntsOf(s + {k}) == if InArray(k, MAXASIZE) then IntsOf(s) + {k.k} else IntsOf(s)
    ensures InArray(k, MAXASIZE) && k !in s ==> k.k !in IntsOf(s)
  {
    forall x ensures x in IntsOf(s + {k}) <==> x in (if InArray(k, MAXASIZE) then IntsOf(s) + {k.k} else IntsOf(s)) {
      if x in IntsOf(s) { assert IntKey(x) in s; }
      if x in IntsOf(s + {k}) { assert IntKey(x) in s + {k}; }
    }
    if InArray(k, MAXASIZE) && k.k in IntsOf(s) { assert IntKey(k.k) in s; }
  }

  // ---------------------------------------------------------------- what the counts mean

  function ArrayKeys(a: seq<Val>): set<Key> { set i | i in UsedIndices(a) :: IntKey(i) }

  lemma Member<T>(c: set<T>) returns (x: T)
    requires |c| > 0
    ensures x in c
  {
    x :| x in c;
  }

  lemma {:induction false} IntImage(c: set<int>)
    ensures |set i | i in c :: IntKey(i)| == |c|
  {
    if |c| > 0 {
      var x := Member(c);
      IntImage(c - {x});
      assert (set i | i in c :: IntKey(i)) == (set i | i in c - {x} :: IntKey(i)) + {IntKey(x)};
    } else {
      assert c == {};
      assert (set i | i in c :: IntKey(i)) == {};
    }
  }

  /** The keys of the map are those of the array part and those of the live nodes. */
  lemma AllKeysCounted(a: seq<Val>, t: seq<Node>, c: Contents)
    requires Agrees(a, t, c) && FreeEmpty(t)
    ensures c.Keys == ArrayKeys(a) + LiveKeys(t, 0) && ArrayKeys(a) !! LiveKeys(t, 0) && LiveKeys(t, 0) == HashKeys(c, |a|)
    ensures |c.Keys| == |UsedIndices(a)| + |LiveKeys(t, 0)|
  {
    LiveIsHash(a, t, c);
    ArrayIsIndexed(a, t, c);
    IntImage(UsedIndices(a));
    hide Agrees, UsedIndices;
    assert c.Keys == ArrayKeys(a) + HashKeys(c, |a|);
  }

  lemma LiveIsHash(a: seq<Val>, t: seq<Node>, c: Contents)
    requires Agrees(a, t, c) && FreeEmpty(t)
    ensures LiveKeys(t, 0) == HashKeys(c, |a|)
  {
    forall k | k in HashKeys(c, |a|) ensures k in LiveKeys(t, 0) {
      assert Here(t, k);
      var j :| Keyed(t, j) && t[j].key == k;
      assert t[j].key in LiveKeys(t, 0);
    }
    forall k | k in LiveKeys(t, 0) ensures k in HashKeys(c, |a|) {
      var j :| 0 <= j < |t| && t[j].val != NilVal && t[j].key == k;
      LiveHere(a, t, c, j);
    }
  }

  lemma ArrayIsIndexed(a: seq<Val>, t: seq<Node>, c: Contents)
    requires Agrees(a, t, c) && FreeEmpty(t)
    ensures forall k :: k in ArrayKeys(a) <==> k in c && InArray(k, |a|)
  {
    forall k ensures k in ArrayKeys(a) <==> k in c && InArray(k, |a|) {
      if InArray(k, |a|) {
        assert a[k.k - 1] == Lookup(c, IntKey(k.k - 1 + 1));
        assert UsedAt(a, k.k) <==> k in c;
      }
    }
  }

  ghost predicate FreeEmpty(t: seq<Node>) { forall i :: 0 <= i < |t| && t[i].key == NilKey ==> t[i].val == NilVal }

  lemma LiveHere(a: seq<Val>, t: seq<Node>, c: Contents, j: nat)
    requires Agrees(a, t, c) && FreeEmpty(t) && j < |t| && t[j].val != NilVal
    ensures Keyed(t, j) && t[j].key in c && !InArray(t[j].key, |a|)
  {
    assert Keyed(t, j);
  }

  /** The keys that do not fit an array part of size n. */
  function Outside(s: set<Key>, n: nat): set<Key> { set k | k in s && !InArray(k, n) }

  lemma OutsideSize(s: set<Key>, n: nat)
    requires n <= MAXASIZE
    ensures |Outside(s, n)| == |s| - |UpTo(IntsOf(s), n)|
  {
    var ins := set i | i in UpTo(IntsOf(s), n) :: IntKey(i);
    IntImage(UpTo(IntsOf(s), n));
    forall k ensures k in ins <==> k in s && InArray(k, n) {
      if k in s && InArray(k, n) { assert k.k in IntsOf(s); assert k.k in UpTo(IntsOf(s), n); assert IntKey(k.k) in ins; }
      if k in ins {
        var i :| i in UpTo(IntsOf(s), n) && k == IntKey(i);
        var k2 :| k2 in s && InArray(k2, MAXASIZE) && k2.k == i;
        assert k2 == k;
      }
    }
    assert s == Outside(s, n) + ins;
  }

  lemma IntsCandidates(s: set<Key>)
    ensures Candidates(IntsOf(s))
  {
  }
}
