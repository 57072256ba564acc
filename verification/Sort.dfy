/**
 * table.sort (ltablib.c): quicksort by median of three, recursing on the smaller part and
 * looping on the larger.  Slot i of the array is t[i]; slot 0 is not part of the list.
 */
module Sort {
  import opened Powers

  /** A valid order function: lt is a strict weak order. */
  ghost predicate StrictWeak<T(!new)>(lt: (T, T) -> bool) {
    && (forall x, y :: lt(x, y) ==> !lt(y, x))
    && (forall x, y, z :: !lt(x, y) && !lt(y, z) ==> !lt(x, z))
  }

  ghost predicate Sorted<T>(s: seq<T>, lt: (T, T) -> bool, l: int, u: int)
    requires 0 <= l && u < |s|
  {
    forall x, y :: l <= x < y <= u ==> !lt(s[y], s[x])
  }

  /** t is s with the items of l..u rearranged. */
  ghost predicate Permutes<T>(s: seq<T>, t: seq<T>, l: int, u: int)
    requires 0 <= l <= u + 1 <= |s|
  {
    && |t| == |s|
    && t[..l] == s[..l] && t[u + 1..] == s[u + 1..]
    && multiset(t[l..u + 1]) == multiset(s[l..u + 1])
  }

  /** Every pair of l0..u0 that is not inside l..u is in order. */
  ghost predicate Settled<T>(s: seq<T>, lt: (T, T) -> bool, l0: int, u0: int, l: int, u: int)
    requires 0 <= l0 && u0 < |s|
  {
    forall x, y :: l0 <= x < y <= u0 && (x < l || u < y) ==> !lt(s[y], s[x])
  }

  /** Split at p: nothing before p is above s[p], nothing after it below. */
  ghost predicate Parted<T>(s: seq<T>, lt: (T, T) -> bool, l: int, p: int, u: int)
    requires 0 <= l <= p <= u < |s|
  {
    && (forall x :: l <= x < p ==> !lt(s[p], s[x]))
    && (forall y :: p < y <= u ==> !lt(s[y], s[p]))
  }

  lemma PermutesWider<T>(s: seq<T>, t: seq<T>, j: int, i: int, l: int, u: int)
    requires 0 <= l <= j <= i + 1 <= u + 1 <= |s| && Permutes(s, t, j, i)
    ensures Permutes(s, t, l, u)
  {
    assert s[l..u + 1] == s[l..j] + s[j..i + 1] + s[i + 1..u + 1];
    assert t[l..u + 1] == t[l..j] + t[j..i + 1] + t[i + 1..u + 1];
    assert t[l..j] == t[..j][l..] == s[..j][l..] == s[l..j];
    assert t[i + 1..u + 1] == t[i + 1..][..u - i] == s[i + 1..][..u - i] == s[i + 1..u + 1];
    assert t[..l] == t[..j][..l] == s[..j][..l] == s[..l];
    assert t[u + 1..] == t[i + 1..][u - i..] == s[i + 1..][u - i..] == s[u + 1..];
  }

  /** An item of the rearranged part was an item of that part before. */
  lemma PermutesFrom<T>(s: seq<T>, t: seq<T>, l: int, u: int, y: int) returns (k: int)
    requires 0 <= l <= y <= u < |s| && Permutes(s, t, l, u)
    ensures l <= k <= u && s[k] == t[y]
  {
    var part := s[l..u + 1];
    assert t[y] == t[l..u + 1][y - l];
    assert t[y] in multiset(t[l..u + 1]);
    assert t[y] in part;
    var m :| 0 <= m < |part| && part[m] == t[y];
    k := l + m;
  }

  lemma PermutesOutside<T>(s: seq<T>, t: seq<T>, l: int, u: int, k: int)
    requires 0 <= l <= u + 1 <= |s| && Permutes(s, t, l, u) && 0 <= k < |s| && !(l <= k <= u)
    ensures s[k] == t[k]
  {
    if k < l { assert s[k] == s[..l][k]; } else { assert s[k] == s[u + 1..][k - u - 1]; }
  }

  lemma PermutesSelf<T>(s: seq<T>, l: int, u: int)
    requires 0 <= l <= u + 1 <= |s|
    ensures Permutes(s, s, l, u)
  {
  }

  lemma PermutesTrans<T>(s: seq<T>, t: seq<T>, r: seq<T>, l: int, u: int)
    requires 0 <= l <= u + 1 <= |s| && Permutes(s, t, l, u) && Permutes(t, r, l, u)
    ensures Permutes(s, r, l, u)
  {
  }

  lemma SwapPermutes<T>(s: seq<T>, t: seq<T>, i: int, j: int, l: int, u: int)
    requires 0 <= l <= i <= u < |s| == |t| && l <= j <= u && Permutes(s, t, l, u)
    ensures Permutes(s, t[i := t[j]][j := t[i]], l, u)
  {
    var r := t[i := t[j]][j := t[i]];
    assert r[l..u + 1] == t[l..u + 1][i - l := t[j]][j - l := t[i]];
    assert r[..l] == t[..l] && r[u + 1..] == t[u + 1..];
  }

  /** Rearranging l..u leaves the pairs outside it in order. */
  lemma {:induction false} SettledKept<T(!new)>(s: seq<T>, t: seq<T>, lt: (T, T) -> bool, l0: int, u0: int, l: int, u: int)
    requires 0 <= l0 <= l <= u + 1 <= u0 + 1 <= |s| && Permutes(s, t, l, u)
    requires Settled(s, lt, l0, u0, l, u)
    ensures Settled(t, lt, l0, u0, l, u)
  {
    forall x, y | l0 <= x < y <= u0 && (x < l || u < y) ensures !lt(t[y], t[x]) {
      var x', y' := x, y;
      if l <= x <= u { x' := PermutesFrom(s, t, l, u, x); } else { PermutesOutside(s, t, l, u, x); }
      if l <= y <= u { y' := PermutesFrom(s, t, l, u, y); } else { PermutesOutside(s, t, l, u, y); }
      assert s[x'] == t[x] && s[y'] == t[y];
    }
  }

  lemma Rearranged<T(!new)>(first: seq<T>, s: seq<T>, t: seq<T>, lt: (T, T) -> bool, l0: int, u0: int, l: int, u: int)
    requires 0 <= l0 <= l <= u + 1 <= u0 + 1 <= |first| == |s|
    requires Permutes(first, s, l0, u0) && Permutes(s, t, l, u) && Settled(s, lt, l0, u0, l, u)
    ensures |t| == |s| && Permutes(first, t, l0, u0) && Settled(t, lt, l0, u0, l, u)
  {
    PermutesWider(s, t, l, u, l0, u0);
    PermutesTrans(first, s, t, l0, u0);
    SettledKept(s, t, lt, l0, u0, l, u);
  }

  lemma SettledWhole<T(!new)>(s: seq<T>, lt: (T, T) -> bool, l0: int, u0: int)
    requires 0 <= l0 && u0 < |s|
    ensures Settled(s, lt, l0, u0, l0, u0)
  {
  }

  lemma SettledSorted<T(!new)>(s: seq<T>, lt: (T, T) -> bool, l0: int, u0: int, l: int, u: int)
    requires 0 <= l0 <= l && u <= u0 < |s| && Settled(s, lt, l0, u0, l, u) && Sorted(s, lt, l, u)
    ensures Sorted(s, lt, l0, u0)
  {
  }

  lemma SettledDone<T(!new)>(s: seq<T>, lt: (T, T) -> bool, l0: int, u0: int, l: int, u: int)
    requires 0 <= l0 && u0 < |s| && l >= u && Settled(s, lt, l0, u0, l, u)
    ensures Sorted(s, lt, l0, u0)
  {
  }

  /** Sorting one side of a split part settles that side and the split point. */
  lemma SettledSplit<T(!new)>(s: seq<T>, t: seq<T>, lt: (T, T) -> bool, l0: int, u0: int, l: int, p: int, u: int, left: bool)
    requires StrictWeak(lt)
    requires 0 <= l0 <= l < p < u <= u0 < |s|
    requires Settled(s, lt, l0, u0, l, u) && Parted(s, lt, l, p, u)
    requires if left then Permutes(s, t, l, p - 1) && Sorted(t, lt, l, p - 1)
             else Permutes(s, t, p + 1, u) && Sorted(t, lt, p + 1, u)
    ensures if left then Settled(t, lt, l0, u0, p + 1, u) else Settled(t, lt, l0, u0, l, p - 1)
  {
    var j, i := if left then l else p + 1, if left then p - 1 else u;
    PermutesWider(s, t, j, i, l, u);
    SettledKept(s, t, lt, l0, u0, l, u);
    assert Parted(t, lt, l, p, u) by {
      PermutesOutside(s, t, j, i, p);
      forall x | l <= x < p ensures !lt(t[p], t[x]) {
        if left { var k := PermutesFrom(s, t, j, i, x); } else { PermutesOutside(s, t, j, i, x); }
      }
      forall y | p < y <= u ensures !lt(t[y], t[p]) {
        if left { PermutesOutside(s, t, j, i, y); } else { var k := PermutesFrom(s, t, j, i, y); }
      }
    }
    var l1, u1 := if left then p + 1 else l, if left then u else p - 1;
    forall x, y | l0 <= x < y <= u0 && (x < l1 || u1 < y) ensures !lt(t[y], t[x]) {
      if l <= x && y <= u {
        if x < p && p < y { assert !lt(t[y], t[p]) && !lt(t[p], t[x]); }
      }
    }
  }

  lemma Asymmetric<T(!new)>(lt: (T, T) -> bool)
    requires StrictWeak(lt)
    ensures forall x, y :: lt(x, y) ==> !lt(y, x)
  {
  }

  lemma ThreeSorted<T(!new)>(s: seq<T>, lt: (T, T) -> bool, l: nat)
    requires StrictWeak(lt) && l + 2 < |s| && !lt(s[l + 1], s[l]) && !lt(s[l + 2], s[l + 1])
    ensures Sorted(s, lt, l, l + 2)
  {
    assert !lt(s[l + 2], s[l]);
  }

  /** set2 after pushing both values: t[i] and t[j] change places. */
  method Swap<T>(a: array<T>, i: int, j: int)
    requires 0 <= i < a.Length && 0 <= j < a.Length
    modifies a
    ensures a[..] == old(a[..])[i := old(a[j])][j := old(a[i])]
  {
    a[i], a[j] := a[j], a[i];
  }

  /** Puts t[l], t[(l+u)/2] and t[u] in order; done when there is nothing else between them. */
  method MedianOfThree<T(!new)>(a: array<T>, lt: (T, T) -> bool, l: int, u: int) returns (done: bool, i: int)
    requires StrictWeak(lt) && 0 <= l < u < a.Length
    modifies a
    ensures Permutes(old(a[..]), a[..], l, u)
    ensures done <==> u - l <= 2
    ensures done ==> Sorted(a[..], lt, l, u)
    ensures !done ==> l < i < u - 1 && !lt(a[i], a[l]) && !lt(a[u], a[i])
  {
    hide Permutes, StrictWeak;
    Asymmetric(lt);
    ghost var s := a[..];
    PermutesSelf(s, l, u);
    if lt(a[u], a[l]) { SwapPermutes(s, a[..], l, u, l, u); Swap(a, l, u); }
    done, i := true, l;
    if u - l == 1 { return; }
    i := (l + u) / 2;
    if lt(a[i], a[l]) {
      SwapPermutes(s, a[..], i, l, l, u);
      Swap(a, i, l);
    } else if lt(a[u], a[i]) {
      SwapPermutes(s, a[..], i, u, l, u);
      Swap(a, i, u);
    }
    done := u - l == 2;
    if done { ThreeSorted(a[..], lt, l); }
  }

  /** The repeat ++i until a[i] >= P loop, from i; stop bounds how far it runs. */
  method ScanUp<T>(a: array<T>, lt: (T, T) -> bool, P: T, i0: int, u: int, ghost stop: int) returns (i: int, ok: bool)
    requires 0 <= i0 < stop <= u < a.Length && !lt(a[stop], P)
    ensures ok && i0 < i <= stop && !lt(a[i], P)
    ensures forall k :: i0 < k < i ==> lt(a[k], P)
  {
    i, ok := i0 + 1, true;
    while lt(a[i], P)
      invariant ok && i0 < i <= stop
      invariant forall k :: i0 < k < i ==> lt(a[k], P)
      decreases stop - i
    {
      if i > u { ok := false; }
      i := i + 1;
    }
  }

  /** The repeat --j until a[j] <= P loop, from j. */
  method ScanDown<T>(a: array<T>, lt: (T, T) -> bool, P: T, j0: int, l: int, ghost stop: int) returns (j: int, ok: bool)
    requires 0 <= l <= stop < j0 <= a.Length && !lt(P, a[stop])
    ensures ok && stop <= j < j0 && !lt(P, a[j])
    ensures forall k :: j < k < j0 ==> lt(P, a[k])
  {
    j, ok := j0 - 1, true;
    while lt(P, a[j])
      invariant ok && stop <= j < j0
      invariant forall k :: j < k < j0 ==> lt(P, a[k])
      decreases j - stop
    {
      if j < l { ok := false; }
      j := j - 1;
    }
  }

  /** The state between rounds of the partition: l..i is at most P, j..u at least P. */
  ghost predicate Zones<T>(s: seq<T>, lt: (T, T) -> bool, P: T, l: int, i: int, j: int, u: int) {
    && 0 <= l <= i <= j < u < |s| && i < u - 1 && l < j && s[u - 1] == P
    && (forall k :: l <= k <= i ==> !lt(P, s[k]))
    && (forall k :: j <= k <= u ==> !lt(s[k], P))
  }

  /** What the two scans of a round leave: everything they passed is on its own side. */
  ghost predicate Scanned<T>(s: seq<T>, lt: (T, T) -> bool, P: T, i0: int, j0: int, i: int, j: int) {
    && 0 <= i0 < i < |s| && 0 <= j < j0 <= |s| && !lt(s[i], P) && !lt(P, s[j])
    && (forall k :: i0 < k < i ==> lt(s[k], P))
    && (forall k :: j < k < j0 ==> lt(P, s[k]))
  }

  lemma {:induction false} NextZones<T(!new)>(s: seq<T>, lt: (T, T) -> bool, P: T, l: int, i0: int, j0: int, u: int, i: int, j: int)
    requires StrictWeak(lt) && Zones(s, lt, P, l, i0, j0, u) && Scanned(s, lt, P, i0, j0, i, j)
    requires i <= j && i <= j0 && l <= j
    ensures Zones(s[i := s[j]][j := s[i]], lt, P, l, i, j, u)
  {
    var t := s[i := s[j]][j := s[i]];
    assert forall k :: l <= k < i ==> t[k] == s[k] && !lt(P, s[k]);
    assert forall k :: j < k <= u ==> t[k] == s[k] && !lt(s[k], P);
  }

  lemma {:induction false} LastZones<T(!new)>(s: seq<T>, lt: (T, T) -> bool, P: T, l: int, i0: int, j0: int, u: int, i: int, j: int)
    requires StrictWeak(lt) && Zones(s, lt, P, l, i0, j0, u) && Scanned(s, lt, P, i0, j0, i, j)
    requires j < i < u
    ensures Parted(s[u - 1 := s[i]][i := s[u - 1]], lt, l, i, u)
  {
    var t := s[u - 1 := s[i]][i := s[u - 1]];
    assert forall k :: l <= k < i ==> t[k] == s[k] && !lt(P, s[k]);
    assert forall k :: i <= k <= u ==> !lt(s[k], P);
  }

  lemma FirstZones<T(!new)>(s: seq<T>, lt: (T, T) -> bool, l: int, m: int, u: int)
    requires StrictWeak(lt) && 0 <= l < m < u - 1 && u < |s|
    requires !lt(s[m], s[l]) && !lt(s[u], s[m])
    ensures Zones(s[m := s[u - 1]][u - 1 := s[m]], lt, s[m], l, l, u - 1, u)
  {
  }

  /** The rounds of the partition, and the last exchange that puts P where they met. */
  method PartitionLoop<T(!new)>(a: array<T>, lt: (T, T) -> bool, P: T, l: int, u: int) returns (i: int, ok: bool)
    requires StrictWeak(lt) && u < a.Length && Zones(a[..], lt, P, l, l, u - 1, u)
    modifies a
    ensures ok && l < i < u
    ensures Permutes(old(a[..]), a[..], l, u) && Parted(a[..], lt, l, i, u)
  {
    hide Permutes, Parted, StrictWeak;
    Asymmetric(lt);
    ghost var s := a[..];
    PermutesSelf(s, l, u);
    i := l;
    var j := u - 1;
    ok := true;
    while true
      invariant ok && Zones(a[..], lt, P, l, i, j, u) && Permutes(s, a[..], l, u)
      decreases j - i
    {
      ghost var i0, j0 := i, j;
      var upOk, downOk;
      i, upOk := ScanUp(a, lt, P, i, u, if i < j then j else i + 1);
      j, downOk := ScanDown(a, lt, P, j, l, if i0 < j0 then i - 1 else j0 - 1);
      ok := upOk && downOk;
      assert Scanned(a[..], lt, P, i0, j0, i, j);
      if j < i {
        LastZones(a[..], lt, P, l, i0, j0, u, i, j);
        break;
      }
      NextZones(a[..], lt, P, l, i0, j0, u, i, j);
      SwapPermutes(s, a[..], i, j, l, u);
      Swap(a, i, j);
    }
    SwapPermutes(s, a[..], u - 1, i, l, u);
    Swap(a, u - 1, i);
  }

  /** Partitions l..u around t[m]; p is where that item ends up, inside l..u. */
  method Partition<T(!new)>(a: array<T>, lt: (T, T) -> bool, l: int, m: int, u: int) returns (p: int, ok: bool)
    requires StrictWeak(lt) && 0 <= l < m < u - 1 && u < a.Length
    requires !lt(a[m], a[l]) && !lt(a[u], a[m])
    modifies a
    ensures ok && l < p < u
    ensures Permutes(old(a[..]), a[..], l, u) && Parted(a[..], lt, l, p, u)
  {
    hide Permutes, Parted, Zones, StrictWeak;
    var P := a[m];
    ghost var s := a[..];
    FirstZones(s, lt, l, m, u);
    PermutesSelf(s, l, u);
    SwapPermutes(s, a[..], m, u - 1, l, u);
    Swap(a, m, u - 1);
    ghost var swapped := a[..];
    p, ok := PartitionLoop(a, lt, P, l, u);
    PermutesTrans(s, swapped, a[..], l, u);
  }

  /** A call on the smaller part is on less than half. */
  lemma Deeper(d: nat, part: int, whole: int)
    requires d == 0 || Pow2(d) <= part
    requires 2 * part <= whole && whole >= 2
    ensures Pow2(d + 1) <= whole
  {
  }

  /** auxsort: l0..u0 ends up a sorted rearrangement of itself, "invalid order function" is
      never raised, and depth, the number of calls below this one, is at most log2 of the range. */
  method AuxSort<T(!new)>(a: array<T>, lt: (T, T) -> bool, l0: int, u0: int) returns (ok: bool, ghost depth: nat)
    requires StrictWeak(lt) && 0 <= l0 <= u0 + 1 <= a.Length
    modifies a
    ensures ok
    ensures Permutes(old(a[..]), a[..], l0, u0) && Sorted(a[..], lt, l0, u0)
    ensures depth == 0 || Pow2(depth) <= u0 - l0
    decreases u0 - l0
  {
    hide Permutes, Settled, Parted, Sorted, StrictWeak, Pow2;
    var l, u := l0, u0;
    ok, depth := true, 0;
    ghost var first := a[..];
    PermutesSelf(first, l0, u0);
    SettledWhole(first, lt, l0, u0);
    while l < u
      invariant ok && l0 <= l <= u + 1 <= u0 + 1
      invariant Permutes(first, a[..], l0, u0) && Settled(a[..], lt, l0, u0, l, u)
      invariant depth == 0 || Pow2(depth) <= u0 - l0
      decreases u - l
    {
      ghost var s := a[..];
      var done, m := MedianOfThree(a, lt, l, u);
      Rearranged(first, s, a[..], lt, l0, u0, l, u);
      if done { SettledSorted(a[..], lt, l0, u0, l, u); return; }
      ghost var s1 := a[..];
      var p, partOk := Partition(a, lt, l, m, u);
      Rearranged(first, s1, a[..], lt, l0, u0, l, u);
      ghost var s2 := a[..];
      var j, i;
      ghost var left, lp, up := p - l < u - p, l, u;
      if p - l < u - p { j := l; i := p - 1; l := p + 1; } else { j := p + 1; i := u; u := p - 1; }
      var restOk;
      ghost var d;
      restOk, d := AuxSort(a, lt, j, i);
      ok := partOk && restOk;
      PermutesWider(s2, a[..], j, i, l0, u0);
      PermutesTrans(first, s2, a[..], l0, u0);
      SettledSplit(s2, a[..], lt, l0, u0, lp, p, up, left);
      Deeper(d, i - j, up - lp);
      depth := if d + 1 > depth then d + 1 else depth;
    }
    SettledDone(a[..], lt, l0, u0, l, u);
  }

  /** table.sort(t, lt) on a list of a.Length - 1 items. */
  method SortTable<T(!new)>(a: array<T>, lt: (T, T) -> bool) returns (ok: bool)
    requires StrictWeak(lt) && a.Length > 0
    modifies a
    ensures ok && a[0] == old(a[0])
    ensures multiset(a[1..]) == multiset(old(a[1..]))
    ensures forall x, y :: 1 <= x < y < a.Length ==> !lt(a[y], a[x])
  {
    ghost var s := a[..];
    ghost var depth;
    ok, depth := AuxSort(a, lt, 1, a.Length - 1);
    PermutesOutside(s, a[..], 1, a.Length - 1, 0);
    assert a[1..] == a[..][1..a.Length] && s[1..a.Length] == old(a[1..]);
  }
}
