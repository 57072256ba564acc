/** Choosing the size of the array part: the integer keys, counted in slices between powers of two. */
module TableSizes {

  const MAXBITS := 26

  function Two(i: nat): (r: nat)
    ensures r >= 1
  {
    if i == 0 then 1 else 2 * Two(i - 1)
  }

  const MAXASIZE := Two(MAXBITS)

  lemma {:induction false} TwoMono(i: nat, j: nat)
    requires i < j
    ensures 2 * Two(i) <= Two(j)
  {
    if i < j - 1 { TwoMono(i, j - 1); }
  }

  /** ceillog2. */
  function CeilLog2(n: nat): (i: nat)
    requires n > 0
    ensures n <= Two(i) && (i > 0 ==> Two(i - 1) < n)
  {
    CeilFrom(n, 0)
  }

  function CeilFrom(n: nat, i: nat): (r: nat)
    requires n > 0 && (i > 0 ==> Two(i - 1) < n)
    ensures n <= Two(r) && (r > 0 ==> Two(r - 1) < n)
    decreases if n > Two(i) then n - Two(i) else 0
  {
    if n <= Two(i) then i else CeilFrom(n, i + 1)
  }

  predicate InSlice(k: int, i: nat) { Two(i) / 2 < k <= Two(i) }

  lemma SliceOf(k: nat, i: nat)
    requires k > 0
    ensures InSlice(k, i) <==> CeilLog2(k) == i
  {
    var c := CeilLog2(k);
    if c < i { TwoMono(c, i); } else if i < c { TwoMono(i, c); }
  }

  lemma CeilSmall(k: nat)
    requires 0 < k <= MAXASIZE
    ensures CeilLog2(k) <= MAXBITS
  {
    if CeilLog2(k) > MAXBITS && CeilLog2(k) > MAXBITS + 1 { TwoMono(MAXBITS, CeilLog2(k) - 1); }
  }

  function UpTo(c: set<int>, m: int): set<int> { set k | k in c && k <= m }

  function Slice(c: set<int>, i: nat): set<int> { set k | k in c && InSlice(k, i) }

  ghost predicate Candidates(c: set<int>) { forall k :: k in c ==> 1 <= k <= MAXASIZE }

  /** nums has, for each i, how many of the keys are in (2^(i-1), 2^i]. */
  ghost predicate SliceCounts(nums: seq<nat>, c: set<int>) {
    |nums| == MAXBITS + 1 && forall i :: 0 <= i <= MAXBITS ==> nums[i] == |Slice(c, i)|
  }

  lemma UpToSplit(c: set<int>, i: nat)
    requires Candidates(c)
    ensures |UpTo(c, Two(i))| == |UpTo(c, Two(i) / 2)| + |Slice(c, i)|
  {
    assert UpTo(c, Two(i)) == UpTo(c, Two(i) / 2) + Slice(c, i);
    assert UpTo(c, Two(i) / 2) !! Slice(c, i);
  }

  lemma SubsetSize<T>(a: set<T>, b: set<T>)
    requires a <= b
    ensures |a| <= |b| && (|a| == |b| ==> a == b)
  {
    assert |b| == |a| + |b - a| by { assert b == a + (b - a); }
    if |a| == |b| { assert b - a == {}; }
  }

  /** At most m keys are between 1 and m. */
  lemma {:induction false} UpToSize(c: set<int>, m: nat)
    requires Candidates(c)
    ensures |UpTo(c, m)| <= m
  {
    if m == 0 {
      assert UpTo(c, 0) == {};
    } else {
      UpToSize(c, m - 1);
      assert UpTo(c, m) <= UpTo(c, m - 1) + {m};
      SubsetSize(UpTo(c, m), UpTo(c, m - 1) + {m});
    }
  }

  /** More than half of the places 1..2^p are taken. */
  ghost predicate WorthIt(c: set<int>, p: nat) { |UpTo(c, Two(p))| > Two(p) / 2 }

  /** computesizes: the largest power of two with more than half its places taken, and how many. */
  method ComputeSizes(nums: seq<nat>, narray: nat, ghost c: set<int>) returns (na: nat, n: nat)
    requires Candidates(c) && SliceCounts(nums, c) && |c| == narray
    ensures na == |UpTo(c, n)| && n / 2 <= na <= n <= MAXASIZE
    ensures n == 0 || exists p :: 0 <= p <= MAXBITS && n == Two(p) && WorthIt(c, p)
    ensures forall p: nat :: WorthIt(c, p) ==> Two(p) <= n
  {
    hide UpTo, Slice, Two, Candidates, WorthIt;
    var i, twotoi, a := 0, 1, 0;
    na, n := 0, 0;
    SmallFacts(c, narray);
    while twotoi / 2 < narray
      invariant twotoi == Two(i) && a == |UpTo(c, Two(i) / 2)| && na == |UpTo(c, n)| && n / 2 <= na <= n <= MAXASIZE
      invariant n == 0 || exists p :: 0 <= p <= MAXBITS && n == Two(p) && WorthIt(c, p)
      invariant forall p: nat :: p < i && WorthIt(c, p) ==> Two(p) <= n
      decreases MAXBITS + 1 - i
    {
      InRange(c, i, narray);
      UpToSplit(c, i);
      Halves(c, i);
      if nums[i] > 0 {
        a := a + nums[i];
        if a > twotoi / 2 {
          UpToSize(c, twotoi);
          Best(c, i, n);
          n := twotoi;
          na := a;
        } else {
          NotBest(c, i);
        }
      } else {
        EmptySlice(c, i);
      }
      i := i + 1;
      twotoi := twotoi * 2;
      if a == narray { break; }
    }
    if a == narray { AllCounted(c, i); } else { TooFew(c, i, narray); }
    forall p: nat | WorthIt(c, p) ensures Two(p) <= n { if p >= i { NoneBeyond(c, i, p); } }
  }

  lemma SmallFacts(c: set<int>, narray: nat)
    requires Candidates(c) && |c| == narray
    ensures Two(0) == 1 && |UpTo(c, 0)| == 0 && narray <= MAXASIZE
  {
    assert UpTo(c, 0) == {};
    UpToSize(c, MAXASIZE);
    assert UpTo(c, MAXASIZE) == c;
  }

  lemma InRange(c: set<int>, i: nat, narray: nat)
    requires Candidates(c) && |c| == narray && Two(i) / 2 < narray
    ensures i <= MAXBITS && Two(i) <= MAXASIZE
  {
    SmallFacts(c, narray);
    if i > MAXBITS { TwoMono(MAXBITS, i); }
    if i < MAXBITS { TwoMono(i, MAXBITS); }
  }

  lemma Halves(c: set<int>, i: nat)
    ensures Two(i + 1) == 2 * Two(i) && Two(i + 1) / 2 == Two(i)
  {
  }

  lemma Best(c: set<int>, i: nat, n: nat)
    requires |UpTo(c, Two(i))| > Two(i) / 2
    ensures WorthIt(c, i)
    ensures forall p: nat :: p < i ==> Two(p) <= Two(i)
  {
    forall p: nat | p < i ensures Two(p) <= Two(i) { TwoMono(p, i); }
  }

  lemma NotBest(c: set<int>, i: nat)
    requires |UpTo(c, Two(i))| <= Two(i) / 2
    ensures !WorthIt(c, i)
  {
  }

  lemma EmptySlice(c: set<int>, i: nat)
    requires Candidates(c) && |Slice(c, i)| == 0
    ensures !WorthIt(c, i)
  {
    UpToSplit(c, i);
    UpToSize(c, Two(i) / 2);
  }

  /** With all keys counted by 2^(i-1), larger powers are more than half empty. */
  lemma AllCounted(c: set<int>, i: nat)
    requires Candidates(c) && |UpTo(c, Two(i) / 2)| == |c|
    ensures |c| <= Two(i) / 2
  {
    UpToSize(c, Two(i) / 2);
  }

  lemma TooFew(c: set<int>, i: nat, narray: nat)
    requires Two(i) / 2 >= narray && |c| == narray
    ensures |c| <= Two(i) / 2
  {
  }

  lemma NoneBeyond(c: set<int>, i: nat, p: nat)
    requires |c| <= Two(i) / 2 && i <= p
    ensures !WorthIt(c, p)
  {
    SubsetSize(UpTo(c, Two(p)), c);
    if i < p { TwoMono(i, p); }
  }
}
