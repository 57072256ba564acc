/**
 * The string table (lstring.c): buckets of strings linked through next, rehashed in place, with
 * at most one entry for any contents.
 */
module Strings {
  import opened Powers

  /** A string object: its bytes, their hash, and the next entry of its bucket (0 for none). */
  datatype TString = TString(text: seq<bv8>, hash: nat, next: int)

  const MAX_INT: nat := 0x7ffffffd
  const MINSTRTABSIZE: nat := 32

  function Mix(h: bv32, c: bv8): bv32 { h ^ ((h << 5) + (h >> 2) + (c as bv32)) }

  /** A character is mixed into 0 as itself; into other hashes with the hash 32 times, a quarter of it
      and without carry. */
  lemma MixValues(c: bv8)
    ensures Mix(0, c) == c as bv32 && Mix(1, 97) == 128 && Mix(4, 0) == 133
    ensures Mix(0x80000000, 0) == 0xA0000000 && Mix(0xFFFFFFFF, 255) == 0xBFFFFF21
  {
  }

  function MixAll(h: bv32, cs: seq<bv8>): bv32 { if cs == [] then h else Mix(MixAll(h, cs[..|cs| - 1]), cs[|cs| - 1]) }

  function Step(len: nat): nat { len / 32 + 1 }

  /** The characters that count: from the last one down, step apart. */
  function Sampled(s: seq<bv8>): seq<bv8> {
    seq(|s| / Step(|s|), k requires 0 <= k < |s| / Step(|s|) => s[SampleAt(|s|, k)])
  }

  function SampleAt(len: nat, k: nat): (i: nat)
    requires k < len / Step(len)
    ensures i < len
  {
    SampleInside(len, k);
    len - 1 - k * Step(len)
  }

  lemma SampleInside(len: nat, k: nat)
    requires k < len / Step(len)
    ensures (k + 1) * Step(len) <= len && k * Step(len) < len
  {
    MulUp(k + 1, len / Step(len), Step(len));
  }

  lemma MulUp(a: nat, b: nat, c: nat)
    requires a <= b
    ensures a * c <= b * c
  {
  }

  /** The hash mixes the length with the characters that count. */
  function HashOf(s: seq<bv8>): nat
    requires |s| < 0x1_0000_0000
  {
    MixAll(|s| as bv32, Sampled(s)) as nat
  }

  /** The lengths of "a" and "ab" with their characters, the last one first. */
  lemma HashValues()
    ensures MixAll(1, [97]) == 128 && MixAll(2, [98, 97]) == 5161
  {
    assert [97][..0] == [] && [98][..0] == [] && [98, 97][..1] == [98];
    assert MixAll(2, [98]) == Mix(2, 98) == 160;
    assert Mix(160, 97) == 5161 && Mix(1, 97) == 128;
  }

  /** Fewer than 32 characters count, and any other may change. */
  lemma HashSkips(s: seq<bv8>, i: nat, c: bv8)
    requires i < |s| < 0x1_0000_0000 && forall k :: 0 <= k < |s| / Step(|s|) ==> i != SampleAt(|s|, k)
    ensures |Sampled(s)| < 32 && HashOf(s[i := c]) == HashOf(s)
  {
    assert Sampled(s[i := c]) == Sampled(s);
    FewSampled(|s|);
  }

  lemma FewSampled(len: nat)
    ensures len / Step(len) < 32
  {
    var n := len / Step(len);
    if n >= 32 { MulUp(32, n, Step(len)); }
  }

  lemma More(len: nat, k: nat, step: nat)
    requires step == Step(len) && len - k * step >= step && k <= len / step
    ensures k < len / step && len - (k + 1) * step == len - k * step - step
  {
  }

  lemma NoMore(len: nat, k: nat, step: nat)
    requires step == Step(len) && k <= len / step && len - k * step < step
    ensures k == len / step
  {
    if k < len / step { SampleInside(len, k); }
  }

  lemma SampledIs(s: seq<bv8>, k: nat, step: nat)
    requires step == Step(|s|)
    ensures |Sampled(s)| == |s| / step
    ensures k < |s| / step ==> 0 < |s| - k * step && Sampled(s)[k] == s[|s| - k * step - 1] && Sampled(s)[..k + 1] == Sampled(s)[..k] + [Sampled(s)[k]]
  {
    if k < |s| / step { SampleInside(|s|, k); }
  }

  /** Of a short string all characters count. */
  lemma AllSampled(s: seq<bv8>, i: nat)
    requires i < |s| < 32
    ensures |Sampled(s)| == |s| && Sampled(s)[i] == s[|s| - 1 - i]
  {
  }

  ghost predicate IsPow2(n: nat) { exists k: nat :: n == Pow2(k) }

  function After(list: seq<int>, k: nat): int { if k + 1 < |list| then list[k + 1] else 0 }

  /** list is the bucket that starts at head. */
  ghost predicate Linked(nodes: map<int, TString>, head: int, list: seq<int>) {
    && head == (if list == [] then 0 else list[0])
    && (forall k :: 0 <= k < |list| ==>
         list[k] != 0 && list[k] in nodes && nodes[list[k]].next == After(list, k))
    && (forall j, k :: 0 <= j < k < |list| ==> list[j] != list[k])
  }

  /** The same strings, however they are linked. */
  ghost predicate SameStrings(a: map<int, TString>, b: map<int, TString>) {
    a.Keys == b.Keys && forall p :: p in a ==> a[p].text == b[p].text && a[p].hash == b[p].hash
  }

  /** Every string carries its hash, and no two have the same contents. */
  ghost predicate Interned(nodes: map<int, TString>) {
    && (forall p :: p in nodes ==> |nodes[p].text| < 0x1_0000_0000 && nodes[p].hash == HashOf(nodes[p].text))
    && (forall p, q :: p in nodes && q in nodes && nodes[p].text == nodes[q].text ==> p == q)
  }

  ghost predicate KeepsTexts(a: map<int, TString>, b: map<int, TString>) {
    forall q :: q in b ==> q in a && a[q].text == b[q].text
  }

  lemma TextKept(a: map<int, TString>, b: map<int, TString>, q: int)
    requires KeepsTexts(a, b) && q in b
    ensures q in a && a[q].text == b[q].text
  {
  }

  lemma SameInterned(a: map<int, TString>, b: map<int, TString>)
    requires SameStrings(a, b) && Interned(b)
    ensures Interned(a) && |a| == |b|
  {
    hide HashOf;
    assert |a.Keys| == |a| && |b.Keys| == |b|;
  }

  /** The strings of list all hash to bucket i. */
  ghost predicate AllHash(nodes: map<int, TString>, list: seq<int>, size: nat, i: nat)
    requires size > 0
  {
    forall q :: q in list ==> q in nodes && nodes[q].hash % size == i
  }

  lemma {:induction false} Push(nodes: map<int, TString>, head: int, list: seq<int>, p: int)
    requires Linked(nodes, head, list) && p != 0 && p in nodes && p !in list
    ensures Linked(nodes[p := nodes[p].(next := head)], p, [p] + list)
  {
    var nodes', list' := nodes[p := nodes[p].(next := head)], [p] + list;
    forall k | 0 <= k < |list'|
      ensures list'[k] != 0 && list'[k] in nodes' && nodes'[list'[k]].next == After(list', k)
    {
      if k > 0 { assert list'[k] == list[k - 1]; }
    }
  }

  lemma Elsewhere(nodes: map<int, TString>, head: int, list: seq<int>, p: int, x: TString)
    requires Linked(nodes, head, list) && p !in list
    ensures Linked(nodes[p := x], head, list)
  {
  }

  lemma Pop(nodes: map<int, TString>, head: int, list: seq<int>)
    requires Linked(nodes, head, list) && head != 0
    ensures list != [] && head == list[0] && head in nodes && head !in list[1..]
    ensures Linked(nodes, nodes[head].next, list[1..])
  {
    assert list != [];
    assert nodes[list[0]].next == After(list, 0);
    forall k | 0 <= k < |list| - 1
      ensures nodes[list[1..][k]].next == After(list[1..], k)
    {
      assert list[1..][k] == list[k + 1];
    }
  }

  /** Of two powers of two, where an entry of bucket i goes: to i itself or beyond both the
      buckets still to be rehashed, or, when shrinking, to a bucket already done. */
  lemma Moves(h: nat, size: nat, newsize: nat)
    requires IsPow2(size) && IsPow2(newsize)
    ensures size > 0 && newsize > 0
    ensures var i, j := h % size, h % newsize;
      && (size <= newsize ==> j == i || size <= j)
      && (newsize <= size ==> j <= i && (i < newsize ==> j == i))
  {
    var a: nat :| size == Pow2(a);
    var b: nat :| newsize == Pow2(b);
    if size <= newsize {
      Pow2Less(a, b);
      Pow2Divides(a, b);
      ModMod(h, size, Pow2(b - a));
      if h % newsize < size { DivModUnique(h % newsize, size, 0, h % newsize); }
    }
    if newsize <= size {
      Pow2Less(b, a);
      Pow2Divides(b, a);
      ModMod(h, newsize, Pow2(a - b));
      var i := h % size;
      if i < newsize { DivModUnique(i, newsize, 0, i); }
    }
  }

  /** The bucket of a string while the table goes from size to newsize buckets and those below
      done are rehashed. */
  function Home(hash: nat, size: nat, newsize: nat, done: nat): nat
    requires size > 0 && newsize > 0
  {
    if hash % size < done then hash % newsize else hash % size
  }

  /** Every string is in its own bucket and nowhere else, except those still to be moved. */
  ghost predicate Housed(nodes: map<int, TString>, hash: seq<int>, chains: seq<seq<int>>, size: nat, newsize: nat, done: nat,
    rest: seq<int>)
    requires size > 0 && newsize > 0
  {
    && |hash| == |chains|
    && (forall b :: 0 <= b < |chains| ==> Linked(nodes, hash[b], chains[b]))
    && (forall b, p :: 0 <= b < |chains| && p in chains[b] ==>
         p in nodes && p !in rest && Home(nodes[p].hash, size, newsize, done) == b)
    && (forall p :: p in nodes && p !in rest ==>
         var b := Home(nodes[p].hash, size, newsize, done); b < |chains| && p in chains[b])
  }

  lemma MoveEntry(nodes: map<int, TString>, hash: seq<int>, chains: seq<seq<int>>, size: nat, newsize: nat, i: nat,
    rest: seq<int>, h: nat)
    requires size > 0 && newsize > 0 && rest != [] && rest[0] != 0 && Linked(nodes, rest[0], rest) && h < |hash|
    requires Housed(nodes, hash, chains, size, newsize, i + 1, rest)
    requires AllHash(nodes, rest, size, i)
    requires h == nodes[rest[0]].hash % newsize
    ensures var p := rest[0];
      var nodes' := nodes[p := nodes[p].(next := hash[h])];
      && Housed(nodes', hash[h := p], chains[h := [p] + chains[h]], size, newsize, i + 1, rest[1..])
      && Linked(nodes', nodes[p].next, rest[1..]) && AllHash(nodes', rest[1..], size, i)
  {
    hide Linked, Home;
    var p := rest[0];
    var x := nodes[p].(next := hash[h]);
    Pop(nodes, p, rest);
    Elsewhere(nodes, nodes[p].next, rest[1..], p, x);
    HomeDone(nodes[p].hash, size, newsize, i);
    assert forall q :: q in rest <==> q == p || q in rest[1..];
    var hash', chains' := hash[h := p], chains[h := [p] + chains[h]];
    forall b | 0 <= b < |chains'| ensures Linked(nodes[p := x], hash'[b], chains'[b]) {
      if b == h { Push(nodes, hash[h], chains[h], p); } else { Elsewhere(nodes, hash[b], chains[b], p, x); }
    }
  }

  lemma HomeDone(h: nat, size: nat, newsize: nat, i: nat)
    requires size > 0 && newsize > 0 && h % size <= i
    ensures Home(h, size, newsize, i + 1) == h % newsize
  {
  }

  /** No bucket before i sends anything to i. */
  lemma NotInto(size: nat, newsize: nat, i: nat)
    requires IsPow2(size) && IsPow2(newsize) && size > 0 && newsize > 0 && i < size
    ensures forall h: nat {:trigger h % newsize} :: h % size < i ==> h % newsize != i
  {
    forall h: nat {:trigger h % newsize} | h % size < i ensures h % newsize != i {
      Moves(h, size, newsize);
    }
  }

  lemma Same(nodes: map<int, TString>)
    ensures SameStrings(nodes, nodes)
  {
  }

  lemma Relinked(first: map<int, TString>, nodes: map<int, TString>, p: int, next: int)
    requires SameStrings(nodes, first) && p in nodes
    ensures SameStrings(nodes[p := nodes[p].(next := next)], first)
  {
  }

  lemma AtEnd(nodes: map<int, TString>, rest: seq<int>)
    requires Linked(nodes, 0, rest)
    ensures rest == []
  {
  }

  /** Bucket i taken off to be rehashed. */
  lemma TakeBucket(nodes: map<int, TString>, hash: seq<int>, chains: seq<seq<int>>, size: nat, newsize: nat, i: nat)
    requires size > 0 && newsize > 0 && i < size <= |hash|
    requires Housed(nodes, hash, chains, size, newsize, i, [])
    requires forall h: nat {:trigger h % newsize} :: h % size < i ==> h % newsize != i
    ensures |chains| == |hash|
    ensures var rest := chains[i];
      && Linked(nodes, hash[i], rest)
      && AllHash(nodes, rest, size, i)
      && Housed(nodes, hash[i := 0], chains[i := []], size, newsize, i + 1, rest)
  {
  }

  /** Before the first turn nothing is rehashed; new buckets are empty. */
  lemma StartHoused(nodes: map<int, TString>, hash: seq<int>, chains: seq<seq<int>>, size: nat, newsize: nat, more: nat)
    requires size > 0 && newsize > 0 && |hash| == size && Housed(nodes, hash, chains, size, size, 0, [])
    ensures Housed(nodes, hash + seq(more, _ => 0), chains + seq(more, _ => []), size, newsize, 0, [])
  {
    var hash', chains' := hash + seq(more, _ => 0), chains + seq(more, _ => []);
    forall b | 0 <= b < |chains'| ensures Linked(nodes, hash'[b], chains'[b]) {
      if b < size { assert Linked(nodes, hash[b], chains[b]); }
    }
  }

  /** After the last turn every string is in its new bucket; the old ones beyond are empty. */
  lemma EndHoused(nodes: map<int, TString>, hash: seq<int>, chains: seq<seq<int>>, size: nat, newsize: nat)
    requires size > 0 && newsize > 0 && newsize <= |hash| && Housed(nodes, hash, chains, size, newsize, size, [])
    ensures |chains| == |hash|
    ensures Housed(nodes, hash[..newsize], chains[..newsize], newsize, newsize, 0, [])
  {
  }

  /** Some entry has these contents. */
  ghost predicate Holds(nodes: map<int, TString>, str: seq<bv8>) {
    exists p :: p in nodes && nodes[p].text == str
  }

  lemma TwicePow2(n: nat)
    requires IsPow2(n)
    ensures IsPow2(n * 2) && n * 2 > 0
  {
    var k: nat :| n == Pow2(k);
    assert n * 2 == Pow2(k + 1);
  }

  lemma HalfPow2(n: nat)
    requires IsPow2(n) && n > 1
    ensures IsPow2(n / 2) && n / 2 > 0
  {
    var k: nat :| n == Pow2(k);
    assert n / 2 == Pow2(k - 1);
  }

  lemma KeepsSelf(nodes: map<int, TString>)
    ensures KeepsTexts(nodes, nodes)
  {
  }

  lemma BucketHead(nodes: map<int, TString>, head: int, list: seq<int>)
    requires Linked(nodes, head, list)
    ensures head == if list == [] then 0 else list[0]
  {
  }

  lemma NextEntry(c: seq<int>, i: nat, all: seq<int>, j: nat)
    requires i < |c| && j < |all| && c[i..] == all[j..]
    ensures After(c, i) == (if j + 1 < |all| then all[j + 1] else 0) && c[i] == all[j] && c[i + 1..] == all[j + 1..]
    ensures (c[..i] + c[i + 1..])[i..] == all[j + 1..]
  {
    assert c[i] == c[i..][0] && all[j] == all[j..][0];
    assert c[i + 1..] == c[i..][1..] && all[j + 1..] == all[j..][1..];
    if i + 1 < |c| { assert c[i + 1] == c[i..][1] == all[j..][1] == all[j + 1]; }
  }

  /** A null link ends the bucket. */
  lemma EndOf(all: seq<int>, j: nat, nodes: map<int, TString>, head: int)
    requires Linked(nodes, head, all) && j <= |all| && (j < |all| ==> all[j] == 0)
    ensures all[..j] == all
  {
    assert j == |all|;
  }

  lemma InBucket(nodes: map<int, TString>, hash: seq<int>, chains: seq<seq<int>>, size: nat, b: nat)
    requires size > 0 && |hash| == size && b < size && Housed(nodes, hash, chains, size, size, 0, [])
    ensures |chains| == size && Linked(nodes, hash[b], chains[b])
  {
  }

  /** Contents not in their bucket are not in the table. */
  lemma {:induction false} NotThere(nodes: map<int, TString>, hash: seq<int>, chains: seq<seq<int>>, size: nat, str: seq<bv8>)
    requires size > 0 && |hash| == size && |chains| == size && |str| < 0x1_0000_0000
    requires Housed(nodes, hash, chains, size, size, 0, []) && Interned(nodes)
    requires forall p :: p in chains[HashOf(str) % size] ==> p in nodes && nodes[p].text != str
    ensures !Holds(nodes, str)
  {
    hide HashOf, Linked;
    forall p | p in nodes ensures nodes[p].text != str {
      assert p in chains[nodes[p].hash % size];
    }
  }

  lemma {:induction false} AddEntry(nodes: map<int, TString>, hash: seq<int>, chains: seq<seq<int>>, size: nat, x: TString, p: int)
    requires size > 0 && |hash| == size && Housed(nodes, hash, chains, size, size, 0, []) && Interned(nodes)
    requires |x.text| < 0x1_0000_0000 && x.hash == HashOf(x.text) && p != 0 && p !in nodes && !Holds(nodes, x.text)
    ensures var b := x.hash % size;
      var nodes' := nodes[p := x.(next := hash[b])];
      && |chains| == size && |nodes'| == |nodes| + 1 && Interned(nodes')
      && Housed(nodes', hash[b := p], chains[b := [p] + chains[b]], size, size, 0, [])
  {
    hide HashOf, Linked, Interned, Home;
    var b := x.hash % size;
    var y := x.(next := hash[b]);
    var nodes' := nodes[p := y];
    AddInterned(nodes, y, p);
    HomeIs(size);
    var hash', chains' := hash[b := p], chains[b := [p] + chains[b]];
    assert forall c :: 0 <= c < size ==> p !in chains[c];
    forall c | 0 <= c < size ensures Linked(nodes', hash'[c], chains'[c]) {
      Elsewhere(nodes, hash[c], chains[c], p, y);
      if c == b {
        Push(nodes', hash[c], chains[c], p);
        assert nodes'[p := nodes'[p].(next := hash[c])] == nodes';
      }
    }
  }

  lemma HomeIs(size: nat)
    requires size > 0
    ensures forall h: nat :: Home(h, size, size, 0) == h % size
  {
  }

  lemma AddInterned(nodes: map<int, TString>, x: TString, p: int)
    requires Interned(nodes) && p !in nodes && !Holds(nodes, x.text)
    requires |x.text| < 0x1_0000_0000 && x.hash == HashOf(x.text)
    ensures Interned(nodes[p := x]) && |nodes[p := x]| == |nodes| + 1
  {
    hide HashOf;
    assert nodes[p := x].Keys == nodes.Keys + {p};
    assert |nodes[p := x].Keys| == |nodes.Keys| + 1;
  }

  /** nodes' is nodes with entry i of list bypassed. */
  ghost predicate Bypassed(nodes: map<int, TString>, nodes': map<int, TString>, list: seq<int>, i: nat)
    requires i < |list| && list[i] in nodes
  {
    forall q :: q in list && q != list[i] ==>
      && q in nodes && q in nodes'
      && nodes'[q].next == if i > 0 && q == list[i - 1] then nodes[list[i]].next else nodes[q].next
  }

  lemma UnlinkAt(nodes: map<int, TString>, nodes': map<int, TString>, head: int, list: seq<int>, i: nat, k: nat)
    requires Linked(nodes, head, list) && i < |list| && list[i] in nodes && Bypassed(nodes, nodes', list, i) && k + 1 < |list|
    ensures var list' := list[..i] + list[i + 1..];
      list'[k] == list[if k < i then k else k + 1] && list'[k] != 0 && list'[k] in nodes' && nodes'[list'[k]].next == After(list', k)
  {
    hide Linked;
    var j := if k < i then k else k + 1;
    EntryAt(nodes, head, list, j);
    EntryAt(nodes, head, list, i);
    assert list[j] != list[i] && (i > 0 && j != i - 1 ==> list[j] != list[i - 1]);
  }

  /** A bucket with entry i taken out. */
  lemma {:induction false} Unlink(nodes: map<int, TString>, nodes': map<int, TString>, head: int, list: seq<int>, i: nat)
    requires Linked(nodes, head, list) && i < |list| && list[i] in nodes && Bypassed(nodes, nodes', list, i)
    ensures Linked(nodes', if i > 0 then head else nodes[list[i]].next, list[..i] + list[i + 1..])
  {
    hide Linked, After, Bypassed;
    BucketHead(nodes, head, list);
    var list' := list[..i] + list[i + 1..];
    EntryAt(nodes, head, list, i);
    AfterIs(list, i);
    forall k | 0 <= k < |list'|
      ensures list'[k] == list[if k < i then k else k + 1] && list'[k] != 0 && list'[k] in nodes' && nodes'[list'[k]].next == After(list', k)
    {
      UnlinkAt(nodes, nodes', head, list, i, k);
    }
    IsLinked(nodes', if i > 0 then head else nodes[list[i]].next, list');
  }

  lemma AfterIs(list: seq<int>, i: nat)
    requires i < |list|
    ensures After(list, i) == var rest := list[i + 1..]; if rest == [] then 0 else rest[0]
  {
  }

  lemma IsLinked(nodes: map<int, TString>, head: int, list: seq<int>)
    requires head == if list == [] then 0 else list[0]
    requires forall k :: 0 <= k < |list| ==> list[k] != 0 && list[k] in nodes && nodes[list[k]].next == After(list, k)
    requires forall j, k :: 0 <= j < k < |list| ==> list[j] != list[k]
    ensures Linked(nodes, head, list)
  {
  }

  /** The nodes with entry i of list bypassed and freed. */
  function Dropped(nodes: map<int, TString>, list: seq<int>, i: nat): map<int, TString>
    requires i < |list| && list[i] in nodes && (i > 0 ==> list[i - 1] in nodes)
  {
    var next := nodes[list[i]].next;
    (if i > 0 then nodes[list[i - 1] := nodes[list[i - 1]].(next := next)] else nodes) - {list[i]}
  }

  /** The table with entry i of bucket b taken out. */
  lemma {:induction false} DropEntry(nodes: map<int, TString>, hash: seq<int>, chains: seq<seq<int>>, size: nat, b: nat, i: nat)
    requires size > 0 && |hash| == size && b < size && Housed(nodes, hash, chains, size, size, 0, []) && Interned(nodes)
    requires |chains| == size && i < |chains[b]|
    ensures var c := chains[b];
      && c[i] in nodes && (i > 0 ==> c[i - 1] in nodes && c[i - 1] != c[i])
      && var nodes', hash' := Dropped(nodes, c, i), if i > 0 then hash else hash[b := nodes[c[i]].next];
         && nodes'.Keys == nodes.Keys - {c[i]} && |nodes'| == |nodes| - 1 && Interned(nodes') && KeepsTexts(nodes, nodes')
         && Housed(nodes', hash', chains[b := c[..i] + c[i + 1..]], size, size, 0, [])
  {
    hide HashOf, Linked, Interned, Home, KeepsTexts, Housed;
    InBucket(nodes, hash, chains, size, b);
    var c := chains[b];
    EntryAt(nodes, hash[b], c, i);
    DropInterned(nodes, c, i);
    DropHoused(nodes, hash, chains, size, b, i);
  }

  lemma {:induction false} DropHoused(nodes: map<int, TString>, hash: seq<int>, chains: seq<seq<int>>, size: nat, b: nat, i: nat)
    requires size > 0 && |hash| == size && b < size && Housed(nodes, hash, chains, size, size, 0, [])
    requires |chains| == size && i < |chains[b]| && chains[b][i] in nodes
    requires i > 0 ==> chains[b][i - 1] in nodes && chains[b][i - 1] != chains[b][i]
    ensures var c := chains[b];
      var hash' := if i > 0 then hash else hash[b := nodes[c[i]].next];
      Housed(Dropped(nodes, c, i), hash', chains[b := c[..i] + c[i + 1..]], size, size, 0, [])
  {
    hide HashOf, Linked, Home, Dropped;
    HomeIs(size);
    var c := chains[b];
    var nodes', hash' := Dropped(nodes, c, i), if i > 0 then hash else hash[b := nodes[c[i]].next];
    var c' := c[..i] + c[i + 1..];
    EntryAt(nodes, hash[b], c, i);
    DroppedIs(nodes, c, i);
    forall q ensures q in c' <==> q in c && q != c[i] { Without(c, i, q); }
    forall a | 0 <= a < size ensures Linked(nodes', hash'[a], chains[b := c'][a]) {
      if a == b {
        Unlink(nodes, nodes', hash[b], c, i);
      } else {
        assert c[i] !in chains[a] && (i > 0 ==> c[i - 1] !in chains[a]);
        Untouched(nodes, nodes', hash[a], chains[a]);
      }
    }
  }

  lemma DroppedIs(nodes: map<int, TString>, list: seq<int>, i: nat)
    requires i < |list| && list[i] in nodes && (i > 0 ==> list[i - 1] in nodes && list[i - 1] != list[i])
    requires forall q :: q in list ==> q in nodes
    ensures var nodes' := Dropped(nodes, list, i);
      && nodes'.Keys == nodes.Keys - {list[i]} && Bypassed(nodes, nodes', list, i)
      && (forall q :: q in nodes' ==> nodes'[q].hash == nodes[q].hash && (i == 0 || q != list[i - 1] ==> nodes'[q] == nodes[q]))
  {
  }

  lemma Untouched(nodes: map<int, TString>, nodes': map<int, TString>, head: int, list: seq<int>)
    requires Linked(nodes, head, list) && forall q :: q in list && q in nodes ==> q in nodes' && nodes'[q] == nodes[q]
    ensures Linked(nodes', head, list)
  {
  }

  lemma Without(c: seq<int>, i: nat, q: int)
    requires i < |c| && forall j, k :: 0 <= j < k < |c| ==> c[j] != c[k]
    ensures q in c[..i] + c[i + 1..] <==> q in c && q != c[i]
  {
    if q in c && q != c[i] {
      var m :| 0 <= m < |c| && c[m] == q;
      if m < i { assert c[..i][m] == q; } else { assert c[i + 1..][m - i - 1] == q; }
    }
  }

  lemma EntryAt(nodes: map<int, TString>, head: int, list: seq<int>, i: nat)
    requires Linked(nodes, head, list) && i < |list|
    ensures list[i] in nodes && list[i] != 0 && nodes[list[i]].next == After(list, i)
    ensures i > 0 ==> list[i - 1] in nodes && list[i - 1] != 0 && list[i - 1] != list[i]
    ensures forall j, k :: 0 <= j < k < |list| ==> list[j] != list[k]
  {
  }

  lemma DropInterned(nodes: map<int, TString>, list: seq<int>, i: nat)
    requires Interned(nodes) && i < |list| && list[i] in nodes && (i > 0 ==> list[i - 1] in nodes && list[i - 1] != list[i])
    ensures var nodes' := Dropped(nodes, list, i);
      && Interned(nodes') && KeepsTexts(nodes, nodes')
      && nodes'.Keys == nodes.Keys - {list[i]} && |nodes'| == |nodes| - 1
  {
    hide HashOf;
    var nodes' := Dropped(nodes, list, i);
    assert nodes'.Keys == nodes.Keys - {list[i]};
    assert |nodes'.Keys| == |nodes.Keys| - 1;
  }

  lemma KeepsTwice(a: map<int, TString>, b: map<int, TString>, c: map<int, TString>)
    requires KeepsTexts(a, b) && KeepsTexts(b, c)
    ensures KeepsTexts(a, c)
  {
    forall q | q in c ensures q in a && a[q].text == c[q].text { TextKept(b, c, q); TextKept(a, b, q); }
  }

  /** The dead entries among the first j of a bucket. */
  function Gone(list: seq<int>, dead: set<int>): set<int> { set p | p in list && p in dead }

  lemma NoneGone(keys: set<int>, all: seq<int>, dead: set<int>)
    ensures keys - Gone(all[..0], dead) == keys
  {
  }

  lemma GoneNext(keys: set<int>, all: seq<int>, j: nat, dead: set<int>)
    requires j < |all|
    ensures keys - Gone(all[..j + 1], dead) == (keys - Gone(all[..j], dead)) - if all[j] in dead then {all[j]} else {}
  {
    assert all[..j + 1] == all[..j] + [all[j]];
  }

  lemma SweptAll(nodes: map<int, TString>, hash: seq<int>, chains: seq<seq<int>>, size: nat, b: nat, dead: set<int>, keys: set<int>)
    requires size > 0 && |hash| == size && |chains| == size && b < size && Housed(nodes, hash, chains, size, size, 0, [])
    requires keys == nodes.Keys - Gone(chains[b], dead)
    ensures forall p :: p in keys <==> p in nodes && !(nodes[p].hash % size == b && p in dead)
  {
    hide Housed;
    forall p ensures p in chains[b] <==> p in nodes && nodes[p].hash % size == b { InHome(nodes, hash, chains, size, b, p); }
  }

  lemma InHome(nodes: map<int, TString>, hash: seq<int>, chains: seq<seq<int>>, size: nat, b: nat, p: int)
    requires size > 0 && |hash| == size && |chains| == size && b < size && Housed(nodes, hash, chains, size, size, 0, [])
    ensures p in chains[b] <==> p in nodes && nodes[p].hash % size == b
  {
    hide Linked;
  }

  /** Calls on the string table: interning, the sweep of a bucket in which these objects are dead,
      and checkSizes. */
  datatype Call =
    | Intern(str: seq<bv8>, blocked: bool)
    | SweepString(bucket: nat, dead: set<int>)
    | Check(blocked: bool)

  /** What the allocator gives in the i-th call when these addresses are in use: one that is not. */
  type Malloc = (set<int>, nat) -> int

  ghost predicate Allocates(malloc: Malloc) { forall used: set<int>, i: nat :: malloc(used, i) != 0 && malloc(used, i) !in used }

  predicate Kills(call: Call, p: int) { call.SweepString? && p in call.dead }

  /** p, returned by the interning call k, is not swept in the calls after it. */
  predicate Lives(calls: seq<Call>, p: int, k: nat)
    requires k < |calls|
  {
    calls[k].Intern? && forall j :: k < j < |calls| ==> !Kills(calls[j], p)
  }

  lemma LivesBefore(calls: seq<Call>, p: int, k: nat, i: nat)
    requires k < i < |calls| && Lives(calls[..i + 1], p, k)
    ensures Lives(calls[..i], p, k) && !Kills(calls[i], p)
  {
    assert calls[..i + 1][i] == calls[i];
    forall j | k < j < i ensures !Kills(calls[..i][j], p) { assert calls[..i + 1][j] == calls[..i][j]; }
  }

  class StringTable {
    /** The bucket heads. */
    var hash: seq<int>
    var nodes: map<int, TString>
    var size: nat
    var nuse: nat
    ghost var chains: seq<seq<int>>

    ghost predicate Valid()
      reads this
    {
      && IsPow2(size) && size > 0 && |hash| == size
      && Housed(nodes, hash, chains, size, size, 0, [])
      && Interned(nodes) && nuse == |nodes|
    }

    /** An empty table; lstate.c makes it with MINSTRTABSIZE buckets. */
    constructor (size: nat)
      requires IsPow2(size) && size > 0
      ensures Valid() && this.size == size && nodes == map[]
    {
      hash, nodes, chains := seq(size, _ => 0), map[], seq(size, _ => []);
      this.size, nuse := size, 0;
    }

    /** luaS_resize; blocked is the collector sweeping the table, or a resize under way. */
    method Resize(newsize: nat, blocked: bool)
      requires Valid() && IsPow2(newsize) && newsize > 0
      modifies this
      ensures Valid() && SameStrings(nodes, old(nodes)) && nuse == old(nuse)
      ensures size == if blocked then old(size) else newsize
    {
      hide Housed, IsPow2, Interned;
      if blocked || newsize == size { return; }
      ghost var first, big := nodes, if newsize > size then newsize else size;
      StartHoused(nodes, hash, chains, size, newsize, big - size);
      if newsize > size {
        hash := hash + seq(newsize - size, _ => 0);
        chains := chains + seq(newsize - size, _ => []);
      }
      assert newsize < size ==> hash + seq(0, _ => 0) == hash && chains + seq(0, _ => []) == chains;
      var i := 0;
      while i < size
        invariant i <= size == old(size) && nuse == old(nuse) && |hash| == big && SameStrings(nodes, first)
        invariant Housed(nodes, hash, chains, size, newsize, i, [])
      {
        RehashBucket(i, newsize);
        i := i + 1;
      }
      EndHoused(nodes, hash, chains, size, newsize);
      SameInterned(nodes, first);
      assert newsize > size ==> hash[..newsize] == hash && chains[..newsize] == chains;
      if newsize < size { hash, chains := hash[..newsize], chains[..newsize]; }
      size := newsize;
    }

    /** One turn of the rehash loop: the entries of bucket i go to their new buckets. */
    method RehashBucket(i: nat, newsize: nat)
      requires IsPow2(size) && IsPow2(newsize) && size > 0 && newsize > 0 && i < size
      requires |hash| == if newsize > size then newsize else size
      requires Housed(nodes, hash, chains, size, newsize, i, [])
      modifies this`hash, this`nodes, this`chains
      ensures |hash| == old(|hash|) && SameStrings(nodes, old(nodes))
      ensures Housed(nodes, hash, chains, size, newsize, i + 1, [])
    {
      hide Housed, Linked, IsPow2, AllHash, SameStrings;
      NotInto(size, newsize, i);
      TakeBucket(nodes, hash, chains, size, newsize, i);
      var p := hash[i];
      ghost var rest := chains[i];
      Same(nodes);
      hash := hash[i := 0];
      chains := chains[i := []];
      while p != 0
        invariant |hash| == |chains| == old(|hash|) && SameStrings(nodes, old(nodes)) && Linked(nodes, p, rest)
        invariant AllHash(nodes, rest, size, i)
        invariant Housed(nodes, hash, chains, size, newsize, i + 1, rest)
        decreases |rest|
      {
        Pop(nodes, p, rest);
        var next := nodes[p].next;
        var h1 := nodes[p].hash % newsize;
        Moves(nodes[p].hash, size, newsize);
        MoveEntry(nodes, hash, chains, size, newsize, i, rest, h1);
        Relinked(old(nodes), nodes, p, hash[h1]);
        nodes := nodes[p := nodes[p].(next := hash[h1])];
        hash := hash[h1 := p];
        chains := chains[h1 := [p] + chains[h1]];
        rest := rest[1..];
        p := next;
      }
      AtEnd(nodes, rest);
    }

    /** luaS_newlstr: the one string with these contents, made at addr when there is none. */
    method Intern(str: seq<bv8>, addr: int, blocked: bool) returns (p: int)
      requires Valid() && |str| < 0x1_0000_0000 && addr != 0 && addr !in nodes
      modifies this
      ensures Valid() && p in nodes && nodes[p].text == str
      ensures Holds(old(nodes), str) ==> nodes == old(nodes)
      ensures !Holds(old(nodes), str) ==> p == addr && nodes.Keys == old(nodes).Keys + {addr}
      ensures KeepsTexts(nodes, old(nodes))
    {
      hide IsPow2, Housed, Interned, HashOf;
      var h := HashText(str);
      InBucket(nodes, hash, chains, size, h % size);
      ghost var list := chains[h % size];
      var o := hash[h % size];
      ghost var k := 0;
      while o != 0
        invariant 0 <= k <= |list| && o == (if k < |list| then list[k] else 0)
        invariant forall j :: 0 <= j < k ==> nodes[list[j]].text != str
        decreases |list| - k
      {
        assert o == list[k] && nodes[list[k]].next == After(list, k);
        if nodes[o].text == str { return o; }
        o := nodes[o].next;
        k := k + 1;
      }
      NotThere(nodes, hash, chains, size, str);
      p := NewString(str, h, addr, blocked);
    }

    /** luaS_newlstr_helper's hash loop. */
    method HashText(str: seq<bv8>) returns (r: nat)
      requires |str| < 0x1_0000_0000
      ensures r == HashOf(str)
    {
      hide Mix, Sampled;
      var h: bv32 := |str| as bv32;
      var step := |str| / 32 + 1;
      var l1 := |str|;
      ghost var k := 0;
      SampledIs(str, 0, step);
      while l1 >= step
        invariant 0 <= k <= |str| / step == |Sampled(str)| && l1 == |str| - k * step && h == MixAll(|str| as bv32, Sampled(str)[..k])
        decreases l1
      {
        More(|str|, k, step);
        SampledIs(str, k, step);
        h := Mix(h, str[l1 - 1]);
        l1 := l1 - step;
        k := k + 1;
      }
      NoMore(|str|, k, step);
      assert Sampled(str)[..k] == Sampled(str);
      r := h as nat;
    }

    /** newlstr: a new entry at the head of its bucket, in a table made larger when crowded. */
    method NewString(str: seq<bv8>, h: nat, addr: int, blocked: bool) returns (p: int)
      requires Valid() && |str| < 0x1_0000_0000 && h == HashOf(str) && addr != 0 && addr !in nodes
      requires !Holds(nodes, str)
      modifies this
      ensures Valid() && p == addr && nodes.Keys == old(nodes).Keys + {addr} && nodes[p].text == str
      ensures KeepsTexts(nodes, old(nodes))
      ensures size == if !blocked && old(nuse) >= old(size) && old(size) <= 0x3ffffffe then 2 * old(size) else old(size)
      ensures nuse == old(nuse) + 1 && nodes[p].hash == h && hash[h % size] == p
    {
      hide IsPow2, Housed, Interned, HashOf;
      if nuse + 1 > size && size <= MAX_INT / 2 {
        TwicePow2(size);
        Resize(size * 2, blocked);
      }
      AddEntry(nodes, hash, chains, size, TString(str, h, 0), addr);
      var b := h % size;
      nodes := nodes[addr := TString(str, h, hash[b])];
      hash := hash[b := addr];
      chains := chains[b := [addr] + chains[b]];
      nuse := nuse + 1;
      p := addr;
    }

    /** sweepwholelist on a bucket: its dead entries are unlinked and freed, the rest stay. */
    method SweepBucket(b: nat, dead: set<int>)
      requires Valid() && b < size
      modifies this
      ensures Valid() && size == old(size) && KeepsTexts(old(nodes), nodes)
      ensures forall p :: p in nodes <==> p in old(nodes) && !(old(nodes)[p].hash % size == b && p in dead)
    {
      hide IsPow2, Housed, Interned, HashOf, Linked, KeepsTexts, After, Gone;
      InBucket(nodes, hash, chains, size, b);
      ghost var all, i, j: nat := chains[b], 0, 0;
      KeepsSelf(nodes);
      NoneGone(nodes.Keys, all, dead);
      BucketHead(nodes, hash[b], all);
      var p, prev := hash[b], 0;
      while p != 0
        invariant i <= j <= |all| && Valid() && size == old(size) && b < |chains|
        invariant |chains[b]| == i + |all| - j && chains[b][i..] == all[j..]
        invariant p == (if j < |all| then all[j] else 0) && prev == (if i > 0 then chains[b][i - 1] else 0)
        invariant nodes.Keys == old(nodes).Keys - Gone(all[..j], dead) && KeepsTexts(old(nodes), nodes)
        decreases |all| - j
      {
        ghost var c, before := chains[b], nodes;
        InBucket(nodes, hash, chains, size, b);
        EntryAt(nodes, hash[b], c, i);
        NextEntry(c, i, all, j);
        var next := nodes[p].next;
        GoneNext(old(nodes).Keys, all, j, dead);
        if p !in dead {
          prev, i := p, i + 1;
        } else {
          FreeEntry(b, prev, p, i);
          KeepsTwice(old(nodes), before, nodes);
        }
        p, j := next, j + 1;
      }
      assert all[..j] == all by { EndOf(all, j, old(nodes), old(hash)[b]); }
      SweptAll(old(nodes), old(hash), old(chains), size, b, dead, nodes.Keys);
    }

    /** The else branch of sweeplist on bucket b: the entry behind prev is unlinked and freed. */
    method FreeEntry(b: nat, prev: int, p: int, ghost i: nat)
      requires Valid() && b < size && |chains| == size && i < |chains[b]| && chains[b][i] == p
      requires prev == if i > 0 then chains[b][i - 1] else 0
      modifies this
      ensures Valid() && size == old(size) && |chains| == size
      ensures chains[b] == old(chains[b][..i]) + old(chains[b][i + 1..])
      ensures nodes.Keys == old(nodes).Keys - {p} && KeepsTexts(old(nodes), nodes)
    {
      hide IsPow2, Housed, Interned, HashOf, Linked, KeepsTexts;
      InBucket(nodes, hash, chains, size, b);
      EntryAt(nodes, hash[b], chains[b], i);
      DropEntry(nodes, hash, chains, size, b, i);
      ghost var c := chains[b];
      var next := nodes[p].next;
      if prev == 0 { hash := hash[b := next]; } else { nodes := nodes[prev := nodes[prev].(next := next)]; }
      nodes := nodes - {p};
      chains := chains[b := c[..i] + c[i + 1..]];
      nuse := nuse - 1;
    }

    /** checkSizes: a sparse table is halved. */
    method CheckSizes(blocked: bool)
      requires Valid()
      modifies this
      ensures Valid() && SameStrings(nodes, old(nodes)) && nuse == old(nuse)
      ensures size == if !blocked && old(nuse) < old(size) / 4 && old(size) > 64 then old(size) / 2 else old(size)
    {
      hide IsPow2, Housed, Interned, HashOf;
      Same(nodes);
      if nuse < size / 4 && size > MINSTRTABSIZE * 2 {
        HalfPow2(size);
        Resize(size / 2, blocked);
      }
    }

    /** One call on the table; p is what an Intern returns. */
    method Do(call: Call, addr: int) returns (p: int)
      requires Valid() && (call.Intern? ==> |call.str| < 0x1_0000_0000) && addr != 0 && addr !in nodes
      modifies this
      ensures Valid() && (call.Intern? ==> p in nodes && nodes[p].text == call.str)
      ensures forall q :: q in old(nodes) && !Kills(call, q) ==> q in nodes && nodes[q].text == old(nodes)[q].text
      ensures forall q :: q in nodes && q !in old(nodes) ==> call.Intern? && q == addr
    {
      hide IsPow2, Housed, HashOf, Interned;
      ghost var before := nodes;
      p := 0;
      match call {
        case Intern(str, blocked) =>
          p := Intern(str, addr, blocked);
          forall q | q in before ensures q in nodes && nodes[q].text == before[q].text { TextKept(nodes, before, q); }
        case SweepString(b, dead) =>
          SweepBucket(b % size, dead);
          forall q | q in nodes ensures q in before && before[q].text == nodes[q].text { TextKept(before, nodes, q); }
        case Check(blocked) => CheckSizes(blocked);
      }
    }

    /** Any run of interning, sweeping and resizing, with any allocator, which may give the address
        of a swept string to a later one: a pointer whose string was not swept since still has its
        contents, and of two such pointers, equal means equal contents. */
    method Run(calls: seq<Call>, malloc: Malloc) returns (ps: seq<int>)
      requires Valid() && Allocates(malloc)
      requires forall k :: 0 <= k < |calls| && calls[k].Intern? ==> |calls[k].str| < 0x1_0000_0000
      modifies this
      ensures Valid() && |ps| == |calls|
      ensures forall k :: 0 <= k < |ps| && Lives(calls, ps[k], k) ==> ps[k] in nodes && nodes[ps[k]].text == calls[k].str
      ensures forall j, k :: 0 <= j < |ps| && 0 <= k < |ps| && Lives(calls, ps[j], j) && Lives(calls, ps[k], k) ==>
        (ps[j] == ps[k] <==> calls[j].str == calls[k].str)
    {
      hide IsPow2, Housed, HashOf;
      ps := [];
      for i := 0 to |calls|
        invariant Valid() && |ps| == i
        invariant forall k :: 0 <= k < i && Lives(calls[..i], ps[k], k) ==> ps[k] in nodes && nodes[ps[k]].text == calls[k].str
      {
        ghost var earlier := ps;
        var p := Do(calls[i], malloc(nodes.Keys, i));
        forall k | 0 <= k < i && Lives(calls[..i + 1], earlier[k], k)
          ensures earlier[k] in nodes && nodes[earlier[k]].text == calls[k].str
        {
          LivesBefore(calls, earlier[k], k, i);
        }
        ps := ps + [p];
      }
      assert calls[..|calls|] == calls;
    }
  }
}
