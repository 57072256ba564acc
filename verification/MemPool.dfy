/**
 * The pool allocator (mem_pool.c): a first-fit, address-ordered free list threaded through the
 * headers of the free segments, with neighbours joined when a segment is given back.
 */
module MemPool {

  const POISON: int := 0xEFCDAB89

  datatype Header = Header(next: int, size: int)

  /** What a stretch of the buffer is: on the free list, handed out, or on neither. */
  datatype Status = Free | Used | Lost

  datatype Block = Block(addr: int, size: int, status: Status)

  /** The blocks cover base..limit in address order, without gap or overlap. */
  ghost predicate Tiles(b: seq<Block>, base: int, limit: int) {
    && |b| > 0 && b[0].addr == base && b[|b| - 1].addr + b[|b| - 1].size == limit
    && (forall k :: 0 <= k < |b| ==> b[k].size > 0)
    && (forall k :: 0 <= k < |b| - 1 ==> b[k].addr + b[k].size == b[k + 1].addr)
  }

  /** No two free blocks touch. */
  ghost predicate Coalesced(b: seq<Block>) {
    forall k :: 0 <= k < |b| - 1 ==> !(b[k].status.Free? && b[k + 1].status.Free?)
  }

  /** The first free block at or after k. */
  function FirstFree(b: seq<Block>, k: nat): (i: nat)
    requires k <= |b|
    ensures k <= i <= |b| && (i < |b| ==> b[i].status.Free?)
    ensures forall m :: k <= m < i ==> !b[m].status.Free?
    decreases |b| - k
  {
    if k == |b| || b[k].status.Free? then k else FirstFree(b, k + 1)
  }

  /** Its address, or null. */
  function FreeFrom(b: seq<Block>, k: nat): int
    requires k <= |b|
  {
    var i := FirstFree(b, k);
    if i < |b| then b[i].addr else 0
  }

  /** The first free block with room for n bytes. */
  function FirstFit(b: seq<Block>, n: int, k: nat): (i: nat)
    requires k <= |b|
    ensures k <= i <= |b| && (i < |b| ==> b[i].status.Free? && b[i].size >= n)
    ensures forall m :: k <= m < i ==> !(b[m].status.Free? && b[m].size >= n)
    decreases |b| - k
  {
    if k == |b| || (b[k].status.Free? && b[k].size >= n) then k else FirstFit(b, n, k + 1)
  }

  predicate Splits(x: Block, n: int, header: int) { x.size > n + 2 * header }

  function Forget(b: seq<Block>): (r: seq<Block>)
    ensures |r| == |b|
    ensures forall k :: 0 <= k < |b| ==> r[k] == (if b[k].status.Free? then b[k].(status := Lost) else b[k])
  {
    seq(|b|, k requires 0 <= k < |b| => if b[k].status.Free? then b[k].(status := Lost) else b[k])
  }

  /** Handing out n bytes of block k: the rest stays free when it is large enough; otherwise
      the whole block goes and every free block after it drops off the list. */
  function Taken(b: seq<Block>, k: nat, n: int, header: int): seq<Block>
    requires k < |b|
  {
    if Splits(b[k], n, header) then
      b[..k] + [Block(b[k].addr, n, Used), Block(b[k].addr + n, b[k].size - n, Free)] + b[k + 1..]
    else b[..k] + [b[k].(status := Used)] + Forget(b[k + 1..])
  }

  /** Joins block k with the next one when both are free. */
  function Joined(b: seq<Block>, k: nat): seq<Block>
    requires k < |b|
  {
    if k + 1 < |b| && b[k].status.Free? && b[k + 1].status.Free? then
      b[..k] + [b[k].(size := b[k].size + b[k + 1].size)] + b[k + 2..]
    else b
  }

  /** Block k given back. */
  function Freed(b: seq<Block>, k: nat): seq<Block>
    requires k < |b|
  {
    var b1 := Joined(b[k := b[k].(status := Free)], k);
    if k > 0 then Joined(b1, k - 1) else b1
  }

  /** The header of block x is right, next being the free block after it. */
  ghost predicate Headed(mem: map<int, Header>, x: Block, next: int) {
    && x.addr in mem && mem[x.addr].size == x.size
    && (x.status.Free? ==> mem[x.addr].next == next)
    && (x.status.Used? ==> mem[x.addr].next == POISON)
  }

  /** The headers say what the blocks are: sizes in all of them, the list through the free ones. */
  ghost predicate Threaded(mem: map<int, Header>, b: seq<Block>) {
    forall k :: 0 <= k < |b| ==> Headed(mem, b[k], FreeFrom(b, k + 1))
  }

  /** What try_combine_with_next does to the headers. */
  function Combined(mem: map<int, Header>, seg: int): map<int, Header>
    requires seg in mem && (mem[seg].next != 0 ==> mem[seg].next in mem)
  {
    var next := mem[seg].next;
    if next != 0 && seg + mem[seg].size == next then
      mem[seg := Header(mem[next].next, mem[seg].size + mem[next].size)]
    else mem
  }

  lemma FirstFreeIs(b: seq<Block>, k: nat, i: nat)
    requires k <= i <= |b| && (i < |b| ==> b[i].status.Free?)
    requires forall m :: k <= m < i ==> !b[m].status.Free?
    ensures FirstFree(b, k) == i
  {
    if i < |b| { assert !(i < FirstFree(b, k)); }
  }

  /** Blocks lie in order. */
  lemma {:induction false} InOrder(b: seq<Block>, base: int, limit: int, i: nat, j: nat)
    requires Tiles(b, base, limit) && i < j < |b|
    ensures base <= b[i].addr && b[i].addr + b[i].size <= b[j].addr && b[j].addr + b[j].size <= limit
    decreases j - i, |b| - j, i
  {
    if i + 1 < j {
      InOrder(b, base, limit, i, j - 1);
    } else {
      Low(b, base, limit, i);
      High(b, base, limit, j);
    }
    High(b, base, limit, j);
  }

  lemma {:induction false} Low(b: seq<Block>, base: int, limit: int, i: nat)
    requires Tiles(b, base, limit) && i < |b|
    ensures base <= b[i].addr
  {
    if i > 0 { Low(b, base, limit, i - 1); assert b[i - 1].addr + b[i - 1].size == b[i].addr; }
  }

  lemma {:induction false} High(b: seq<Block>, base: int, limit: int, j: nat)
    requires Tiles(b, base, limit) && j < |b|
    ensures b[j].addr + b[j].size <= limit
    decreases |b| - j
  {
    if j + 1 < |b| { High(b, base, limit, j + 1); assert b[j].addr + b[j].size == b[j + 1].addr; }
  }

  /** Distinct blocks have distinct addresses, ordered as the blocks are. */
  lemma Ordered(b: seq<Block>, base: int, limit: int, i: nat, j: nat)
    requires Tiles(b, base, limit) && i < |b| && j < |b|
    ensures b[i].addr < b[j].addr <==> i < j
    ensures b[i].addr == b[j].addr <==> i == j
  {
    if i < j { InOrder(b, base, limit, i, j); } else if j < i { InOrder(b, base, limit, j, i); }
  }

  /** Where the list goes after block k: past it, and right to its end exactly when the next
      block is free. */
  lemma NextFree(b: seq<Block>, base: int, limit: int, k: nat)
    requires Tiles(b, base, limit) && base > 0 && k < |b|
    ensures var next, end := FreeFrom(b, k + 1), b[k].addr + b[k].size;
      && (next != 0 ==> end <= next && exists i :: k < i < |b| && b[i].addr == next)
      && (next == end <==> k + 1 < |b| && b[k + 1].status.Free?)
      && (k + 1 < |b| && b[k + 1].status.Free? ==> next != 0)
  {
    var i := FirstFree(b, k + 1);
    Low(b, base, limit, k);
    if i < |b| {
      InOrder(b, base, limit, k, i);
      if k + 1 < i { InOrder(b, base, limit, k + 1, i); }
    }
  }

  lemma JoinedAt(b: seq<Block>, k: nat, m: nat)
    requires k + 1 < |b| && b[k].status.Free? && b[k + 1].status.Free? && m + 1 < |b|
    ensures |Joined(b, k)| == |b| - 1
    ensures Joined(b, k)[m] ==
      if m < k then b[m] else if m == k then b[k].(size := b[k].size + b[k + 1].size) else b[m + 1]
  {
  }

  lemma NotJoined(b: seq<Block>, k: nat)
    requires k < |b| && !(k + 1 < |b| && b[k + 1].status.Free?)
    ensures Joined(b, k) == b
  {
  }

  lemma TakenLong(b: seq<Block>, k: nat, n: int, header: int)
    requires k < |b|
    ensures |Taken(b, k, n, header)| == if Splits(b[k], n, header) then |b| + 1 else |b|
  {
  }

  lemma TakenAt(b: seq<Block>, k: nat, n: int, header: int, m: nat)
    requires k < |b| && m < |Taken(b, k, n, header)|
    ensures var r, x := Taken(b, k, n, header), b[k];
      && (m < k ==> r[m] == b[m])
      && if Splits(x, n, header) then
           && |r| == |b| + 1
           && (m == k ==> r[m] == Block(x.addr, n, Used))
           && (m == k + 1 ==> r[m] == Block(x.addr + n, x.size - n, Free))
           && (m > k + 1 ==> r[m] == b[m - 1])
         else
           && |r| == |b|
           && (m == k ==> r[m] == x.(status := Used))
           && (m > k ==> r[m] == if b[m].status.Free? then b[m].(status := Lost) else b[m])
  {
    if !Splits(b[k], n, header) && m > k { assert b[k + 1..][m - k - 1] == b[m]; }
  }

  lemma Touches(b: seq<Block>, base: int, limit: int, k: nat)
    requires Tiles(b, base, limit) && k + 1 < |b|
    ensures b[k + 1].addr == b[k].addr + b[k].size && b[k].size > 0 && b[k + 1].size > 0
  {
  }

  lemma JoinTiles(b: seq<Block>, base: int, limit: int, k: nat)
    requires Tiles(b, base, limit) && k < |b|
    ensures Tiles(Joined(b, k), base, limit)
  {
    var r := Joined(b, k);
    if r != b {
      assert forall m :: k < m < |r| ==> r[m] == b[m + 1];
    }
  }

  /** Joining on the headers is joining of blocks. */
  lemma JoinThreaded(mem: map<int, Header>, b: seq<Block>, base: int, limit: int, k: nat)
    requires Threaded(mem, b) && Tiles(b, base, limit) && base > 0 && k < |b| && b[k].status.Free?
    ensures b[k].addr in mem
    ensures var next := mem[b[k].addr].next; next != 0 ==> next in mem && b[k].addr + b[k].size <= next
    ensures Threaded(Combined(mem, b[k].addr), Joined(b, k))
    ensures FreeFrom(Joined(b, k), 0) == FreeFrom(b, 0)
  {
    hide FreeFrom, FirstFree, Tiles, Joined;
    NextFree(b, base, limit, k);
    assert Headed(mem, b[k], FreeFrom(b, k + 1));
    var next := mem[b[k].addr].next;
    if next != 0 {
      var i :| k < i < |b| && b[i].addr == next;
      assert Headed(mem, b[i], FreeFrom(b, i + 1));
    }
    if k + 1 < |b| && b[k + 1].status.Free? {
      var r := Joined(b, k);
      JoinedAt(b, k, k);
      assert Headed(mem, b[k + 1], FreeFrom(b, k + 2));
      assert next == b[k].addr + b[k].size && b[k + 1].addr == next by { Touches(b, base, limit, k); }
      forall m | 0 <= m < |r| ensures Headed(Combined(mem, b[k].addr), r[m], FreeFrom(r, m + 1)) {
        JoinFree(b, k, m + 1);
        JoinedAt(b, k, m);
        if m != k {
          var m' := if m < k then m else m + 1;
          assert Headed(mem, b[m'], FreeFrom(b, m' + 1));
          Ordered(b, base, limit, m', k);
        }
      }
      JoinFree(b, k, 0);
    } else {
      NotJoined(b, k);
    }
  }

  lemma JoinFree(b: seq<Block>, k: nat, m: nat)
    requires k + 1 < |b| && b[k].status.Free? && b[k + 1].status.Free? && m < |b|
    ensures FreeFrom(Joined(b, k), m) == FreeFrom(b, if m <= k then m else m + 1)
  {
    var r := Joined(b, k);
    var from := if m <= k then m else m + 1;
    var i := FirstFree(b, from);
    FirstFreeIs(r, m, if i <= k then i else i - 1);
  }

  lemma InsertFree(b: seq<Block>, k: nat, pre: int, m: nat)
    requires k < |b| && !b[k].status.Free? && m <= |b|
    requires -1 <= pre < k && forall i :: pre < i < k ==> !b[i].status.Free?
    requires pre >= 0 ==> b[pre].status.Free?
    ensures FreeFrom(b[k := b[k].(status := Free)], m) == if pre < m <= k then b[k].addr else FreeFrom(b, m)
  {
    FirstFreeIs(b[k := b[k].(status := Free)], m, if pre < m <= k then k else FirstFree(b, m));
  }

  /** The list after block k goes in after the free block pre, or at its head. */
  lemma InsertThreaded(mem: map<int, Header>, b: seq<Block>, base: int, limit: int, k: nat, pre: int)
    requires Threaded(mem, b) && Tiles(b, base, limit) && k < |b| && b[k].status.Used?
    requires -1 <= pre < k && forall m :: pre < m < k ==> !b[m].status.Free?
    requires pre >= 0 ==> b[pre].status.Free?
    ensures var b' := b[k := b[k].(status := Free)];
      var mem1 := mem[b[k].addr := Header(FreeFrom(b, k + 1), b[k].size)];
      && (pre < 0 ==> Threaded(mem1, b') && FreeFrom(b', 0) == b[k].addr)
      && (pre >= 0 ==> Threaded(mem1[b[pre].addr := Header(b[k].addr, b[pre].size)], b') && FreeFrom(b', 0) == FreeFrom(b, 0))
  {
    hide FreeFrom, FirstFree, Tiles;
    var b' := b[k := b[k].(status := Free)];
    var mem1 := mem[b[k].addr := Header(FreeFrom(b, k + 1), b[k].size)];
    var mem2 := if pre >= 0 then mem1[b[pre].addr := Header(b[k].addr, b[pre].size)] else mem1;
    forall m | 0 <= m < |b| ensures Headed(mem2, b'[m], FreeFrom(b', m + 1)) {
      InsertFree(b, k, pre, m + 1);
      assert Headed(mem, b[m], FreeFrom(b, m + 1));
      Ordered(b, base, limit, m, k);
      if pre >= 0 { Ordered(b, base, limit, m, pre); }
    }
    InsertFree(b, k, pre, 0);
  }

  lemma FreedCoalesced(b: seq<Block>, k: nat)
    requires Coalesced(b) && k < |b| && !b[k].status.Free?
    ensures Coalesced(Freed(b, k))
  {
    var b0 := b[k := b[k].(status := Free)];
    var b1 := Joined(b0, k);
    assert forall m :: 0 <= m < |b1| - 1 && m != k - 1 ==> !(b1[m].status.Free? && b1[m + 1].status.Free?);
  }

  lemma TakenTiles(b: seq<Block>, base: int, limit: int, k: nat, n: int, header: int)
    requires Tiles(b, base, limit) && k < |b| && 0 < n && 0 <= header
    ensures Tiles(Taken(b, k, n, header), base, limit)
  {
    hide Taken;
    var r := Taken(b, k, n, header);
    TakenLong(b, k, n, header);
    forall m | 0 <= m < |r| ensures r[m].size > 0 && (m + 1 < |r| ==> r[m].addr + r[m].size == r[m + 1].addr) {
      TakenAt(b, k, n, header, m);
      if m + 1 < |r| { TakenAt(b, k, n, header, m + 1); }
    }
    TakenAt(b, k, n, header, 0);
    TakenAt(b, k, n, header, |r| - 1);
  }

  /** The headers once part of block k is handed out and the list skips it: the rest of the
      block, if it stays free, takes its place. */
  lemma SplitThreaded(mem: map<int, Header>, b: seq<Block>, base: int, limit: int, k: nat, n: int, header: int, pre: int)
    requires Threaded(mem, b) && Tiles(b, base, limit) && k < |b| && b[k].status.Free?
    requires 0 < n && header >= 0 && Splits(b[k], n, header)
    requires -1 <= pre < k && forall m :: pre < m < k ==> !b[m].status.Free?
    requires pre >= 0 ==> b[pre].status.Free?
    ensures var b', seg, left := Taken(b, k, n, header), b[k].addr, b[k].addr + n;
      var mem1 := mem[left := Header(FreeFrom(b, k + 1), b[k].size - n)][seg := Header(POISON, n)];
      && (pre < 0 ==> Threaded(mem1, b') && FreeFrom(b', 0) == left)
      && (pre >= 0 ==> Threaded(mem1[b[pre].addr := Header(left, b[pre].size)], b') && FreeFrom(b', 0) == FreeFrom(b, 0))
  {
    hide FreeFrom, FirstFree, Tiles, Taken;
    TakenLong(b, k, n, header);
    var b', seg, left := Taken(b, k, n, header), b[k].addr, b[k].addr + n;
    var mem1 := mem[left := Header(FreeFrom(b, k + 1), b[k].size - n)][seg := Header(POISON, n)];
    var mem2 := if pre >= 0 then mem1[b[pre].addr := Header(left, b[pre].size)] else mem1;
    if pre >= 0 { InOrder(b, base, limit, pre, k); Sized(b, base, limit, pre); }
    forall m | 0 <= m < |b'| ensures Headed(mem2, b'[m], FreeFrom(b', m + 1)) {
      TakenFree(b, k, n, header, pre, m + 1);
      TakenAt(b, k, n, header, m);
      if m < k {
        assert Headed(mem, b[m], FreeFrom(b, m + 1));
        InOrder(b, base, limit, m, k);
        Sized(b, base, limit, m);
        if pre >= 0 { Ordered(b, base, limit, m, pre); }
      } else if m > k + 1 {
        assert Headed(mem, b[m - 1], FreeFrom(b, m));
        InOrder(b, base, limit, k, m - 1);
        if pre >= 0 { Ordered(b, base, limit, m - 1, pre); }
      }
    }
    TakenFree(b, k, n, header, pre, 0);
  }

  lemma Sized(b: seq<Block>, base: int, limit: int, m: nat)
    requires Tiles(b, base, limit) && m < |b|
    ensures b[m].size > 0
  {
  }

  /** The headers once all of block k is handed out: the list ends before it. */
  lemma WholeThreaded(mem: map<int, Header>, b: seq<Block>, base: int, limit: int, k: nat, n: int, header: int, pre: int)
    requires Threaded(mem, b) && Tiles(b, base, limit) && k < |b| && b[k].status.Free?
    requires 0 < n && header >= 0 && !Splits(b[k], n, header)
    requires -1 <= pre < k && forall m :: pre < m < k ==> !b[m].status.Free?
    requires pre >= 0 ==> b[pre].status.Free?
    ensures var b', seg := Taken(b, k, n, header), b[k].addr;
      var mem1 := mem[seg := Header(POISON, b[k].size)];
      && (pre < 0 ==> Threaded(mem1, b') && FreeFrom(b', 0) == 0)
      && (pre >= 0 ==> Threaded(mem1[b[pre].addr := Header(0, b[pre].size)], b') && FreeFrom(b', 0) == FreeFrom(b, 0))
  {
    hide FreeFrom, FirstFree, Tiles;
    var b', seg := Taken(b, k, n, header), b[k].addr;
    var mem1 := mem[seg := Header(POISON, b[k].size)];
    var mem2 := if pre >= 0 then mem1[b[pre].addr := Header(0, b[pre].size)] else mem1;
    if pre >= 0 { Ordered(b, base, limit, pre, k); }
    forall m | 0 <= m < |b'| ensures Headed(mem2, b'[m], FreeFrom(b', m + 1)) {
      TakenFree(b, k, n, header, pre, m + 1);
      assert Headed(mem, b[m], FreeFrom(b, m + 1));
      if m != k { Ordered(b, base, limit, m, k); }
      if pre >= 0 { Ordered(b, base, limit, m, pre); }
      if m > k {
        assert b'[m] == Forget(b[k + 1..])[m - k - 1] && b[k + 1..][m - k - 1] == b[m];
      }
    }
    TakenFree(b, k, n, header, pre, 0);
  }

  lemma TakenFree(b: seq<Block>, k: nat, n: int, header: int, pre: int, m: nat)
    requires k < |b| && b[k].status.Free? && -1 <= pre < k && (pre >= 0 ==> b[pre].status.Free?)
    requires forall i :: pre < i < k ==> !b[i].status.Free?
    requires m <= |Taken(b, k, n, header)|
    ensures var b', split := Taken(b, k, n, header), Splits(b[k], n, header);
      FreeFrom(b', m) ==
      if m <= pre then FreeFrom(b, m) else if m <= k + 1 then (if split then b[k].addr + n else 0)
      else if split then FreeFrom(b, m - 1) else 0
  {
    var b', split := Taken(b, k, n, header), Splits(b[k], n, header);
    if m <= pre {
      FirstFreeIs(b', m, FirstFree(b, m));
    } else if !split {
      FirstFreeIs(b', m, |b'|);
    } else if m <= k + 1 {
      FirstFreeIs(b', m, k + 1);
    } else {
      FirstFreeIs(b', m, FirstFree(b, m - 1) + 1);
    }
  }

  lemma TakenCoalesced(b: seq<Block>, k: nat, n: int, header: int)
    requires Coalesced(b) && k < |b| && b[k].status.Free?
    ensures Coalesced(Taken(b, k, n, header))
  {
    var r := Taken(b, k, n, header);
    if Splits(b[k], n, header) {
      assert forall m :: k + 2 <= m < |r| ==> r[m] == b[m - 1];
    }
  }

  /** The blocks of a pool in order: they cover the buffer, each holds its header, and no two
      free ones touch. */
  ghost predicate Sound(b: seq<Block>, base: int, limit: int, header: int) {
    && 0 < header && 0 < base && Tiles(b, base, limit) && Coalesced(b)
    && forall k :: 0 <= k < |b| ==> b[k].size >= header
  }

  lemma TakenSound(b: seq<Block>, base: int, limit: int, header: int, k: nat, n: int)
    requires Sound(b, base, limit, header) && k < |b| && b[k].status.Free? && header <= n <= b[k].size
    ensures Sound(Taken(b, k, n, header), base, limit, header)
  {
    hide Taken, Tiles, Coalesced;
    TakenTiles(b, base, limit, k, n, header);
    TakenCoalesced(b, k, n, header);
    TakenLong(b, k, n, header);
    forall m | 0 <= m < |Taken(b, k, n, header)| ensures Taken(b, k, n, header)[m].size >= header {
      TakenAt(b, k, n, header, m);
    }
  }

  lemma JoinedSizes(b: seq<Block>, header: int, k: nat)
    requires k < |b| && 0 < header && forall m :: 0 <= m < |b| ==> b[m].size >= header
    ensures forall m :: 0 <= m < |Joined(b, k)| ==> Joined(b, k)[m].size >= header
  {
    hide Joined;
    if k + 1 < |b| && b[k].status.Free? && b[k + 1].status.Free? {
      JoinedAt(b, k, 0);
      forall m | 0 <= m < |Joined(b, k)| ensures Joined(b, k)[m].size >= header { JoinedAt(b, k, m); }
    } else {
      NotJoinedAny(b, k);
    }
  }

  lemma NotJoinedAny(b: seq<Block>, k: nat)
    requires k < |b| && !(k + 1 < |b| && b[k].status.Free? && b[k + 1].status.Free?)
    ensures Joined(b, k) == b
  {
  }

  lemma MarkTiles(b: seq<Block>, base: int, limit: int, k: nat)
    requires Tiles(b, base, limit) && k < |b|
    ensures Tiles(b[k := b[k].(status := Free)], base, limit)
  {
  }

  lemma FreedSound(b: seq<Block>, base: int, limit: int, header: int, k: nat)
    requires Sound(b, base, limit, header) && k < |b| && !b[k].status.Free?
    ensures Sound(Freed(b, k), base, limit, header)
  {
    FreedCoalesced(b, k);
    hide Joined, Tiles, Coalesced;
    var b0 := b[k := b[k].(status := Free)];
    MarkTiles(b, base, limit, k);
    JoinTiles(b0, base, limit, k);
    JoinedSizes(b0, header, k);
    if k > 0 {
      JoinedFar(b0, k);
      JoinTiles(Joined(b0, k), base, limit, k - 1);
      JoinedSizes(Joined(b0, k), header, k - 1);
    }
  }

  /** Joining at k leaves the blocks before k, and k free where it is. */
  lemma JoinedFar(b: seq<Block>, k: nat)
    requires k < |b|
    ensures k < |Joined(b, k)| && Joined(b, k)[..k] == b[..k]
    ensures Joined(b, k)[k].status == b[k].status && Joined(b, k)[k].addr == b[k].addr
  {
  }

  lemma FirstFitIs(b: seq<Block>, n: int, i: nat)
    requires i <= |b| && (i < |b| ==> b[i].status.Free? && b[i].size >= n)
    requires forall m :: 0 <= m < i ==> !(b[m].status.Free? && b[m].size >= n)
    ensures FirstFit(b, n, 0) == i
  {
    if i < |b| { assert !(i < FirstFit(b, n, 0)); }
  }

  /** A null link means no free block from there on; any other is the next free block. */
  lemma LinkMeans(b: seq<Block>, base: int, limit: int, k: nat)
    requires Tiles(b, base, limit) && base > 0 && k <= |b|
    ensures FreeFrom(b, k) == 0 <==> FirstFree(b, k) == |b|
    ensures FirstFree(b, k) < |b| ==> FreeFrom(b, k) == b[FirstFree(b, k)].addr
  {
    if FirstFree(b, k) < |b| { Low(b, base, limit, FirstFree(b, k)); }
  }

  lemma SoundIs(b: seq<Block>, base: int, limit: int, header: int)
    requires Sound(b, base, limit, header)
    ensures 0 < header && 0 < base && Tiles(b, base, limit) && Coalesced(b)
    ensures forall k :: 0 <= k < |b| ==> b[k].size >= header
  {
  }

  lemma HeaderIs(mem: map<int, Header>, b: seq<Block>, k: nat)
    requires Threaded(mem, b) && k < |b|
    ensures Headed(mem, b[k], FreeFrom(b, k + 1))
  {
  }

  /** The headers and the list as mem_pool_malloc leaves them, pre being the free block before k. */
  lemma TakeBlock(mem: map<int, Header>, b: seq<Block>, base: int, limit: int, k: nat, n: int, header: int, pre: int,
    mem': map<int, Header>)
    requires Threaded(mem, b) && Sound(b, base, limit, header) && k < |b| && b[k].status.Free?
    requires header <= n <= b[k].size
    requires -1 <= pre < k && forall m :: pre < m < k ==> !b[m].status.Free?
    requires pre >= 0 ==> b[pre].status.Free?
    requires var seg, split := b[k].addr, Splits(b[k], n, header);
      var left := if split then seg + n else 0;
      var m1 := if split then mem[left := Header(FreeFrom(b, k + 1), b[k].size - n)] else mem;
      var m2 := if pre >= 0 then m1[b[pre].addr := Header(left, b[pre].size)] else m1;
      mem' == m2[seg := Header(POISON, if split then n else b[k].size)]
    ensures var b' := Taken(b, k, n, header);
      && Threaded(mem', b') && Sound(b', base, limit, header)
      && FreeFrom(b', 0) ==
         (if pre >= 0 then FreeFrom(b, 0) else if Splits(b[k], n, header) then b[k].addr + n else 0)
  {
    hide Threaded, FreeFrom, Taken, Sound;
    SoundIs(b, base, limit, header);
    TakenSound(b, base, limit, header, k, n);
    if pre >= 0 { Ordered(b, base, limit, pre, k); InOrder(b, base, limit, pre, k); Sized(b, base, limit, pre); }
    if Splits(b[k], n, header) {
      SplitThreaded(mem, b, base, limit, k, n, header, pre);
      var m1 := mem[b[k].addr + n := Header(FreeFrom(b, k + 1), b[k].size - n)][b[k].addr := Header(POISON, n)];
      if pre >= 0 {
        assert mem' == m1[b[pre].addr := Header(b[k].addr + n, b[pre].size)];
      }
    } else {
      WholeThreaded(mem, b, base, limit, k, n, header, pre);
      var m1 := mem[b[k].addr := Header(POISON, b[k].size)];
      if pre >= 0 {
        assert mem' == m1[b[pre].addr := Header(0, b[pre].size)];
      }
    }
  }

  /** The two joins of add_segment are the joins of the blocks around k. */
  lemma FreedIs(b: seq<Block>, k: nat, pre: int)
    requires k < |b| && -1 <= pre < k && forall m :: pre < m < k ==> !b[m].status.Free?
    requires pre >= 0 ==> b[pre].status.Free?
    ensures var b1 := Joined(b[k := b[k].(status := Free)], k);
      && pre < |b1|
      && Freed(b, k) == (if pre >= 0 then Joined(b1, pre) else b1)
      && (pre >= 0 ==> b1[pre] == b[pre])
  {
    hide Joined;
    var b0 := b[k := b[k].(status := Free)];
    JoinedFar(b0, k);
    var b1 := Joined(b0, k);
    if k > 0 { assert b1[k - 1] == b1[..k][k - 1] == b0[..k][k - 1]; }
    if pre >= 0 {
      assert b1[pre] == b1[..k][pre] == b0[..k][pre];
      if pre < k - 1 {
        assert b1[pre + 1] == b1[..k][pre + 1] == b0[..k][pre + 1];
        NotJoinedAny(b1, k - 1);
        NotJoinedAny(b1, pre);
      }
    } else if k > 0 {
      NotJoinedAny(b1, k - 1);
    }
  }

  /** The headers after seg, block k, was linked behind the free block pre or at the head. */
  lemma GiveBack(mem: map<int, Header>, b: seq<Block>, base: int, limit: int, header: int, k: nat, pre: int)
    requires Threaded(mem, b) && Sound(b, base, limit, header) && k < |b| && b[k].status.Used?
    requires -1 <= pre < k && forall m :: pre < m < k ==> !b[m].status.Free?
    requires pre >= 0 ==> b[pre].status.Free?
    ensures var next, seg := FreeFrom(b, k + 1), b[k].addr;
      && (next != 0 ==> next in mem && seg + b[k].size <= next)
      && var m2 := Combined(mem[seg := Header(next, b[k].size)], seg);
         && (pre < 0 ==> Threaded(m2, Freed(b, k)) && FreeFrom(Freed(b, k), 0) == seg)
         && (pre >= 0 ==>
           && b[pre].addr in m2 && m2[b[pre].addr].size == b[pre].size
           && var m3 := m2[b[pre].addr := Header(seg, b[pre].size)];
              && seg in m3 && b[pre].addr + b[pre].size <= seg
              && Threaded(Combined(m3, b[pre].addr), Freed(b, k)) && FreeFrom(Freed(b, k), 0) == FreeFrom(b, 0))
  {
    hide Threaded, FreeFrom, FirstFree, Tiles, Sound, Joined, Freed, Coalesced;
    SoundIs(b, base, limit, header);
    var next, seg := FreeFrom(b, k + 1), b[k].addr;
    var b1 := b[k := b[k].(status := Free)];
    NextFree(b, base, limit, k);
    HeaderIs(mem, b, k);
    if next != 0 {
      var i :| k < i < |b| && b[i].addr == next;
      HeaderIs(mem, b, i);
    }
    InsertThreaded(mem, b, base, limit, k, pre);
    FreedIs(b, k, pre);
    MarkTiles(b, base, limit, k);
    var m1 := mem[seg := Header(next, b[k].size)];
    if pre < 0 {
      JoinThreaded(m1, b1, base, limit, k);
    } else {
      InOrder(b, base, limit, pre, k);
      Sized(b, base, limit, pre);
      HeaderIs(mem, b, pre);
      var t1 := m1[b[pre].addr := Header(seg, b[pre].size)];
      JoinThreaded(t1, b1, base, limit, k);
      JoinTiles(b1, base, limit, k);
      var m3 := Combined(m1, seg)[b[pre].addr := Header(seg, b[pre].size)];
      assert m3 == Combined(t1, seg);
      JoinThreaded(m3, Joined(b1, k), base, limit, pre);
    }
  }

  /** A segment put behind the last free block keeps its own link, so the list runs into it. */
  lemma StrayEnd(mem: map<int, Header>, b: seq<Block>, base: int, limit: int, k: nat, pre: int)
    requires Threaded(mem, b) && Tiles(b, base, limit) && base > 0 && k < |b| && b[k].status.Used?
    requires 0 <= pre < k && b[pre].status.Free? && forall m :: pre < m < |b| ==> !b[m].status.Free?
    ensures b[pre].addr in mem && b[k].addr in mem && b[pre].addr + b[pre].size <= b[k].addr
    ensures !Threaded(Combined(mem[b[pre].addr := Header(b[k].addr, b[pre].size)], b[pre].addr), Freed(b, k))
  {
    hide FreeFrom, FirstFree, Joined, Freed;
    HeaderIs(mem, b, pre);
    HeaderIs(mem, b, k);
    InOrder(b, base, limit, pre, k);
    Sized(b, base, limit, pre);
    var m1 := Combined(mem[b[pre].addr := Header(b[k].addr, b[pre].size)], b[pre].addr);
    var r := Freed(b, k);
    var b1 := b[k := b[k].(status := Free)];
    FreedIs(b, k, pre);
    NotJoinedAny(b1, k);
    var i: nat;
    if pre == k - 1 {
      Touches(b, base, limit, pre);
      JoinedAt(b1, pre, pre);
      i := pre;
      assert m1[b[pre].addr].next == POISON;
      forall m | i < m < |r| ensures !r[m].status.Free? { JoinedAt(b1, pre, m); }
    } else {
      NotJoinedAny(b1, pre);
      i := k;
      assert m1[b[k].addr].next == POISON;
    }
    EndIsNull(r, i);
    assert !Headed(m1, r[i], FreeFrom(r, i + 1));
  }

  lemma EndIsNull(b: seq<Block>, i: nat)
    requires i < |b| && forall m :: i < m < |b| ==> !b[m].status.Free?
    ensures FreeFrom(b, i + 1) == 0
  {
    FirstFreeIs(b, i + 1, |b|);
  }

  /** Whether giving back block k goes wrong: the list is not empty and ends below it. */
  predicate Strays(b: seq<Block>, k: nat)
    requires k < |b|
  {
    FirstFree(b, 0) < |b| && FirstFree(b, k + 1) == |b|
  }

  /** The blocks after n bytes of block k were handed out, block by block: of a block with more than
      two headers to spare only those bytes go, and all that is left of it stays free; otherwise it
      goes whole, and what was free above it is lost. */
  ghost predicate HandsOut(b: seq<Block>, k: nat, n: int, header: int, r: seq<Block>)
    requires k < |b|
  {
    var x := b[k];
    && (forall m :: 0 <= m < k && m < |r| ==> r[m] == b[m])
    && if x.size - n > 2 * header then
         && |r| == |b| + 1 && r[k] == Block(x.addr, n, Used) && r[k + 1] == Block(x.addr + n, x.size - n, Free)
         && forall m :: k < m < |b| ==> r[After(m)] == b[m]
       else
         && |r| == |b| && r[k] == Block(x.addr, x.size, Used)
         && forall m :: k < m < |b| ==> r[m] == Block(b[m].addr, b[m].size, if b[m].status.Free? then Lost else b[m].status)
  }

  function After(m: nat): nat { m + 1 }

  lemma TakenHandsOut(b: seq<Block>, k: nat, n: int, header: int)
    requires k < |b|
    ensures HandsOut(b, k, n, header, Taken(b, k, n, header))
  {
    hide Taken;
    var r := Taken(b, k, n, header);
    TakenLong(b, k, n, header);
    forall m | 0 <= m < k && m < |r| ensures r[m] == b[m] { TakenAt(b, k, n, header, m); }
    TakenAt(b, k, n, header, k);
    if b[k].size - n > 2 * header {
      TakenAt(b, k, n, header, k + 1);
      forall m | k < m < |b| ensures r[After(m)] == b[m] { TakenAt(b, k, n, header, m + 1); }
    } else {
      forall m | k < m < |b|
        ensures r[m] == Block(b[m].addr, b[m].size, if b[m].status.Free? then Lost else b[m].status)
      {
        TakenAt(b, k, n, header, m);
      }
    }
  }

  /** The first free block that has room. */
  ghost predicate HasRoomFirst(b: seq<Block>, k: nat, n: int) {
    k < |b| && b[k].status.Free? && b[k].size >= n && forall m :: 0 <= m < k ==> !(b[m].status.Free? && b[m].size >= n)
  }

  ghost predicate NoRoom(b: seq<Block>, n: int) { forall m :: 0 <= m < |b| ==> !(b[m].status.Free? && b[m].size >= n) }

  lemma FitMeans(b: seq<Block>, n: int, header: int)
    ensures var k := FirstFit(b, n, 0);
      if NoRoom(b, n) then k == |b| else k < |b| && HasRoomFirst(b, k, n) && HandsOut(b, k, n, header, Taken(b, k, n, header))
  {
    hide Taken, HandsOut;
    var k := FirstFit(b, n, 0);
    if k < |b| { TakenHandsOut(b, k, n, header); }
  }

  class Pool {
    /** Address of the first free segment, or null. */
    var pool: int
    var mem: map<int, Header>
    /** ALLIGN_SIZEOF(struct mem_pool_segment). */
    const header: nat
    ghost const base: int
    ghost const limit: int
    ghost var blocks: seq<Block>

    ghost predicate Valid()
      reads this
    {
      && Sound(blocks, base, limit, header) && limit - base < 0x10000
      && Threaded(mem, blocks) && pool == FreeFrom(blocks, 0)
    }

    /** An empty pool given one buffer. */
    constructor (header: nat, buffer: int, size: int)
      requires 0 < header <= size < 0x10000 && 0 < buffer
      ensures Valid() && this.header == header && base == buffer && limit == buffer + size
      ensures blocks == [Block(buffer, size, Free)]
    {
      this.header := header;
      base, limit := buffer, buffer + size;
      mem := map[buffer := Header(0, size)];
      pool := buffer;
      blocks := [Block(buffer, size, Free)];
    }

    /** try_combine_with_next. */
    method TryCombineWithNext(seg: int)
      requires seg in mem
      requires mem[seg].next != 0 ==> mem[seg].next in mem && seg + mem[seg].size <= mem[seg].next
      modifies this`mem
      ensures mem == Combined(old(mem), seg)
    {
      var next := mem[seg].next;
      if next != 0 {
        if seg + mem[seg].size == next {
          mem := mem[seg := Header(mem[next].next, mem[seg].size + mem[next].size)];
          return;
        }
        assert seg + mem[seg].size < next;
      }
    }

    /** splite: whether seg has room for n bytes, and what is cut off when enough is left. */
    method Split(seg: int, n: int) returns (ok: bool, left: int)
      requires seg in mem && n > 0
      modifies this`mem
      ensures ok <==> old(mem[seg]).size >= n
      ensures !ok ==> mem == old(mem)
      ensures ok ==> var h := old(mem[seg]);
        if h.size > n + 2 * header
        then left == seg + n && mem == old(mem)[left := Header(h.next, h.size - n)][seg := Header(h.next, n)]
        else left == 0 && mem == old(mem)
    {
      left := 0;
      if mem[seg].size < n { ok := false; return; }
      if mem[seg].size > n + 2 * header {
        left := seg + n;
        mem := mem[left := Header(mem[seg].next, mem[seg].size - n)];
        mem := mem[seg := mem[seg].(size := n)];
      }
      ok := true;
    }

    /** mem_pool_malloc: first fit.  Null, and nothing changed, when no free segment has room. */
    method Malloc(size: nat) returns (p: int)
      requires Valid() && size + header < 0x10000
      modifies this
      ensures Valid()
      ensures var b, n := old(blocks), size + header;
        var k := FirstFit(b, n, 0);
        if k == |b| then p == 0 && blocks == b
        else p == b[k].addr + header && blocks == Taken(b, k, n, header)
      ensures var b, n := old(blocks), size + header;
        if NoRoom(b, n) then p == 0 && blocks == b
        else exists k: nat :: HasRoomFirst(b, k, n) && p == b[k].addr + header && HandsOut(b, k, n, header, blocks)
    {
      hide Threaded, FreeFrom, FirstFree, Taken, Sound, FirstFit, Tiles, Coalesced, HandsOut, HasRoomFirst, NoRoom;
      var n := size + header;
      ghost var b, m0 := blocks, mem;
      FitMeans(b, n, header);
      SoundIs(b, base, limit, header);
      LinkMeans(b, base, limit, 0);
      if pool == 0 { FirstFitIs(b, n, |b|); return 0; }
      ghost var c := FirstFree(b, 0);
      var cur := pool;
      HeaderIs(mem, b, c);
      var ok, left := Split(cur, n);
      if ok {
        pool := left;
        mem := mem[cur := mem[cur].(next := POISON)];
        FirstFitIs(b, n, c);
        TakeBlock(m0, b, base, limit, c, n, header, -1, mem);
        blocks := Taken(b, c, n, header);
        return cur + header;
      }
      p := MallocAfter(cur, n, c);
    }

    /** The loop of mem_pool_malloc: looks behind the free segment cur, which has no room. */
    method MallocAfter(head: int, n: nat, ghost first: nat) returns (p: int)
      requires Valid() && header <= n && first < |blocks| && blocks[first].status.Free? && blocks[first].addr == head
      requires forall m :: 0 <= m <= first ==> !(blocks[m].status.Free? && blocks[m].size >= n)
      modifies this
      ensures Valid()
      ensures var b := old(blocks);
        var k := FirstFit(b, n, 0);
        if k == |b| then p == 0 && blocks == b
        else p == b[k].addr + header && blocks == Taken(b, k, n, header)
    {
      hide Threaded, FreeFrom, FirstFree, Taken, Sound, FirstFit, Tiles, Coalesced;
      ghost var b, m0, c := blocks, mem, first;
      SoundIs(b, base, limit, header);
      var cur := head;
      while true
        invariant mem == m0 && pool == old(pool) && blocks == b
        invariant 0 <= c < |b| && b[c].status.Free? && cur == b[c].addr
        invariant forall m :: 0 <= m <= c ==> !(b[m].status.Free? && b[m].size >= n)
        decreases |b| - c
      {
        HeaderIs(mem, b, c);
        LinkMeans(b, base, limit, c + 1);
        if mem[cur].next == 0 { FirstFitIs(b, n, |b|); return 0; }
        ghost var d := FirstFree(b, c + 1);
        HeaderIs(mem, b, d);
        var ok, left := Split(mem[cur].next, n);
        if ok {
          Ordered(b, base, limit, c, d);
          var ret := mem[cur].next;
          mem := mem[cur := mem[cur].(next := left)];
          mem := mem[ret := mem[ret].(next := POISON)];
          FirstFitIs(b, n, d);
          TakeBlock(m0, b, base, limit, d, n, header, c, mem);
          blocks := Taken(b, d, n, header);
          return ret + header;
        }
        cur, c := mem[cur].next, d;
      }
    }

    /** add_segment, seg being block k: the blocks become those with k given back, and the pool
        stays sound exactly when it was empty or some free segment lies above seg. */
    method AddSegment(seg: int, ghost k: nat)
      requires Valid() && k < |blocks| && blocks[k].status.Used? && seg == blocks[k].addr
      modifies this
      ensures blocks == Freed(old(blocks), k)
      ensures Valid() <==> !Strays(old(blocks), k)
    {
      hide Threaded, FreeFrom, FirstFree, Freed, Sound, Tiles, Coalesced;
      ghost var b, m0 := blocks, mem;
      FreedSound(b, base, limit, header, k);
      SoundIs(b, base, limit, header);
      LinkMeans(b, base, limit, 0);
      HeaderIs(mem, b, k);
      if pool == 0 {
        FirstFreeIs(b, k + 1, |b|);
        LinkMeans(b, base, limit, k + 1);
        GiveBack(m0, b, base, limit, header, k, -1);
        mem := mem[seg := mem[seg].(next := 0)];
        pool := seg;
        blocks := Freed(b, k);
        return;
      }
      ghost var c := FirstFree(b, 0);
      Ordered(b, base, limit, k, c);
      if seg < pool {
        FirstFreeIs(b, k + 1, c);
        LinkMeans(b, base, limit, k + 1);
        GiveBack(m0, b, base, limit, header, k, -1);
        mem := mem[seg := mem[seg].(next := pool)];
        TryCombineWithNext(seg);
        pool := seg;
        blocks := Freed(b, k);
        return;
      }
      AddAfter(seg, k, pool, c);
    }

    /** The loop of add_segment: walks from the free segment head, below seg. */
    method AddAfter(seg: int, ghost k: nat, head: int, ghost first: nat)
      requires Valid() && k < |blocks| && blocks[k].status.Used? && seg == blocks[k].addr
      requires first < k && blocks[first].status.Free? && head == blocks[first].addr
      modifies this
      ensures blocks == Freed(old(blocks), k)
      ensures Valid() <==> !Strays(old(blocks), k)
    {
      hide Threaded, FreeFrom, FirstFree, Freed, Sound, Tiles, Coalesced;
      ghost var b, m0, c := blocks, mem, first;
      FreedSound(b, base, limit, header, k);
      SoundIs(b, base, limit, header);
      var pre := head;
      while true
        invariant mem == m0 && pool == old(pool) && blocks == b
        invariant 0 <= c < k && b[c].status.Free? && pre == b[c].addr
        decreases |b| - c
      {
        HeaderIs(mem, b, c);
        HeaderIs(mem, b, k);
        LinkMeans(b, base, limit, c + 1);
        var cur := mem[pre].next;
        ghost var d := FirstFree(b, c + 1);
        if cur == 0 {
          FirstFreeIs(b, k + 1, |b|);
          StrayEnd(m0, b, base, limit, k, c);
          mem := mem[pre := mem[pre].(next := seg)];
          TryCombineWithNext(pre);
          blocks := Freed(b, k);
          return;
        }
        Ordered(b, base, limit, k, d);
        if seg < cur {
          FirstFreeIs(b, k + 1, d);
          LinkMeans(b, base, limit, k + 1);
          GiveBack(m0, b, base, limit, header, k, c);
          mem := mem[seg := mem[seg].(next := cur)];
          TryCombineWithNext(seg);
          mem := mem[pre := mem[pre].(next := seg)];
          TryCombineWithNext(pre);
          blocks := Freed(b, k);
          return;
        }
        pre, c := cur, d;
      }
    }

    /** mem_pool_free; p is null or what Malloc returned for block k. */
    method Release(p: int, ghost k: nat)
      requires Valid()
      requires p != 0 ==> k < |blocks| && blocks[k].status.Used? && p == blocks[k].addr + header
      modifies this
      ensures p == 0 ==> Valid() && blocks == old(blocks)
      ensures p != 0 ==> blocks == Freed(old(blocks), k) && (Valid() <==> !Strays(old(blocks), k))
    {
      hide Threaded, FreeFrom, FirstFree, Freed, Sound, Strays;
      if p != 0 {
        HeaderIs(mem, blocks, k);
        assert mem[p - header].next == POISON;
        AddSegment(p - header, k);
      }
    }
  }
}
