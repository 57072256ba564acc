/**
 * Runs of mem_pool_malloc and mem_pool_free on a pool made from one buffer: what is conserved,
 * what a malloc can drop from the list, and what is left once everything is given back.
 */
module MemPoolRuns {
  import opened MemPool

  function Bytes(b: seq<Block>, status: Status): int {
    if b == [] then 0
    else Bytes(b[..|b| - 1], status) + if b[|b| - 1].status == status then b[|b| - 1].size else 0
  }

  lemma {:induction false} BytesJoin(a: seq<Block>, b: seq<Block>, status: Status)
    ensures Bytes(a + b, status) == Bytes(a, status) + Bytes(b, status)
  {
    if b == [] {
      assert a + b == a;
    } else {
      BytesJoin(a, b[..|b| - 1], status);
      assert (a + b)[..|a + b| - 1] == a + b[..|b| - 1];
    }
  }

  lemma ThreeParts(a: seq<Block>, b: seq<Block>, c: seq<Block>, status: Status)
    ensures Bytes(a + b + c, status) == Bytes(a, status) + Bytes(b, status) + Bytes(c, status)
  {
    BytesJoin(a + b, c, status);
    BytesJoin(a, b, status);
  }

  lemma TwoBytes(x: Block, y: Block, status: Status)
    ensures Bytes([x, y], status) ==
      (if x.status == status then x.size else 0) + if y.status == status then y.size else 0
  {
    assert [x, y] == [x] + [y];
    BytesJoin([x], [y], status);
    BytesOne(x, status);
    BytesOne(y, status);
  }

  lemma BytesOne(x: Block, status: Status)
    ensures Bytes([x], status) == if x.status == status then x.size else 0
  {
    assert [x][..0] == [];
  }

  /** Free, used and lost bytes together are the whole buffer. */
  lemma {:induction false} BytesConserved(b: seq<Block>, base: int, limit: int)
    requires Tiles(b, base, limit)
    ensures Bytes(b, Free) + Bytes(b, Used) + Bytes(b, Lost) == limit - base
  {
    var last := b[|b| - 1];
    assert b == b[..|b| - 1] + [last];
    if |b| == 1 {
      assert b[..0] == [];
    } else {
      BytesConserved(b[..|b| - 1], base, last.addr);
    }
  }

  lemma {:induction false} ForgetBytes(b: seq<Block>)
    ensures Bytes(Forget(b), Lost) == Bytes(b, Lost) + Bytes(b, Free)
    ensures Bytes(Forget(b), Free) == 0 && Bytes(Forget(b), Used) == Bytes(b, Used)
  {
    if b != [] {
      ForgetBytes(b[..|b| - 1]);
      assert Forget(b)[..|b| - 1] == Forget(b[..|b| - 1]);
    }
  }

  /** What a malloc drops: nothing when the block splits, otherwise everything free above it. */
  lemma {:induction false} TakenLoses(b: seq<Block>, k: nat, n: int, header: int)
    requires k < |b| && b[k].status.Free?
    ensures var r := Taken(b, k, n, header);
      && Bytes(r, Lost) == Bytes(b, Lost) + (if Splits(b[k], n, header) then 0 else Bytes(b[k + 1..], Free))
      && Bytes(r, Used) == Bytes(b, Used) + (if Splits(b[k], n, header) then n else b[k].size)
  {
    hide Forget;
    var top := b[k + 1..];
    assert b == b[..k] + [b[k]] + top;
    ThreeParts(b[..k], [b[k]], top, Lost);
    ThreeParts(b[..k], [b[k]], top, Used);
    BytesOne(b[k], Lost);
    BytesOne(b[k], Used);
    if Splits(b[k], n, header) {
      var x, y := Block(b[k].addr, n, Used), Block(b[k].addr + n, b[k].size - n, Free);
      TwoBytes(x, y, Lost);
      TwoBytes(x, y, Used);
      ThreeParts(b[..k], [x, y], top, Lost);
      ThreeParts(b[..k], [x, y], top, Used);
    } else {
      var x := b[k].(status := Used);
      BytesOne(x, Lost);
      BytesOne(x, Used);
      ThreeParts(b[..k], [x], Forget(top), Lost);
      ThreeParts(b[..k], [x], Forget(top), Used);
      ForgetBytes(top);
    }
  }

  /** A call: malloc of a size, or free of a pointer. */
  datatype Op = Take(size: nat) | Give(p: int)

  /** The block at an address. */
  function BlockAt(b: seq<Block>, addr: int, k: nat): (i: nat)
    requires k <= |b|
    ensures k <= i <= |b| && (i < |b| ==> b[i].addr == addr)
    decreases |b| - k
  {
    if k == |b| || b[k].addr == addr then k else BlockAt(b, addr, k + 1)
  }

  /** The blocks after one call. */
  function Step(b: seq<Block>, op: Op, header: nat): seq<Block> {
    match op
    case Take(size) =>
      var k := FirstFit(b, size + header, 0);
      if k == |b| then b else Taken(b, k, size + header, header)
    case Give(p) =>
      var k := BlockAt(b, p - header, 0);
      if p != 0 && k < |b| then Freed(b, k) else b
  }

  /** A malloc that fails or splits, or a free of null or of an outstanding segment. */
  predicate Allowed(b: seq<Block>, op: Op, header: nat) {
    match op
    case Take(size) =>
      var k := FirstFit(b, size + header, 0);
      k == |b| || Splits(b[k], size + header, header)
    case Give(p) => p == 0 || IsOut(b, p, header)
  }

  /** p is a pointer that was handed out and not given back. */
  predicate IsOut(b: seq<Block>, p: int, header: nat) {
    var k := BlockAt(b, p - header, 0);
    k < |b| && b[k].status.Used?
  }

  function RunOf(b: seq<Block>, ops: seq<Op>, header: nat): seq<Block>
    decreases |ops|
  {
    if ops == [] then b else RunOf(Step(b, ops[0], header), ops[1..], header)
  }

  predicate RunAllowed(b: seq<Block>, ops: seq<Op>, header: nat)
    decreases |ops|
  {
    ops == [] || (Allowed(b, ops[0], header) && RunAllowed(Step(b, ops[0], header), ops[1..], header))
  }

  /** Nothing is lost and the top of the buffer is free. */
  ghost predicate Whole(b: seq<Block>) {
    && |b| > 0 && b[|b| - 1].status.Free?
    && forall k :: 0 <= k < |b| ==> !b[k].status.Lost?
  }

  /** In a whole pool no free goes wrong. */
  lemma NeverStrays(b: seq<Block>, k: nat)
    requires Whole(b) && k < |b| && b[k].status.Used?
    ensures !Strays(b, k)
  {
    assert !(|b| - 1 < FirstFree(b, k + 1));
  }

  lemma {:induction false} StepWhole(b: seq<Block>, base: int, limit: int, header: nat, op: Op)
    requires Sound(b, base, limit, header) && Whole(b) && Allowed(b, op, header)
    ensures Sound(Step(b, op, header), base, limit, header) && Whole(Step(b, op, header))
  {
    hide Sound, Whole, Taken, Freed;
    match op
    case Take(size) =>
      var k := FirstFit(b, size + header, 0);
      if k < |b| { TakenWhole(b, base, limit, header, k, size + header); }
    case Give(p) =>
      if p != 0 {
        var k := BlockAt(b, p - header, 0);
        FreedSound(b, base, limit, header, k);
        FreedWhole(b, k);
      }
  }

  lemma TakenWhole(b: seq<Block>, base: int, limit: int, header: nat, k: nat, n: int)
    requires Sound(b, base, limit, header) && Whole(b) && k < |b| && b[k].status.Free? && header <= n <= b[k].size
    requires Splits(b[k], n, header)
    ensures Sound(Taken(b, k, n, header), base, limit, header) && Whole(Taken(b, k, n, header))
  {
    hide Sound, Taken;
    TakenSound(b, base, limit, header, k, n);
    TakenLong(b, k, n, header);
    var r := Taken(b, k, n, header);
    forall m | 0 <= m < |r| ensures !r[m].status.Lost? && (m == |r| - 1 ==> r[m].status.Free?) {
      TakenAt(b, k, n, header, m);
    }
  }

  lemma FreedWhole(b: seq<Block>, k: nat)
    requires Whole(b) && k < |b|
    ensures Whole(Freed(b, k))
  {
    hide Joined, Whole;
    var b0 := b[k := b[k].(status := Free)];
    FreeWhole(b, k);
    JoinedWhole(b0, k);
    JoinedFar(b0, k);
    if k > 0 { JoinedWhole(Joined(b0, k), k - 1); }
  }

  lemma FreeWhole(b: seq<Block>, k: nat)
    requires Whole(b) && k < |b|
    ensures Whole(b[k := b[k].(status := Free)])
  {
  }

  lemma {:induction false} JoinedWhole(b: seq<Block>, k: nat)
    requires Whole(b) && k < |b|
    ensures Whole(Joined(b, k))
  {
    hide Joined;
    if k + 1 < |b| && b[k].status.Free? && b[k + 1].status.Free? {
      var r := Joined(b, k);
      JoinedAt(b, k, 0);
      forall m | 0 <= m < |r| ensures !r[m].status.Lost? && (m == |r| - 1 ==> r[m].status.Free?) {
        JoinedAt(b, k, m);
      }
    } else {
      NotJoinedAny(b, k);
    }
  }

  /** Every run of allowed calls keeps the list ordered, disjoint and coalesced, and the free
      and used bytes together equal to the buffer. */
  lemma {:induction false} RunKeeps(b: seq<Block>, base: int, limit: int, header: nat, ops: seq<Op>)
    requires Sound(b, base, limit, header) && Whole(b) && RunAllowed(b, ops, header)
    ensures var r := RunOf(b, ops, header);
      && Sound(r, base, limit, header) && Whole(r)
      && Bytes(r, Free) + Bytes(r, Used) == limit - base
    decreases |ops|
  {
    if ops == [] {
      BytesConserved(b, base, limit);
      NoneLost(b);
    } else {
      StepWhole(b, base, limit, header, ops[0]);
      RunKeeps(Step(b, ops[0], header), base, limit, header, ops[1..]);
    }
  }

  lemma {:induction false} NoneLost(b: seq<Block>)
    requires forall k :: 0 <= k < |b| ==> !b[k].status.Lost?
    ensures Bytes(b, Lost) == 0
  {
    if b != [] { NoneLost(b[..|b| - 1]); }
  }

  /** A run from the fresh pool that ends with nothing outstanding, whatever the order of its
      calls, ends with the one segment it started from. */
  lemma {:induction false} AllGivenBack(base: int, limit: int, header: nat, ops: seq<Op>)
    requires 0 < base && 0 < header <= limit - base
    requires var b := [Block(base, limit - base, Free)]; RunAllowed(b, ops, header)
    requires var b := [Block(base, limit - base, Free)];
      forall k :: 0 <= k < |RunOf(b, ops, header)| ==> !RunOf(b, ops, header)[k].status.Used?
    ensures var b := [Block(base, limit - base, Free)]; RunOf(b, ops, header) == b
  {
    var b := [Block(base, limit - base, Free)];
    RunKeeps(b, base, limit, header, ops);
    var r := RunOf(b, ops, header);
    assert |r| > 1 ==> r[0].status.Free? && r[1].status.Free?;
  }

  /** Runs the calls on a pool; the pointers they return are dropped. */
  method Drive(pool: Pool, ops: seq<Op>)
    requires pool.Valid() && Whole(pool.blocks) && RunAllowed(pool.blocks, ops, pool.header)
    requires forall i :: 0 <= i < |ops| && ops[i].Take? ==> ops[i].size + pool.header < 0x10000
    modifies pool
    ensures pool.Valid() && Whole(pool.blocks) && pool.blocks == RunOf(old(pool.blocks), ops, pool.header)
    ensures Bytes(pool.blocks, Free) + Bytes(pool.blocks, Used) == pool.limit - pool.base
  {
    hide Sound, Threaded, FreeFrom, Step, Allowed, Whole, Bytes, Strays;
    RunKeeps(pool.blocks, pool.base, pool.limit, pool.header, ops);
    var i := 0;
    while i < |ops|
      invariant i <= |ops| && pool.Valid() && Whole(pool.blocks)
      invariant RunAllowed(pool.blocks, ops[i..], pool.header)
      invariant RunOf(pool.blocks, ops[i..], pool.header) == RunOf(old(pool.blocks), ops, pool.header)
    {
      ghost var b := pool.blocks;
      StepWhole(b, pool.base, pool.limit, pool.header, ops[i]);
      assert ops[i..][0] == ops[i] && ops[i..][1..] == ops[i + 1..];
      DriveOne(pool, ops[i]);
      i := i + 1;
    }
  }

  method DriveOne(pool: Pool, op: Op)
    requires pool.Valid() && Whole(pool.blocks) && Allowed(pool.blocks, op, pool.header)
    requires op.Take? ==> op.size + pool.header < 0x10000
    modifies pool
    ensures pool.Valid() && pool.blocks == Step(old(pool.blocks), op, pool.header)
  {
    hide Sound, Threaded, FreeFrom, Taken, Freed, Strays, Splits;
    match op {
      case Take(size) => var p := pool.Malloc(size);
      case Give(p) =>
        ghost var k := if p == 0 then 0 else BlockAt(pool.blocks, p - pool.header, 0);
        if p != 0 { NeverStrays(pool.blocks, k); }
        pool.Release(p, k);
    }
  }

  // ---------------------------------------------------------------- what goes wrong otherwise

  const FRESH: seq<Block> := [Block(16, 112, Free)]

  /** A state reached by allowed calls in which a malloc that takes a whole segment drops the
      free segment above it from the list. */
  lemma LosesMemory()
    ensures var ops := [Take(24), Take(8), Give(24)];
      var b := [Block(16, 32, Free), Block(48, 16, Used), Block(64, 64, Free)];
      && RunAllowed(FRESH, ops, 8) && RunOf(FRESH, ops, 8) == b && !Allowed(b, Take(24), 8)
      && Step(b, Take(24), 8) == [Block(16, 32, Used), Block(48, 16, Used), Block(64, 64, Lost)]
  {
    hide Step, Allowed, RunOf, RunAllowed;
    HoleReached();
    var b := [Block(16, 32, Free), Block(48, 16, Used), Block(64, 64, Free)];
    WholeOne(b, 0, 24);
    assert b[1..] == [Block(48, 16, Used), Block(64, 64, Free)];
    assert Forget(b[1..]) == [Block(48, 16, Used), Block(64, 64, Lost)];
  }

  lemma HoleReached()
    ensures var ops := [Take(24), Take(8), Give(24)];
      && RunAllowed(FRESH, ops, 8)
      && RunOf(FRESH, ops, 8) == [Block(16, 32, Free), Block(48, 16, Used), Block(64, 64, Free)]
  {
    hide Step, Allowed, RunOf, RunAllowed;
    var b1 := [Block(16, 32, Used), Block(48, 80, Free)];
    var b2 := [Block(16, 32, Used), Block(48, 16, Used), Block(64, 64, Free)];
    SplitOne(FRESH, 0, 24);
    assert Step(FRESH, Take(24), 8) == b1;
    SplitOne(b1, 1, 8);
    assert Step(b1, Take(8), 8) == b2;
    GiveFirst(b2, 24);
    ThreeCalls(FRESH, Take(24), Take(8), Give(24));
  }

  /** From a fresh pool: the low part, then all of the top; with the low part given back, giving
      back the top goes wrong. */
  lemma StraysReached()
    ensures var ops := [Take(24), Take(64), Give(24)];
      var b := [Block(16, 32, Free), Block(48, 80, Used)];
      RunOf(FRESH, ops, 8) == b && Bytes(b, Lost) == 0 && IsOut(b, 56, 8) && BlockAt(b, 48, 0) == 1 && Strays(b, 1)
  {
    hide Step, Allowed, RunOf, RunAllowed;
    var b1 := [Block(16, 32, Used), Block(48, 80, Free)];
    var b2 := [Block(16, 32, Used), Block(48, 80, Used)];
    var b := [Block(16, 32, Free), Block(48, 80, Used)];
    SplitOne(FRESH, 0, 24);
    assert Step(FRESH, Take(24), 8) == b1;
    WholeOne(b1, 1, 64);
    assert Forget(b1[2..]) == [];
    assert Step(b1, Take(64), 8) == b2;
    GiveFirst(b2, 24);
    ThreeCalls(FRESH, Take(24), Take(64), Give(24));
    NoneLost(b);
    assert FirstFree(b, 2) == 2 && FirstFree(b, 0) == 0;
    assert BlockAt(b, 48, 1) == 1;
  }

  lemma ThreeCalls(b: seq<Block>, x: Op, y: Op, z: Op)
    ensures RunOf(b, [x, y, z], 8) == Step(Step(Step(b, x, 8), y, 8), z, 8)
    ensures Allowed(b, x, 8) && Allowed(Step(b, x, 8), y, 8) && Allowed(Step(Step(b, x, 8), y, 8), z, 8)
      ==> RunAllowed(b, [x, y, z], 8)
  {
    hide Step, Allowed;
    assert [x, y, z][1..] == [y, z] && [y, z][1..] == [z] && [z][1..] == [];
    var b1 := Step(b, x, 8);
    var b2 := Step(b1, y, 8);
    assert RunOf(b2, [z], 8) == RunOf(Step(b2, z, 8), [], 8);
    assert RunOf(b1, [y, z], 8) == RunOf(b2, [z], 8);
    assert RunAllowed(b2, [z], 8) <==> Allowed(b2, z, 8) && RunAllowed(Step(b2, z, 8), [], 8);
    assert RunAllowed(b1, [y, z], 8) <==> Allowed(b1, y, 8) && RunAllowed(b2, [z], 8);
  }

  /** Block k is the first with room, and is split. */
  lemma SplitOne(b: seq<Block>, k: nat, size: nat)
    requires k < |b| && b[k].status.Free? && Splits(b[k], size + 8, 8)
    requires forall m :: 0 <= m < k ==> !b[m].status.Free?
    ensures var n := size + 8;
      Step(b, Take(size), 8) == b[..k] + [Block(b[k].addr, n, Used), Block(b[k].addr + n, b[k].size - n, Free)] + b[k + 1..]
    ensures Allowed(b, Take(size), 8)
  {
    FirstFitIs(b, size + 8, k);
  }

  lemma WholeOne(b: seq<Block>, k: nat, size: nat)
    requires k < |b| && b[k].status.Free? && b[k].size >= size + 8 && !Splits(b[k], size + 8, 8)
    requires forall m :: 0 <= m < k ==> !b[m].status.Free?
    ensures Step(b, Take(size), 8) == b[..k] + [b[k].(status := Used)] + Forget(b[k + 1..])
    ensures !Allowed(b, Take(size), 8)
  {
    FirstFitIs(b, size + 8, k);
  }

  /** The first block, with no free neighbour, is given back. */
  lemma GiveFirst(b: seq<Block>, p: int)
    requires |b| > 1 && b[0].addr == p - 8 && p != 0 && b[0].status.Used? && b[1].status.Used?
    ensures Step(b, Give(p), 8) == b[0 := b[0].(status := Free)] && Allowed(b, Give(p), 8)
  {
    assert BlockAt(b, p - 8, 0) == 0;
  }
}
