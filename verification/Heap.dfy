/**
  The kernel heap of src/mm/heap.cpp: first fit with splitting, and coalescing on both
  sides, over a doubly linked list of block headers in address order.

  `Blk` lists are the heap as values; the class keeps the headers themselves, linked
  through addresses as in the kernel.
 */
module Heap {
  import opened Machine

  const HEAP_SIZE: nat := 1024 * 1024
  const HEADER: nat := 32            // sizeof(Block)
  const MIN_BLOCK: nat := 16
  const ALIGNMENT: nat := 8

  /** A block at an address, with the size of its payload. */
  datatype Blk = Blk(addr: nat, size: nat, used: bool)

  function Payload(b: Blk): (ptr: nat) { b.addr + HEADER }
  function EndOf(b: Blk): (addr: nat) { b.addr + HEADER + b.size }

  // ------------------------------------------------------------ operations on lists

  /** The size kmalloc looks for: aligned in 64-bit arithmetic, at least MIN_BLOCK. */
  function Rounded(size: u64): (need: nat)
  {
    var aligned := (size + ALIGNMENT - 1) % U64 / ALIGNMENT * ALIGNMENT;
    if aligned < MIN_BLOCK then MIN_BLOCK else aligned
  }

  predicate Fits(b: Blk, need: nat) { !b.used && b.size >= need }

  /** The first block that fits, or the length of the list. */
  function FirstFit(bs: seq<Blk>, need: nat): (k: nat)
    ensures k <= |bs|
    ensures k < |bs| ==> Fits(bs[k], need)
    ensures forall i :: 0 <= i < k ==> !Fits(bs[i], need)
  {
    if bs == [] then 0
    else if Fits(bs[0], need) then 0
    else
      var k := FirstFit(bs[1..], need);
      assert forall i :: 0 < i < k + 1 ==> bs[i] == bs[1..][i - 1];
      k + 1
  }

  /** Giving out block k: the tail is split off when it can hold a block of its own. */
  function Take(bs: seq<Blk>, k: nat, need: nat): (r: seq<Blk>)
    requires k < |bs| && need <= bs[k].size
  {
    var b := bs[k];
    if b.size >= need + HEADER + MIN_BLOCK then
      bs[..k] + [Blk(b.addr, need, true), Blk(b.addr + HEADER + need, b.size - need - HEADER, false)] + bs[k + 1..]
    else bs[k := b.(used := true)]
  }

  function Malloc(bs: seq<Blk>, size: u64): (r: (seq<Blk>, nat))
  {
    if size == 0 then (bs, 0)
    else
      var k := FirstFit(bs, Rounded(size));
      if k == |bs| then (bs, 0) else (Take(bs, k, Rounded(size)), Payload(bs[k]))
  }

  /** Joining block k with its right neighbour. */
  function Merge(bs: seq<Blk>, k: nat): (r: seq<Blk>)
    requires k + 1 < |bs|
    ensures |r| == |bs| - 1
  {
    bs[..k] + [bs[k].(size := bs[k].size + HEADER + bs[k + 1].size)] + bs[k + 2..]
  }

  function JoinNext(bs: seq<Blk>, k: nat): (r: seq<Blk>)
    requires k < |bs|
  {
    if k + 1 < |bs| && !bs[k + 1].used then Merge(bs, k) else bs
  }

  function JoinPrevious(bs: seq<Blk>, k: nat): (r: seq<Blk>)
    requires k < |bs|
  {
    if k > 0 && !bs[k - 1].used then Merge(bs, k - 1) else bs
  }

  /** kfree of block k: free it, then coalesce with the next and with the previous block. */
  function Release(bs: seq<Blk>, k: nat): (r: seq<Blk>)
    requires k < |bs|
  {
    JoinPrevious(JoinNext(bs[k := bs[k].(used := false)], k), k)
  }

  predicate Live(bs: seq<Blk>, ptr: nat)
  {
    exists k :: 0 <= k < |bs| && bs[k].used && Payload(bs[k]) == ptr
  }

  /** The block whose header lies before ptr. */
  function IndexOf(bs: seq<Blk>, ptr: nat): (k: nat)
    requires Live(bs, ptr)
    ensures k < |bs| && bs[k].used && Payload(bs[k]) == ptr
  {
    if bs[0].used && Payload(bs[0]) == ptr then 0
    else
      assert Live(bs[1..], ptr) by {
        var k :| 0 <= k < |bs| && bs[k].used && Payload(bs[k]) == ptr;
        assert bs[1..][k - 1] == bs[k];
      }
      1 + IndexOf(bs[1..], ptr)
  }

  function Free(bs: seq<Blk>, ptr: nat): (r: seq<Blk>)
    requires Live(bs, ptr)
  {
    Release(bs, IndexOf(bs, ptr))
  }

  // ------------------------------------------------------------ the invariant

  /** The blocks cover [base, base + HEAP_SIZE) without gaps or overlaps. */
  predicate Tiles(bs: seq<Blk>, base: nat)
  {
    && |bs| > 0 && bs[0].addr == base && EndOf(bs[|bs| - 1]) == base + HEAP_SIZE
    && forall i, j :: 0 <= i < |bs| - 1 && j == i + 1 ==> bs[j].addr == EndOf(bs[i])
  }

  predicate SizeOk(n: nat) { n % ALIGNMENT == 0 && n >= MIN_BLOCK }

  predicate SizesOk(bs: seq<Blk>)
  {
    forall i :: 0 <= i < |bs| ==> SizeOk(bs[i].size)
  }

  predicate Coalesced(bs: seq<Blk>)
  {
    forall i, j :: 0 <= i < |bs| - 1 && j == i + 1 ==> bs[i].used || bs[j].used
  }

  predicate Inv(bs: seq<Blk>, base: nat)
  {
    base % ALIGNMENT == 0 && Tiles(bs, base) && SizesOk(bs) && Coalesced(bs)
  }

  function Initial(base: nat): (bs: seq<Blk>) { [Blk(base, HEAP_SIZE - HEADER, false)] }

  lemma RoundedBounds(size: u64)
    ensures Rounded(size) % ALIGNMENT == 0 && Rounded(size) >= MIN_BLOCK
    ensures size <= U64 - 8 ==> size <= Rounded(size)
    ensures size > U64 - 8 ==> Rounded(size) == MIN_BLOCK
  {
    if size > U64 - 8 {
      assert (size + 7) % U64 == size + 7 - U64;
    } else {
      assert (size + 7) % U64 == size + 7;
    }
  }

  /** Up to 2^64-8 the size looked for is the least multiple of 8 that covers the request and 16. */
  lemma RoundedIsLeast(size: u64, m: nat)
    requires size <= U64 - 8 && m % 8 == 0 && m >= size && m >= 16
    ensures Rounded(size) <= m && Rounded(size) >= size && Rounded(size) % 8 == 0 && Rounded(size) >= 16
  {
    RoundedBounds(size);
    assert (size + 7) % U64 == size + 7;
    LeastMultiple(size, m);
  }

  lemma LeastMultiple(size: nat, m: nat)
    requires m % 8 == 0 && m >= size
    ensures (size + 7) / 8 * 8 <= m
  {
    assert m == m / 8 * 8 && (size + 7) / 8 <= m / 8;
  }

  lemma TakeKeepsInv(bs: seq<Blk>, base: nat, k: nat, need: nat)
    requires Inv(bs, base) && k < |bs| && Fits(bs[k], need) && SizeOk(need)
    ensures Inv(Take(bs, k, need), base)
  {
    hide SizeOk;
    var r, b := Take(bs, k, need), bs[k];
    if b.size >= need + HEADER + MIN_BLOCK {
      TakeSplits(bs, k, need);
      SizeOfRest(b.size, need);
      forall i | 0 <= i < |r| ensures SizeOk(r[i].size) {
        if i != k && i != k + 1 { assert r[i] == bs[if i < k then i else i - 1]; }
      }
    }
  }

  /** The list once block k is split in two. */
  lemma TakeSplits(bs: seq<Blk>, k: nat, need: nat)
    requires k < |bs| && need + HEADER + MIN_BLOCK <= bs[k].size
    ensures var r, b := Take(bs, k, need), bs[k];
      && |r| == |bs| + 1 && r[k] == Blk(b.addr, need, true)
      && r[k + 1] == Blk(b.addr + HEADER + need, b.size - need - HEADER, false)
      && (forall i :: 0 <= i < k ==> r[i] == bs[i]) && (forall i :: k + 1 < i < |r| ==> r[i] == bs[i - 1])
  {
    hide EndOf;
    var r, b, rest := Take(bs, k, need), bs[k], bs[k + 1..];
    var two := [Blk(b.addr, need, true), Blk(b.addr + HEADER + need, b.size - need - HEADER, false)];
    assert r == bs[..k] + two + rest;
    assert r[k] == two[0] && r[k + 1] == two[1];
    forall i | k + 1 < i < |r| ensures r[i] == bs[i - 1] {
      assert r[i] == rest[i - k - 2];
    }
  }

  lemma SizeOfRest(size: nat, need: nat)
    requires SizeOk(size) && SizeOk(need) && size >= need + HEADER + MIN_BLOCK
    ensures SizeOk(size - need - HEADER)
  {
  }

  lemma SizeOfBoth(a: nat, b: nat)
    requires SizeOk(a) && SizeOk(b)
    ensures SizeOk(a + HEADER + b)
  {
  }

  lemma MergeKeeps(bs: seq<Blk>, base: nat, k: nat)
    requires Tiles(bs, base) && SizesOk(bs) && k + 1 < |bs|
    ensures Tiles(Merge(bs, k), base) && SizesOk(Merge(bs, k))
  {
    hide SizeOk;
    var r := Merge(bs, k);
    SizeOfBoth(bs[k].size, bs[k + 1].size);
    forall i | 0 <= i < |r| ensures SizeOk(r[i].size) {
      if i != k { assert r[i] == bs[if i < k then i else i + 1]; }
    }
  }

  /** No two neighbours are free, not counting the pairs listed in `but`. */
  predicate CoalescedBut(bs: seq<Blk>, but: set<int>)
  {
    forall i, j :: 0 <= i < |bs| - 1 && j == i + 1 && i !in but ==> bs[i].used || bs[j].used
  }

  lemma JoinNextKeeps(bs: seq<Blk>, base: nat, k: nat)
    requires Tiles(bs, base) && SizesOk(bs) && k < |bs| && !bs[k].used && CoalescedBut(bs, {k - 1, k})
    ensures var r := JoinNext(bs, k);
      Tiles(r, base) && SizesOk(r) && k < |r| && !r[k].used && CoalescedBut(r, {k - 1})
  {
    hide Tiles, SizesOk;
    if k + 1 < |bs| && !bs[k + 1].used {
      MergeKeeps(bs, base, k);
      var r := Merge(bs, k);
      forall i | 0 <= i < |r| - 1 && i !in {k - 1} ensures r[i].used || r[i + 1].used {
        if i < k { assert r[i] == bs[i] && r[i + 1] == bs[i + 1]; }
        else { assert r[i + 1] == bs[i + 2]; }
      }
    }
  }

  lemma JoinPreviousKeeps(bs: seq<Blk>, base: nat, k: nat)
    requires Tiles(bs, base) && SizesOk(bs) && k < |bs| && !bs[k].used && CoalescedBut(bs, {k - 1})
    ensures var r := JoinPrevious(bs, k);
      Tiles(r, base) && SizesOk(r) && Coalesced(r)
  {
    hide Tiles, SizesOk;
    if k > 0 && !bs[k - 1].used {
      MergeKeeps(bs, base, k - 1);
      var r := Merge(bs, k - 1);
      forall i | 0 <= i < |r| - 1 ensures r[i].used || r[i + 1].used {
        if i < k - 1 { assert r[i] == bs[i] && r[i + 1].used == bs[i + 1].used; }
        else { assert r[i + 1] == bs[i + 2]; }
      }
    }
  }

  lemma ReleaseKeepsInv(bs: seq<Blk>, base: nat, k: nat)
    requires Inv(bs, base) && k < |bs|
    ensures Inv(Release(bs, k), base)
  {
    var freed := bs[k := bs[k].(used := false)];
    assert CoalescedBut(freed, {k - 1, k});
    JoinNextKeeps(freed, base, k);
    JoinPreviousKeeps(JoinNext(freed, k), base, k);
  }

  // ------------------------------------------------------------ consequences of the invariant

  lemma {:induction false} Ordered(bs: seq<Blk>, base: nat, i: nat, j: nat)
    requires Tiles(bs, base) && i < j < |bs|
    ensures EndOf(bs[i]) <= bs[j].addr
    decreases j
  {
    if i + 1 < j { Ordered(bs, base, i, j - 1); }
    assert bs[j - 1 + 1].addr == EndOf(bs[j - 1]);
  }

  lemma {:induction false} Within(bs: seq<Blk>, base: nat, i: nat)
    requires Tiles(bs, base) && i < |bs|
    ensures base <= bs[i].addr && EndOf(bs[i]) <= base + HEAP_SIZE
  {
    if i > 0 { Ordered(bs, base, 0, i); }
    if i < |bs| - 1 { Ordered(bs, base, i, |bs| - 1); }
  }

  lemma {:induction false} Aligned(bs: seq<Blk>, base: nat, i: nat)
    requires Inv(bs, base) && i < |bs|
    ensures bs[i].addr % ALIGNMENT == 0 && Payload(bs[i]) % ALIGNMENT == 0
  {
    if i > 0 {
      Aligned(bs, base, i - 1);
      assert bs[i - 1 + 1].addr == EndOf(bs[i - 1]);
    }
  }

  function LiveBlocks(bs: seq<Blk>): (s: set<Blk>)
  {
    set b | b in bs && b.used
  }

  /** Live payloads lie inside the heap, are aligned, and do not overlap each other or any header. */
  lemma LivePayloads(bs: seq<Blk>, base: nat, b: Blk, c: Blk)
    requires Inv(bs, base) && b in LiveBlocks(bs) && c in bs && b != c
    ensures base + HEADER <= Payload(b) && EndOf(b) <= base + HEAP_SIZE
    ensures Payload(b) % ALIGNMENT == 0 && b.size >= MIN_BLOCK
    ensures EndOf(b) <= c.addr || EndOf(c) <= b.addr
  {
    var i :| 0 <= i < |bs| && bs[i] == b;
    var j :| 0 <= j < |bs| && bs[j] == c;
    Within(bs, base, i);
    Aligned(bs, base, i);
    if i < j { Ordered(bs, base, i, j); } else { Ordered(bs, base, j, i); }
  }

  lemma PayloadDetermines(bs: seq<Blk>, base: nat, i: nat, j: nat)
    requires Inv(bs, base) && i < |bs| && j < |bs| && Payload(bs[i]) == Payload(bs[j])
    ensures i == j
  {
    if i < j { Ordered(bs, base, i, j); } else if j < i { Ordered(bs, base, j, i); }
  }

  function SumSizes(bs: seq<Blk>, used: bool): (n: nat)
  {
    if bs == [] then 0
    else SumSizes(bs[..|bs| - 1], used) + if bs[|bs| - 1].used == used then bs[|bs| - 1].size else 0
  }

  lemma {:induction false} SumOfPrefix(bs: seq<Blk>, base: nat, n: nat)
    requires Tiles(bs, base) && 0 < n <= |bs|
    ensures SumSizes(bs[..n], true) + SumSizes(bs[..n], false) + HEADER * n == EndOf(bs[n - 1]) - base
  {
    assert bs[..n][..n - 1] == bs[..n - 1];
    if n == 1 {
      assert SumSizes(bs[..1][..0], true) == 0 && SumSizes(bs[..1][..0], false) == 0;
    } else {
      SumOfPrefix(bs, base, n - 1);
      assert bs[n - 2 + 1].addr == EndOf(bs[n - 2]);
    }
  }

  /** get_used + get_free + headers account for the whole heap. */
  lemma Accounting(bs: seq<Blk>, base: nat)
    requires Tiles(bs, base)
    ensures SumSizes(bs, true) + SumSizes(bs, false) + HEADER * |bs| == HEAP_SIZE
  {
    SumOfPrefix(bs, base, |bs|);
    assert bs[..|bs|] == bs;
  }

  lemma NeighbourUsed(bs: seq<Blk>, i: nat)
    requires Coalesced(bs) && i + 1 < |bs|
    ensures bs[i].used || bs[i + 1].used
  {
  }

  /** With nothing live, the heap is one free block again. */
  lemma NothingLive(bs: seq<Blk>, base: nat)
    requires Inv(bs, base) && LiveBlocks(bs) == {}
    ensures bs == Initial(base)
  {
    assert forall i :: 0 <= i < |bs| ==> (bs[i].used ==> bs[i] in LiveBlocks(bs));
    if |bs| > 1 { NeighbourUsed(bs, 0); }
  }

  // ------------------------------------------------------------ what the operations do

  /** kmalloc fails exactly on size 0 or when no free block holds the rounded size. */
  lemma MallocFailsIff(bs: seq<Blk>, base: nat, size: u64)
    requires Inv(bs, base)
    ensures Malloc(bs, size).1 == 0 <==> size == 0 || forall b :: b in bs && !b.used ==> b.size < Rounded(size)
    ensures Malloc(bs, size).1 == 0 ==> Malloc(bs, size).0 == bs
  {
    var k := FirstFit(bs, Rounded(size));
    if k < |bs| { assert Fits(bs[k], Rounded(size)) && bs[k] in bs; }
  }

  /** For any request that does not wrap: null exactly if no free block is large enough for it. */
  lemma MallocFailsOnlyWhenFull(bs: seq<Blk>, base: nat, size: u64)
    requires Inv(bs, base) && 0 < size <= U64 - 8
    ensures Malloc(bs, size).1 == 0 <==> forall b :: b in bs && !b.used ==> b.size < size
  {
    MallocFailsIff(bs, base, size);
    forall b | b in bs ensures b.size < Rounded(size) <==> b.size < size {
      var i :| 0 <= i < |bs| && bs[i] == b;
      assert SizeOk(bs[i].size);
      if b.size >= size { RoundedIsLeast(size, b.size); } else { RoundedBounds(size); }
    }
  }

  /** The block given out is the first free one that is large enough, and a rest that can be a block is cut off it. */
  lemma MallocIsFirstFit(bs: seq<Blk>, base: nat, size: u64, k: nat)
    requires Inv(bs, base) && Malloc(bs, size).1 != 0
    requires k < |bs| && !bs[k].used && bs[k].size >= Rounded(size)
    requires forall i :: 0 <= i < k ==> bs[i].used || bs[i].size < Rounded(size)
    ensures var (r, ptr), b := Malloc(bs, size), bs[k];
      && ptr == b.addr + 32 && k < |r| && r[k].addr == b.addr && r[k].used
      && Rounded(size) <= r[k].size < Rounded(size) + 48
      && (if r[k].size == b.size then r == bs[k := r[k]]
          else
            && r[k].size == Rounded(size) && |r| == |bs| + 1
            && r[k + 1] == Blk(b.addr + 32 + r[k].size, b.size - r[k].size - 32, false)
            && r[..k] == bs[..k] && r[k + 2..] == bs[k + 1..])
  {
    FirstFitIs(bs, Rounded(size), k);
  }

  /** At boot a request of 2^64-1 bytes is granted, with 16. */
  lemma HugeRequestIsGranted(base: nat)
    ensures var (r, ptr) := Malloc(Initial(base), U64 - 1);
      ptr == base + HEADER && r[0] == Blk(base, MIN_BLOCK, true)
  {
    RoundedBounds(U64 - 1);
  }

  /** The block handed out holds the request unless the request wrapped around in 64 bits. */
  lemma MallocServesIff(bs: seq<Blk>, base: nat, size: u64)
    requires Inv(bs, base) && Malloc(bs, size).1 != 0
    ensures var (r, ptr) := Malloc(bs, size);
      exists b :: b in LiveBlocks(r) && Payload(b) == ptr && (size <= b.size <==> size <= U64 - 8)
  {
    var k := FirstFit(bs, Rounded(size));
    RoundedBounds(size);
    TakeLive(bs, base, k, Rounded(size));
    Within(bs, base, k);
    var room := if bs[k].size >= Rounded(size) + HEADER + MIN_BLOCK then Rounded(size) else bs[k].size;
    var given := Blk(bs[k].addr, room, true);
    assert given in LiveBlocks(Malloc(bs, size).0);
  }

  /** Giving out a block adds one live block and leaves the live ones where they are. */
  lemma TakeLive(bs: seq<Blk>, base: nat, k: nat, need: nat)
    requires Inv(bs, base) && k < |bs| && Fits(bs[k], need)
    ensures var size := if bs[k].size >= need + HEADER + MIN_BLOCK then need else bs[k].size;
      LiveBlocks(Take(bs, k, need)) == LiveBlocks(bs) + {Blk(bs[k].addr, size, true)}
  {
    var r := Take(bs, k, need);
    var size := if bs[k].size >= need + HEADER + MIN_BLOCK then need else bs[k].size;
    var new_ := Blk(bs[k].addr, size, true);
    assert r[k] == new_;
    forall b | b in LiveBlocks(bs) ensures b in r {
      var i :| 0 <= i < |bs| && bs[i] == b;
      assert i != k;
      if |r| == |bs| || i < k { assert r[i] == b; } else { assert r[i + 1] == b; }
    }
    forall b | b in LiveBlocks(r) ensures b == new_ || b in bs {
      var i :| 0 <= i < |r| && r[i] == b;
      if i < k || (|r| == |bs| && i != k) { assert b == bs[i]; }
      else if i > k { assert i >= k + 2 && b == bs[i - 1]; }
    }
  }

  lemma MergeLive(bs: seq<Blk>, k: nat)
    requires k + 1 < |bs| && !bs[k].used && !bs[k + 1].used
    ensures LiveBlocks(Merge(bs, k)) == LiveBlocks(bs)
  {
    var r := Merge(bs, k);
    forall b | b in LiveBlocks(bs) ensures b in r {
      var i :| 0 <= i < |bs| && bs[i] == b;
      if i < k { assert r[i] == b; } else { assert r[i - 1] == b; }
    }
    forall b | b in LiveBlocks(r) ensures b in bs {
      var i :| 0 <= i < |r| && r[i] == b;
      if i < k { assert bs[i] == b; } else { assert bs[i + 1] == b; }
    }
  }

  /** Freeing removes one live block and leaves the others where they are. */
  lemma ReleaseLive(bs: seq<Blk>, base: nat, k: nat)
    requires Inv(bs, base) && k < |bs| && bs[k].used
    ensures LiveBlocks(Release(bs, k)) == LiveBlocks(bs) - {bs[k]}
  {
    var b1 := bs[k := bs[k].(used := false)];
    assert LiveBlocks(b1) == LiveBlocks(bs) - {bs[k]} by {
      forall b | b in LiveBlocks(bs) && b != bs[k] ensures b in b1 {
        var i :| 0 <= i < |bs| && bs[i] == b;
        assert b1[i] == b;
      }
      forall b | b in LiveBlocks(b1) ensures b in bs && b != bs[k] {
        var i :| 0 <= i < |b1| && b1[i] == b;
        if b == bs[k] { PayloadDetermines(bs, base, i, k); }
      }
    }
    if k + 1 < |b1| && !b1[k + 1].used { MergeLive(b1, k); }
    var b2 := JoinNext(b1, k);
    assert k > 0 ==> b2[k - 1] == bs[k - 1];
    if k > 0 && !b2[k - 1].used { MergeLive(b2, k - 1); }
  }

  /** kfree undoes kmalloc: the exact block list comes back. */
  lemma FreeUndoesMalloc(bs: seq<Blk>, base: nat, size: u64)
    requires Inv(bs, base) && Malloc(bs, size).1 != 0
    ensures var (r, ptr) := Malloc(bs, size);
      Live(r, ptr) && Free(r, ptr) == bs
  {
    var need := Rounded(size);
    var k := FirstFit(bs, need);
    var r := Take(bs, k, need);
    RoundedBounds(size);
    TakeKeepsInv(bs, base, k, need);
    assert r[k].used && Payload(r[k]) == Payload(bs[k]);
    PayloadDetermines(r, base, IndexOf(r, Payload(bs[k])), k);
    TakeThenRelease(bs, base, k, need);
  }

  lemma TakeThenRelease(bs: seq<Blk>, base: nat, k: nat, need: nat)
    requires Inv(bs, base) && k < |bs| && Fits(bs[k], need)
    ensures Release(Take(bs, k, need), k) == bs
  {
    var r := Take(bs, k, need);
    var freed := r[k := r[k].(used := false)];
    if k > 0 { NeighbourUsed(bs, k - 1); }
    if k + 1 < |bs| { NeighbourUsed(bs, k); }
    if |r| == |bs| {
      assert freed == bs;
    } else {
      assert JoinNext(freed, k) == bs;
    }
  }

  // ------------------------------------------------------------ whole runs

  datatype Op = Alloc(size: u64) | Dealloc(ptr: nat)

  /** The heap together with the requests that are still outstanding. */
  datatype Run = Run(bs: seq<Blk>, requests: map<nat, u64>)

  predicate Allowed(s: Run, op: Op) { op.Dealloc? ==> Live(s.bs, op.ptr) }

  function Step(s: Run, op: Op): (r: Run)
    requires Allowed(s, op)
  {
    match op
    case Alloc(size) =>
      var (bs, ptr) := Malloc(s.bs, size);
      if ptr == 0 then s.(bs := bs) else Run(bs, s.requests[ptr := size])
    case Dealloc(ptr) => Run(Free(s.bs, ptr), s.requests - {ptr})
  }

  /** The requests are those of the live blocks, and each is served by a payload that holds it. */
  ghost predicate Served(live: set<Blk>, requests: map<nat, u64>)
  {
    && (forall b, c :: b in live && c in live && Payload(b) == Payload(c) ==> b == c)
    && requests.Keys == (set b | b in live :: Payload(b))
    && (forall b :: b in live && requests[Payload(b)] <= U64 - 8 ==> requests[Payload(b)] <= b.size)
  }

  ghost predicate Good(s: Run, base: nat) { Inv(s.bs, base) && Served(LiveBlocks(s.bs), s.requests) }

  lemma ServedAdd(live: set<Blk>, requests: map<nat, u64>, b: Blk, size: u64)
    requires Served(live, requests) && Payload(b) !in requests && (size <= U64 - 8 ==> size <= b.size)
    ensures Served(live + {b}, requests[Payload(b) := size])
  {
    assert forall c :: c in live ==> Payload(c) in requests.Keys;
  }

  lemma ServedRemove(live: set<Blk>, requests: map<nat, u64>, b: Blk)
    requires Served(live, requests) && b in live
    ensures Served(live - {b}, requests - {Payload(b)})
  {
  }

  lemma StepAllocKeeps(s: Run, base: nat, size: u64)
    requires Good(s, base)
    ensures Good(Step(s, Alloc(size)), base)
  {
    var need := Rounded(size);
    var k := FirstFit(s.bs, need);
    RoundedBounds(size);
    if size != 0 && k < |s.bs| {
      TakeKeepsInv(s.bs, base, k, need);
      TakeLive(s.bs, base, k, need);
      FreePayloadIsNew(s.bs, base, k);
      var given := Blk(s.bs[k].addr, if s.bs[k].size >= need + HEADER + MIN_BLOCK then need else s.bs[k].size, true);
      ServedAdd(LiveBlocks(s.bs), s.requests, given, size);
    }
  }

  lemma FreePayloadIsNew(bs: seq<Blk>, base: nat, k: nat)
    requires Inv(bs, base) && k < |bs| && !bs[k].used
    ensures forall b :: b in LiveBlocks(bs) ==> Payload(b) != Payload(bs[k])
  {
    forall b | b in LiveBlocks(bs) ensures Payload(b) != Payload(bs[k]) {
      var i :| 0 <= i < |bs| && bs[i] == b;
      if i < k { Ordered(bs, base, i, k); } else { Ordered(bs, base, k, i); }
    }
  }

  lemma StepDeallocKeeps(s: Run, base: nat, ptr: nat)
    requires Good(s, base) && Live(s.bs, ptr)
    ensures Good(Step(s, Dealloc(ptr)), base)
  {
    var k := IndexOf(s.bs, ptr);
    ReleaseKeepsInv(s.bs, base, k);
    ReleaseLive(s.bs, base, k);
    ServedRemove(LiveBlocks(s.bs), s.requests, s.bs[k]);
  }

  ghost predicate RunAllowed(s: Run, ops: seq<Op>)
    decreases |ops|
  {
    ops == [] || (Allowed(s, ops[0]) && RunAllowed(Step(s, ops[0]), ops[1..]))
  }

  ghost function Execute(s: Run, ops: seq<Op>): (r: Run)
    requires RunAllowed(s, ops)
    decreases |ops|
  {
    if ops == [] then s else Execute(Step(s, ops[0]), ops[1..])
  }

  /** Every run of kmalloc and kfree of live pointers keeps the heap well formed and every request served. */
  lemma {:induction false} RunKeepsInvariant(s: Run, base: nat, ops: seq<Op>)
    requires Good(s, base) && RunAllowed(s, ops)
    ensures Good(Execute(s, ops), base)
    decreases |ops|
  {
    if ops != [] {
      match ops[0] {
        case Alloc(size) => StepAllocKeeps(s, base, size);
        case Dealloc(ptr) => StepDeallocKeeps(s, base, ptr);
      }
      RunKeepsInvariant(Step(s, ops[0]), base, ops[1..]);
    }
  }

  /** A run that returns everything it was given, in whatever order, ends with the heap it started from. */
  lemma RunReturnsToInitial(base: nat, ops: seq<Op>)
    requires base % ALIGNMENT == 0
    requires RunAllowed(Run(Initial(base), map[]), ops)
    ensures var r := Execute(Run(Initial(base), map[]), ops);
      r.requests == map[] <==> r.bs == Initial(base)
  {
    var s := Run(Initial(base), map[]);
    assert Good(s, base);
    RunKeepsInvariant(s, base, ops);
    var r := Execute(s, ops);
    if r.requests == map[] {
      assert forall b :: b in LiveBlocks(r.bs) ==> Payload(b) in r.requests.Keys;
      NothingLive(r.bs, base);
    }
    if r.bs == Initial(base) {
      assert LiveBlocks(r.bs) == {};
      assert r.requests.Keys == {};
    }
  }

  // ------------------------------------------------------------ the linked headers

  /** struct Block, at the start of each block; address 0 is the null pointer. */
  datatype Block = Block(size: nat, used: bool, next: nat, prev: nat)

  type Headers = map<nat, Block>

  function AddrAt(bs: seq<Blk>, i: int): (addr: nat)
  {
    if 0 <= i < |bs| then bs[i].addr else 0
  }

  function HeaderOf(bs: seq<Blk>, i: nat): (h: Block)
    requires i < |bs|
  {
    Block(bs[i].size, bs[i].used, AddrAt(bs, i + 1), AddrAt(bs, i - 1))
  }

  /** The list of blocks is what following `next` from the first header gives, and `prev` goes back. */
  ghost predicate Linked(h: Headers, bs: seq<Blk>)
  {
    forall i :: 0 <= i < |bs| ==> HeaderAt(h, bs, i)
  }

  predicate HeaderAt(h: Headers, bs: seq<Blk>, i: nat)
    requires i < |bs|
  {
    bs[i].addr in h && h[bs[i].addr] == HeaderOf(bs, i)
  }

  /** Splitting: the new header goes in between, the old neighbour is relinked. */
  function SplitHeaders(h: Headers, block: nat, need: nat): (r: Headers)
    requires block in h && (h[block].next != 0 ==> h[block].next in h) && h[block].size >= need + HEADER
  {
    var b := h[block];
    var fresh_ := block + HEADER + need;
    var h1 := h[fresh_ := Block(b.size - need - HEADER, false, b.next, block)];
    var h2 := if b.next != 0 then h1[b.next := h1[b.next].(prev := fresh_)] else h1;
    var h3 := h2[block := h2[block].(next := fresh_, size := need)];
    h3[block := h3[block].(used := true)]
  }

  /** Absorbing the next block. */
  function MergeHeaders(h: Headers, block: nat): (r: Headers)
    requires block in h && h[block].next in h && (h[h[block].next].next != 0 ==> h[h[block].next].next in h)
  {
    var n := h[h[block].next];
    var h1 := h[block := h[block].(size := h[block].size + HEADER + n.size, next := n.next)];
    if n.next != 0 then h1[n.next := h1[n.next].(prev := block)] else h1
  }

  predicate Increasing(bs: seq<Blk>)
  {
    && (forall i :: 0 <= i < |bs| ==> bs[i].addr > 0)
    && (forall i, j :: 0 <= i < j < |bs| ==> bs[i].addr < bs[j].addr)
  }

  lemma TilesIncrease(bs: seq<Blk>, base: nat)
    requires Tiles(bs, base) && base > 0
    ensures Increasing(bs)
  {
    forall i | 0 <= i < |bs| ensures bs[i].addr > 0 { Within(bs, base, i); }
    forall i, j | 0 <= i < j < |bs| ensures bs[i].addr < bs[j].addr { Ordered(bs, base, i, j); }
  }

  lemma LinkedNext(h: Headers, bs: seq<Blk>, k: nat)
    requires Increasing(bs) && Linked(h, bs) && k < |bs|
    ensures bs[k].addr in h && h[bs[k].addr] == HeaderOf(bs, k)
    ensures h[bs[k].addr].next != 0 <==> k + 1 < |bs|
    ensures h[bs[k].addr].prev != 0 <==> k > 0
    ensures k + 1 < |bs| ==> h[bs[k].addr].next == bs[k + 1].addr && bs[k + 1].addr in h
    ensures k > 0 ==> h[bs[k].addr].prev == bs[k - 1].addr && bs[k - 1].addr in h
  {
    assert HeaderAt(h, bs, k);
    if k + 1 < |bs| { assert HeaderAt(h, bs, k + 1); }
    if k > 0 { assert HeaderAt(h, bs, k - 1); }
  }

  lemma SplitHeaderOf(bs: seq<Blk>, k: nat, need: nat, i: nat)
    requires k < |bs| && bs[k].size >= need + HEADER + MIN_BLOCK && i <= |bs|
    ensures |Take(bs, k, need)| == |bs| + 1
    ensures var r, at := Take(bs, k, need), bs[k].addr + HEADER + need;
      r[i].addr == (if i <= k then bs[i].addr else if i == k + 1 then at else bs[i - 1].addr)
      && HeaderOf(r, i) ==
        if i < k then HeaderOf(bs, i)
        else if i == k then Block(need, true, at, AddrAt(bs, k - 1))
        else if i == k + 1 then Block(bs[k].size - need - HEADER, false, AddrAt(bs, k + 1), bs[k].addr)
        else if i == k + 2 then HeaderOf(bs, k + 1).(prev := at)
        else HeaderOf(bs, i - 1)
  {
    var r := Take(bs, k, need);
    assert forall j :: 0 <= j < k ==> r[j] == bs[j];
    assert forall j :: k + 2 <= j < |r| ==> r[j] == bs[j - 1];
  }

  lemma SplitLookup(h: Headers, block: nat, need: nat, a: nat)
    requires block in h && (h[block].next != 0 ==> h[block].next in h) && h[block].size >= need + HEADER
    requires h[block].next == 0 || h[block].next > block + HEADER + need
    requires a in h || a == block + HEADER + need
    ensures var at := block + HEADER + need;
      a in SplitHeaders(h, block, need)
      && SplitHeaders(h, block, need)[a] ==
        if a == block then h[block].(next := at, size := need, used := true)
        else if a == at then Block(h[block].size - need - HEADER, false, h[block].next, block)
        else if a == h[block].next && a != 0 then h[a].(prev := at)
        else h[a]
  {
  }

  /** Header i after the split. */
  lemma SplitLinkedAt(h: Headers, bs: seq<Blk>, k: nat, need: nat, i: nat)
    requires Increasing(bs) && Linked(h, bs) && k < |bs| && bs[k].size >= need + HEADER + MIN_BLOCK
    requires k + 1 < |bs| ==> bs[k + 1].addr > bs[k].addr + HEADER + need
    requires bs[k].addr in h && (h[bs[k].addr].next != 0 ==> h[bs[k].addr].next in h)
    requires h[bs[k].addr].size >= need + HEADER
    requires i <= |bs| == |Take(bs, k, need)| - 1
    ensures var r, h' := Take(bs, k, need), SplitHeaders(h, bs[k].addr, need);
      HeaderAt(h', r, i)
  {
    hide Take, SplitHeaders;
    SplitHeaderOf(bs, k, need, i);
    LinkedNext(h, bs, k);
    var at := bs[k].addr + HEADER + need;
    if i < k {
      LinkedNext(h, bs, i);
      SplitLookup(h, bs[k].addr, need, bs[i].addr);
    } else if i == k {
      SplitLookup(h, bs[k].addr, need, bs[k].addr);
    } else if i == k + 1 {
      SplitLookup(h, bs[k].addr, need, at);
    } else {
      LinkedNext(h, bs, i - 1);
      if i > k + 2 { assert bs[k + 1].addr < bs[i - 1].addr; }
      SplitLookup(h, bs[k].addr, need, bs[i - 1].addr);
    }
  }

  lemma SplitLinked(h: Headers, bs: seq<Blk>, base: nat, k: nat, need: nat)
    requires Inv(bs, base) && base > 0 && k < |bs| && Linked(h, bs) && bs[k].size >= need + HEADER + MIN_BLOCK
    ensures var b := bs[k].addr;
      && b in h && (h[b].next != 0 ==> h[b].next in h) && h[b].size >= need + HEADER
      && Linked(SplitHeaders(h, b, need), Take(bs, k, need))
  {
    TilesIncrease(bs, base);
    LinkedNext(h, bs, k);
    if k + 1 < |bs| { assert bs[k + 1].addr == EndOf(bs[k]); }
    var r := Take(bs, k, need);
    forall i | 0 <= i < |r|
      ensures HeaderAt(SplitHeaders(h, bs[k].addr, need), r, i)
    {
      SplitLinkedAt(h, bs, k, need, i);
    }
  }

  lemma MergeHeaderOf(bs: seq<Blk>, k: nat, i: nat)
    requires k + 1 < |bs| && i < |bs| - 1
    ensures var r := Merge(bs, k);
      r[i].addr == (if i <= k then bs[i].addr else bs[i + 1].addr)
      && HeaderOf(r, i) ==
        if i < k then HeaderOf(bs, i)
        else if i == k then Block(bs[k].size + HEADER + bs[k + 1].size, bs[k].used, AddrAt(bs, k + 2),
            AddrAt(bs, k - 1))
        else if i == k + 1 then HeaderOf(bs, k + 2).(prev := bs[k].addr)
        else HeaderOf(bs, i + 1)
  {
    var r := Merge(bs, k);
    assert forall j :: 0 <= j < k ==> r[j] == bs[j];
    assert forall j :: k + 1 <= j < |r| ==> r[j] == bs[j + 1];
  }

  lemma MergeLookup(h: Headers, block: nat, a: nat)
    requires block in h && h[block].next in h && (h[h[block].next].next != 0 ==> h[h[block].next].next in h)
    requires a in h && h[h[block].next].next != block
    ensures var n := h[h[block].next];
      a in MergeHeaders(h, block)
      && MergeHeaders(h, block)[a] ==
        if a == block then h[block].(size := h[block].size + HEADER + n.size, next := n.next)
        else if a == n.next && a != 0 then h[a].(prev := block)
        else h[a]
  {
  }

  /** Header i after block k absorbed its neighbour. */
  lemma MergeLinkedAt(h: Headers, bs: seq<Blk>, k: nat, i: nat)
    requires Increasing(bs) && Linked(h, bs) && k + 1 < |bs| && i < |bs| - 1
    requires bs[k].addr in h && h[bs[k].addr].next in h
    requires h[h[bs[k].addr].next].next != 0 ==> h[h[bs[k].addr].next].next in h
    ensures var r, h' := Merge(bs, k), MergeHeaders(h, bs[k].addr);
      HeaderAt(h', r, i)
  {
    hide Merge, MergeHeaders;
    MergeHeaderOf(bs, k, i);
    LinkedNext(h, bs, k);
    LinkedNext(h, bs, k + 1);
    var j := if i <= k then i else i + 1;
    LinkedNext(h, bs, j);
    if i > k + 1 { assert bs[k + 2].addr < bs[j].addr; }
    MergeLookup(h, bs[k].addr, bs[j].addr);
  }

  lemma MergeLinked(h: Headers, bs: seq<Blk>, base: nat, k: nat)
    requires Tiles(bs, base) && base > 0 && k + 1 < |bs| && Linked(h, bs)
    ensures var b := bs[k].addr;
      && b in h && h[b].next == bs[k + 1].addr && h[b].next in h
      && (h[h[b].next].next != 0 ==> h[h[b].next].next in h)
      && Linked(MergeHeaders(h, b), Merge(bs, k))
  {
    TilesIncrease(bs, base);
    LinkedNext(h, bs, k);
    LinkedNext(h, bs, k + 1);
    var r := Merge(bs, k);
    forall i | 0 <= i < |r|
      ensures HeaderAt(MergeHeaders(h, bs[k].addr), r, i)
    {
      MergeLinkedAt(h, bs, k, i);
    }
  }

  lemma FirstFitIs(bs: seq<Blk>, need: nat, k: nat)
    requires k <= |bs| && (k < |bs| ==> Fits(bs[k], need)) && forall i :: 0 <= i < k ==> !Fits(bs[i], need)
    ensures FirstFit(bs, need) == k
  {
    var f := FirstFit(bs, need);
    assert f < |bs| ==> Fits(bs[f], need);
  }

  /** Marking block k changes its `used` field and no link. */
  lemma MarkLinked(h: Headers, bs: seq<Blk>, k: nat, used: bool)
    requires Increasing(bs) && Linked(h, bs) && k < |bs|
    ensures bs[k].addr in h
    ensures Linked(h[bs[k].addr := h[bs[k].addr].(used := used)], bs[k := bs[k].(used := used)])
  {
    var r := bs[k := bs[k].(used := used)];
    LinkedNext(h, bs, k);
    var h' := h[bs[k].addr := h[bs[k].addr].(used := used)];
    forall i | 0 <= i < |r| ensures HeaderAt(h', r, i) {
      assert HeaderAt(h, bs, i);
      if i < k { assert bs[i].addr < bs[k].addr; } else if i > k { assert bs[k].addr < bs[i].addr; }
    }
  }

  lemma HeadIsBase(bs: seq<Blk>, base: nat)
    requires Tiles(bs, base)
    ensures |bs| > 0 && bs[0].addr == base
  {
  }

  lemma MarkTiles(bs: seq<Blk>, base: nat, k: nat, used: bool)
    requires Tiles(bs, base) && SizesOk(bs) && k < |bs|
    ensures Tiles(bs[k := bs[k].(used := used)], base) && SizesOk(bs[k := bs[k].(used := used)])
  {
  }

  /** What kmalloc's loop body relies on. */
  lemma TakeForms(bs: seq<Blk>, base: nat, k: nat, need: nat)
    requires Inv(bs, base) && base > 0 && k < |bs| && need <= bs[k].size
    ensures Increasing(bs)
    ensures bs[k].size < need + HEADER + MIN_BLOCK ==> Take(bs, k, need) == bs[k := bs[k].(used := true)]
  {
    TilesIncrease(bs, base);
  }

  lemma InitialGood(base: nat)
    requires base % ALIGNMENT == 0
    ensures Inv(Initial(base), base) && Linked(map[base := Block(HEAP_SIZE - HEADER, false, 0, 0)], Initial(base))
  {
  }

  class KernelHeap {
    var headers: Headers
    var first: nat
    ghost const base: nat
    ghost var blocks: seq<Blk>

    ghost predicate Valid()
      reads this
    {
      base > 0 && Inv(blocks, base) && first == base && Linked(headers, blocks)
    }

    /** Heap::init on the region that the page allocator returned. */
    constructor (heapBase: nat)
      requires heapBase > 0 && heapBase % 4096 == 0
      ensures Valid() && base == heapBase && blocks == Initial(heapBase)
    {
      hide Inv, Linked;
      InitialGood(heapBase);
      base := heapBase;
      first := heapBase;
      headers := map[heapBase := Block(HEAP_SIZE - HEADER, false, 0, 0)];
      blocks := Initial(heapBase);
    }

    method Kmalloc(size: u64) returns (ptr: nat)
      requires Valid()
      modifies this
      ensures Valid()
      ensures (blocks, ptr) == Malloc(old(blocks), size)
    {
      hide Tiles, SizesOk, Coalesced, Linked, Take;
      if size == 0 { return 0; }
      var need := (size + ALIGNMENT - 1) % U64 / ALIGNMENT * ALIGNMENT;
      if need < MIN_BLOCK { need := MIN_BLOCK; }
      RoundedBounds(size);
      TilesIncrease(blocks, base);
      HeadIsBase(blocks, base);
      var block := first;
      ghost var k := 0;
      while block != 0
        invariant 0 <= k <= |blocks| && block == AddrAt(blocks, k)
        invariant unchanged(this)
        invariant forall i :: 0 <= i < k ==> !Fits(blocks[i], need)
        decreases |blocks| - k
      {
        LinkedNext(headers, blocks, k);
        if !headers[block].used && headers[block].size >= need {
          FirstFitIs(blocks, need, k);
          TakeKeepsInv(blocks, base, k, need);
          GiveOut(block, need, k);
          return block + HEADER;
        }
        block := headers[block].next;
        k := k + 1;
      }
      FirstFitIs(blocks, need, k);
      return 0;
    }

    /** The body of kmalloc's loop once a block was found. */
    method GiveOut(block: nat, need: nat, ghost k: nat)
      requires Valid() && k < |blocks| && block == blocks[k].addr && Fits(blocks[k], need)
      requires Inv(Take(blocks, k, need), base)
      modifies this
      ensures Valid() && blocks == Take(old(blocks), k, need)
    {
      hide Inv, Linked, Increasing;
      TakeForms(blocks, base, k, need);
      LinkedNext(headers, blocks, k);
      if headers[block].size >= need + HEADER + MIN_BLOCK {
        SplitLinked(headers, blocks, base, k, need);
        var newBlock := block + HEADER + need;
        var next := headers[block].next;
        headers := headers[newBlock := Block(headers[block].size - need - HEADER, false, next, block)];
        if next != 0 {
          headers := headers[next := headers[next].(prev := newBlock)];
        }
        headers := headers[block := headers[block].(next := newBlock, size := need)];
      } else {
        MarkLinked(headers, blocks, k, true);
      }
      headers := headers[block := headers[block].(used := true)];
      assert Linked(headers, Take(blocks, k, need));
      blocks := Take(blocks, k, need);
    }

    method Kfree(ptr: nat)
      requires Valid() && (ptr != 0 ==> Live(blocks, ptr))
      modifies this
      ensures Valid()
      ensures blocks == if ptr == 0 then old(blocks) else Free(old(blocks), ptr)
    {
      hide Tiles, SizesOk, Coalesced, Linked, Increasing;
      if ptr == 0 { return; }
      ghost var k := IndexOf(blocks, ptr);
      ReleaseKeepsInv(blocks, base, k);
      TilesIncrease(blocks, base);
      var block := ptr - HEADER;
      MarkLinked(headers, blocks, k, false);
      headers := headers[block := headers[block].(used := false)];
      ghost var freed := blocks[k := blocks[k].(used := false)];
      MarkTiles(blocks, base, k, false);
      CoalesceNext(block, freed, k);
      ghost var joined := JoinNext(freed, k);
      CoalescePrevious(block, joined, k);
      blocks := JoinPrevious(joined, k);
    }

    method CoalesceNext(block: nat, ghost bs: seq<Blk>, ghost k: nat)
      requires base > 0 && Tiles(bs, base) && SizesOk(bs) && Linked(headers, bs) && k < |bs| && block == bs[k].addr
      modifies this`headers
      ensures Tiles(JoinNext(bs, k), base) && SizesOk(JoinNext(bs, k)) && Linked(headers, JoinNext(bs, k))
    {
      hide Tiles, SizesOk, Linked, Increasing, Merge;
      TilesIncrease(bs, base);
      LinkedNext(headers, bs, k);
      var next := headers[block].next;
      if next != 0 { LinkedNext(headers, bs, k + 1); }
      if next != 0 && !headers[next].used {
        MergeLinked(headers, bs, base, k);
        MergeKeeps(bs, base, k);
        headers := headers[block := headers[block].(size := headers[block].size + HEADER + headers[next].size,
            next := headers[next].next)];
        if headers[block].next != 0 {
          headers := headers[headers[block].next := headers[headers[block].next].(prev := block)];
        }
      }
    }

    method CoalescePrevious(block: nat, ghost bs: seq<Blk>, ghost k: nat)
      requires base > 0 && Tiles(bs, base) && SizesOk(bs) && Linked(headers, bs) && k < |bs| && block == bs[k].addr
      modifies this`headers
      ensures Linked(headers, JoinPrevious(bs, k))
    {
      hide Tiles, SizesOk, Linked, Increasing, Merge;
      TilesIncrease(bs, base);
      LinkedNext(headers, bs, k);
      var prev := headers[block].prev;
      if prev != 0 { LinkedNext(headers, bs, k - 1); }
      if prev != 0 && !headers[prev].used {
        MergeLinked(headers, bs, base, k - 1);
        headers := headers[prev := headers[prev].(size := headers[prev].size + HEADER + headers[block].size,
            next := headers[block].next)];
        if headers[block].next != 0 {
          headers := headers[headers[block].next := headers[headers[block].next].(prev := prev)];
        }
      }
    }

    /** get_used and get_free: the walk that sums the sizes of used (free) blocks. */
    method GetTotal(used: bool) returns (sum: nat)
      requires Valid()
      ensures sum == SumSizes(blocks, used)
    {
      hide Tiles, SizesOk, Coalesced, Linked, Increasing;
      TilesIncrease(blocks, base);
      HeadIsBase(blocks, base);
      sum := 0;
      var block := first;
      ghost var k := 0;
      while block != 0
        invariant 0 <= k <= |blocks| && block == AddrAt(blocks, k)
        invariant sum == SumSizes(blocks[..k], used)
        decreases |blocks| - k
      {
        LinkedNext(headers, blocks, k);
        assert blocks[..k + 1][..k] == blocks[..k];
        if headers[block].used == used { sum := sum + headers[block].size; }
        block := headers[block].next;
        k := k + 1;
      }
      assert blocks[..k] == blocks;
    }
  }
}
