/**
  Physical memory and the bitmap page allocator (src/mm/pages.cpp).

  The bitmap is the byte array of the kernel; `Used` reads it as one Boolean per page.
  RAM is the byte array behind the physical addresses from MEMORY_BASE upwards.
 */
module Pages {
  import opened Machine

  const PAGE_SIZE: nat := 4096
  const MAX_PAGES: nat := 65536
  const MEMORY_BASE: nat := 0x4000_0000

  function PageAddress(page: nat): (addr: nat) { MEMORY_BASE + page * PAGE_SIZE }

  function PageOf(addr: nat): (page: nat)
    requires addr >= MEMORY_BASE
  {
    (addr - MEMORY_BASE) / PAGE_SIZE
  }

  // ------------------------------------------------------------ specification

  /** Page p is in use iff its bit is set. */
  function UsedBits(bitmap: seq<u8>, total: nat): (used: seq<bool>)
    requires total <= 8 * |bitmap|
    ensures |used| == total
    ensures forall p :: 0 <= p < total ==> (used[p] <==> Bit(bitmap[p / 8], p % 8))
  {
    seq(total, p requires 0 <= p < total => Bit(bitmap[p / 8], p % 8))
  }

  function CountFree(used: seq<bool>): (n: nat)
    ensures n <= |used|
  {
    if used == [] then 0 else (if used[0] then 0 else 1) + CountFree(used[1..])
  }

  /** The lowest free page, or the number of pages when none is free. */
  function FirstFree(used: seq<bool>): (p: nat)
    ensures p <= |used|
    ensures p < |used| ==> !used[p]
    ensures forall q :: 0 <= q < p ==> used[q]
  {
    if used == [] then 0
    else if !used[0] then 0
    else
      var p := FirstFree(used[1..]);
      assert forall q :: 0 < q < p + 1 ==> used[q] == used[1..][q - 1];
      p + 1
  }

  ghost predicate FreeRun(used: seq<bool>, start: nat, count: nat)
  {
    start + count <= |used| && forall p :: start <= p < start + count ==> !used[p]
  }

  function Filled(used: seq<bool>, start: nat, count: nat, value: bool): (r: seq<bool>)
    requires start + count <= |used|
    ensures |r| == |used|
    ensures forall p :: 0 <= p < |used| ==> r[p] == (if start <= p < start + count then value else used[p])
  {
    seq(|used|, p requires 0 <= p < |used| => if start <= p < start + count then value else used[p])
  }

  function ZeroedAt(ram: seq<u8>, at: nat, count: nat): (r: seq<u8>)
    requires at + count <= |ram|
    ensures |r| == |ram|
    ensures forall a :: 0 <= a < |ram| ==> r[a] == (if at <= a < at + count then 0 else ram[a])
  {
    seq(|ram|, a requires 0 <= a < |ram| => if at <= a < at + count then 0 else ram[a])
  }

  lemma {:induction false} CountFreeUpdate(used: seq<bool>, p: nat, value: bool)
    requires p < |used|
    ensures CountFree(used[p := value]) + (if used[p] then 0 else 1) == CountFree(used) + (if value then 0 else 1)
  {
    if p == 0 {
      assert used[p := value][1..] == used[1..];
    } else {
      CountFreeUpdate(used[1..], p - 1, value);
      assert used[p := value][1..] == used[1..][p - 1 := value];
    }
  }

  /** Taking a run of free pages takes that many. */
  lemma {:induction false} CountFreeFilled(used: seq<bool>, start: nat, count: nat)
    requires FreeRun(used, start, count)
    ensures CountFree(Filled(used, start, count, true)) == CountFree(used) - count
    decreases count
  {
    if count == 0 {
      assert Filled(used, start, 0, true) == used;
    } else {
      var last := start + count - 1;
      var before := Filled(used, start, count - 1, true);
      CountFreeFilled(used, start, count - 1);
      CountFreeUpdate(before, last, true);
      assert Filled(used, start, count, true) == before[last := true];
    }
  }

  lemma {:induction false} CountFreeAll(used: seq<bool>)
    requires forall p :: 0 <= p < |used| ==> !used[p]
    ensures CountFree(used) == |used|
  {
    if used != [] { CountFreeAll(used[1..]); }
  }

  lemma {:induction false} CountFreeZero(used: seq<bool>)
    ensures CountFree(used) == 0 <==> (forall p :: 0 <= p < |used| ==> used[p])
  {
    if used == [] {
    } else {
      CountFreeZero(used[1..]);
      assert forall p :: 0 < p < |used| ==> used[p] == used[1..][p - 1];
    }
  }

  /** The byte operations of the bitmap act on one page's bit and leave the others. */
  lemma BitmapUpdate(bitmap: seq<u8>, total: nat, page: nat, b: u8, value: bool)
    requires total <= 8 * |bitmap| && page < total
    requires forall k :: 0 <= k < 8 ==> (Bit(b, k) <==> if k == page % 8 then value else Bit(bitmap[page / 8], k))
    ensures UsedBits(bitmap[page / 8 := b], total) == UsedBits(bitmap, total)[page := value]
  {
    var l, r := UsedBits(bitmap[page / 8 := b], total), UsedBits(bitmap, total)[page := value];
    forall p | 0 <= p < total ensures l[p] == r[p] {
      assert 0 <= p % 8 < 8;
    }
  }

  lemma OrIsByte(a: u8, k: nat)
    requires k < 8
    ensures Shl(1, k) <= 128 && Or(a, Shl(1, k)) < 256
  {
    PowerIsByte(k);
    OrBound(a, Shl(1, k), 8);
    assert Ones(4) == 15 && Ones(8) == 255;
  }

  lemma PowerIsByte(k: nat)
    requires k < 8
    ensures Shl(1, k) <= 128
  {
    assert Shl(1, 4) == 16;
    if k > 4 { assert Shl(1, 5) == 32 && Shl(1, 6) == 64 && Shl(1, 7) == 128; }
  }

  /** A used page ends every run that would contain it. */
  lemma RunBroken(used: seq<bool>, i: nat, run: nat, count: nat)
    requires run <= i < |used| && used[i] && run < count
    requires forall t :: 0 <= t < i - run ==> !FreeRun(used, t, count)
    ensures forall t :: 0 <= t < i + 1 ==> !FreeRun(used, t, count)
  {
    forall t | i - run <= t < i + 1 ensures !FreeRun(used, t, count) {
      if t + count <= |used| { assert t <= i < t + count; }
    }
  }

  lemma NoRunLeft(used: seq<bool>, run: nat, count: nat)
    requires run <= |used| && run < count
    requires forall t :: 0 <= t < |used| - run ==> !FreeRun(used, t, count)
    ensures forall t: nat :: !FreeRun(used, t, count)
  {
    forall t: nat ensures !FreeRun(used, t, count) {
      assert t >= |used| - run ==> t + count > |used|;
    }
  }

  // ------------------------------------------------------------ the allocator

  class PageAllocator {
    const bitmap: array<u8>
    const ram: array<u8>
    const totalPages: nat
    var freePages: nat

    ghost predicate Valid()
      reads this, bitmap
    {
      && bitmap.Length == MAX_PAGES / 8
      && totalPages <= MAX_PAGES
      && ram.Length == totalPages * PAGE_SIZE
      && bitmap != ram
      && freePages == CountFree(Used())
    }

    ghost function Used(): (used: seq<bool>)
      requires totalPages <= 8 * bitmap.Length
      reads this, bitmap
      ensures |used| == totalPages
    {
      UsedBits(bitmap[..], totalPages)
    }

    /** Pages::init: everything below the kernel's end is reserved, the rest is free. */
    constructor (totalMemory: u64, kernelEndPage: nat)
      ensures Valid() && fresh(bitmap) && fresh(ram)
      ensures totalPages == Min(totalMemory / PAGE_SIZE, MAX_PAGES)
      ensures forall p :: 0 <= p < totalPages ==> (Used()[p] <==> p < kernelEndPage)
    {
      var total := totalMemory / PAGE_SIZE;
      if total > MAX_PAGES { total := MAX_PAGES; }
      totalPages := total;
      freePages := total;
      bitmap := new u8[MAX_PAGES / 8](_ => 0);
      ram := new u8[total * PAGE_SIZE];
      new;
      forall p | 0 <= p < totalPages ensures !Used()[p] { BitOfZero(p % 8); }
      CountFreeAll(Used());
      var i := 0;
      while i < kernelEndPage && i < totalPages
        invariant 0 <= i <= totalPages && (i > 0 ==> i <= kernelEndPage)
        invariant Valid()
        invariant forall p :: 0 <= p < totalPages ==> (Used()[p] <==> p < i)
        modifies this, bitmap
      {
        CountFreeUpdate(Used(), i, true);
        BitmapSet(i);
        freePages := freePages - 1;
        i := i + 1;
      }
    }

    method BitmapSet(page: nat)
      requires bitmap.Length == MAX_PAGES / 8 && page < totalPages <= MAX_PAGES
      modifies bitmap
      ensures Used() == old(Used())[page := true]
    {
      var mask := Shl(1, page % 8);
      OrIsByte(bitmap[page / 8], page % 8);
      var b: u8 := Or(bitmap[page / 8], mask);
      forall k | 0 <= k < 8 ensures Bit(b, k) <==> (if k == page % 8 then true else Bit(bitmap[page / 8], k)) {
        BitOfOr(bitmap[page / 8], mask, k);
        BitOfPower(page % 8, k);
      }
      BitmapUpdate(bitmap[..], totalPages, page, b, true);
      bitmap[page / 8] := b;
      assert bitmap[..] == old(bitmap[..])[page / 8 := b];
    }

    method BitmapClear(page: nat)
      requires bitmap.Length == MAX_PAGES / 8 && page < totalPages <= MAX_PAGES
      modifies bitmap
      ensures Used() == old(Used())[page := false]
    {
      PowerIsByte(page % 8);
      assert Ones(4) == 15 && Ones(8) == 255;
      var mask := 255 - Shl(1, page % 8);
      var b: u8 := And(bitmap[page / 8], mask);
      forall k | 0 <= k < 8 ensures Bit(b, k) <==> (if k == page % 8 then false else Bit(bitmap[page / 8], k)) {
        BitOfAnd(bitmap[page / 8], mask, k);
        BitOfComplement(Shl(1, page % 8), 8, k);
        BitOfPower(page % 8, k);
      }
      BitmapUpdate(bitmap[..], totalPages, page, b, false);
      bitmap[page / 8] := b;
      assert bitmap[..] == old(bitmap[..])[page / 8 := b];
    }

    method BitmapTest(page: nat) returns (set_: bool)
      requires bitmap.Length == MAX_PAGES / 8 && page < totalPages <= MAX_PAGES
      ensures set_ == Used()[page]
    {
      BitTest(bitmap[page / 8], page % 8);
      set_ := And(bitmap[page / 8], Shl(1, page % 8)) != 0;
    }

    method ZeroMemory(at: nat, count: nat)
      requires at + count <= ram.Length
      modifies ram
      ensures ram[..] == ZeroedAt(old(ram[..]), at, count)
    {
      var i := 0;
      while i < count
        invariant i <= count
        invariant forall a :: 0 <= a < ram.Length ==> ram[a] == (if at <= a < at + i then 0 else old(ram[a]))
      {
        ram[at + i] := 0;
        i := i + 1;
      }
    }

    method CopyMemory(at: nat, source: seq<u8>)
      requires at + |source| <= ram.Length
      modifies ram
      ensures forall a :: 0 <= a < ram.Length ==>
          ram[a] == (if at <= a < at + |source| then source[a - at] else old(ram[a]))
    {
      var i := 0;
      while i < |source|
        invariant i <= |source|
        invariant forall a :: 0 <= a < ram.Length ==>
          ram[a] == (if at <= a < at + i then source[a - at] else old(ram[a]))
      {
        ram[at + i] := source[i];
        i := i + 1;
      }
    }

    /** Takes the lowest free page and zeroes it; fails exactly when no page is free. */
    method AllocPage() returns (addr: nat)
      requires Valid()
      modifies this, bitmap, ram
      ensures Valid()
      ensures addr == 0 <==> (forall p :: 0 <= p < totalPages ==> old(Used())[p])
      ensures addr == 0 ==> Used() == old(Used()) && ram[..] == old(ram[..])
      ensures addr != 0 ==>
        && addr >= MEMORY_BASE
        && var p := PageOf(addr);
        && p < totalPages && addr == PageAddress(p) && !old(Used())[p]
        && (forall q :: 0 <= q < p ==> old(Used())[q])
        && Used() == old(Used())[p := true]
        && ram[..] == ZeroedAt(old(ram[..]), p * PAGE_SIZE, PAGE_SIZE)
    {
      var i := 0;
      while i < totalPages
        invariant 0 <= i <= totalPages
        invariant unchanged(this) && unchanged(bitmap) && unchanged(ram)
        invariant forall p :: 0 <= p < i ==> Used()[p]
      {
        var inUse := BitmapTest(i);
        if !inUse {
          CountFreeUpdate(Used(), i, true);
          BitmapSet(i);
          freePages := freePages - 1;
          ZeroMemory(i * PAGE_SIZE, PAGE_SIZE);
          return PageAddress(i);
        }
        i := i + 1;
      }
      return 0;
    }

    /** Releases the page holding the address, if it is a page of this memory that is in use. */
    method FreePage(addr: nat)
      requires Valid()
      modifies this, bitmap
      ensures Valid()
      ensures addr < MEMORY_BASE ==> Used() == old(Used())
      ensures addr >= MEMORY_BASE ==>
        var p := PageOf(addr);
        Used() == if p < totalPages then old(Used())[p := false] else old(Used())
    {
      if addr < MEMORY_BASE { return; }
      var page := PageOf(addr);
      if page < totalPages {
        var inUse := BitmapTest(page);
        if inUse {
          CountFreeUpdate(Used(), page, false);
          BitmapClear(page);
          freePages := freePages + 1;
        }
      }
    }

    /** Takes the lowest run of `count` free pages; fails exactly when there is none (or count is 0). */
    method AllocPages(count: nat) returns (addr: nat)
      requires Valid()
      modifies this, bitmap, ram
      ensures Valid()
      ensures addr == 0 <==> count == 0 || forall s: nat :: !FreeRun(old(Used()), s, count)
      ensures addr == 0 ==> Used() == old(Used()) && ram[..] == old(ram[..])
      ensures addr != 0 ==>
        && addr >= MEMORY_BASE
        && var s := PageOf(addr);
        && s + count <= totalPages && addr == PageAddress(s)
        && FreeRun(old(Used()), s, count)
        && (forall t :: 0 <= t < s ==> !FreeRun(old(Used()), t, count))
        && Used() == Filled(old(Used()), s, count, true)
        && ram[..] == ZeroedAt(old(ram[..]), s * PAGE_SIZE, count * PAGE_SIZE)
    {
      hide CountFree, UsedBits, Filled, ZeroedAt;
      var run, start, i := 0, 0, 0;
      while i < totalPages
        invariant 0 <= i <= totalPages
        invariant unchanged(this) && unchanged(bitmap) && unchanged(ram)
        invariant run > 0 ==> start + run == i
        invariant 0 <= run <= i && (count > 0 ==> run < count)
        invariant FreeRun(Used(), i - run, run)
        invariant i > run ==> Used()[i - run - 1]
        invariant count > 0 ==> forall t :: 0 <= t < i - run ==> !FreeRun(Used(), t, count)
      {
        var inUse := BitmapTest(i);
        if !inUse {
          if run == 0 { start := i; }
          run := run + 1;
          if run == count {
            assert FreeRun(old(Used()), start, count);
            addr := TakeRun(start, count);
            return;
          }
        } else {
          if count > 0 { RunBroken(Used(), i, run, count); }
          run := 0;
        }
        i := i + 1;
      }
      if count > 0 { NoRunLeft(Used(), run, count); }
      return 0;
    }

    /** Marks and zeroes a run of free pages. */
    method TakeRun(start: nat, count: nat) returns (addr: nat)
      requires Valid() && FreeRun(Used(), start, count)
      modifies this, bitmap, ram
      ensures Valid() && Used() == Filled(old(Used()), start, count, true)
      ensures ram[..] == ZeroedAt(old(ram[..]), start * PAGE_SIZE, count * PAGE_SIZE)
      ensures addr == PageAddress(start) >= MEMORY_BASE && PageOf(addr) == start
    {
      Take(start, count);
      ZeroMemory(start * PAGE_SIZE, count * PAGE_SIZE);
      addr := PageAddress(start);
    }

    method Take(start: nat, count: nat)
      requires Valid() && FreeRun(Used(), start, count)
      modifies this, bitmap
      ensures Valid() && Used() == Filled(old(Used()), start, count, true)
    {
      var j := start;
      while j < start + count
        invariant start <= j <= start + count
        invariant Valid()
        invariant Used() == Filled(old(Used()), start, j - start, true)
      {
        CountFreeUpdate(Used(), j, true);
        BitmapSet(j);
        freePages := freePages - 1;
        j := j + 1;
      }
    }
  }
}
