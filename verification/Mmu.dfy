/**
  The page-table code of src/mm/mmu.cpp on the bytes of physical memory.

  A table is a page of RAM read as 512 little-endian 64-bit words; `View` reads all of
  memory that way.  Each operation is proved to do to the view what the corresponding
  function of PageTable does to values.
 */
module Mmu {
  import opened Machine
  import opened Pages
  import opened PageTable

  const ADDRESS_MASK: nat := 0x0000_FFFF_FFFF_F000
  const PTE_VALID: nat := 1
  const PTE_TABLE: nat := 2

  // ------------------------------------------------------------ words in memory

  function WordAt(ram: seq<u8>, at: nat): (w: nat)
    requires at + 8 <= |ram|
  {
    FromLE(ram[at..at + 8])
  }

  function PageWords(ram: seq<u8>, page: nat): (p: Page)
    requires (page + 1) * PAGE_SIZE <= |ram|
    ensures |p| == ENTRIES
  {
    seq(ENTRIES, i requires 0 <= i < ENTRIES => WordAt(ram, page * PAGE_SIZE + 8 * i))
  }

  function View(ram: seq<u8>, pages: nat): (mem: Memory)
    requires |ram| == pages * PAGE_SIZE && pages <= MAX_PAGES
    ensures WellSized(mem) && |mem| == pages
  {
    seq(pages, p requires 0 <= p < pages => PageWords(ram, p))
  }

  function Written(ram: seq<u8>, at: nat, w: nat): (r: seq<u8>)
    requires at + 8 <= |ram|
    ensures |r| == |ram|
  {
    ram[..at] + ToLE(w, 8) + ram[at + 8..]
  }

  lemma WrittenElsewhere(ram: seq<u8>, at: nat, w: nat, b: nat)
    requires at + 8 <= |ram| && b + 8 <= |ram| && (b + 8 <= at || at + 8 <= b)
    ensures WordAt(Written(ram, at, w), b) == WordAt(ram, b)
  {
    assert Written(ram, at, w)[b..b + 8] == ram[b..b + 8];
  }

  lemma ViewWritten(ram: seq<u8>, pages: nat, page: nat, index: nat, w: u64)
    requires |ram| == pages * PAGE_SIZE && pages <= MAX_PAGES && page < pages && index < ENTRIES
    ensures View(Written(ram, page * PAGE_SIZE + 8 * index, w), pages) == Store(View(ram, pages), page, index, w)
  {
    hide Written, WordAt;
    var at := page * PAGE_SIZE + 8 * index;
    var r := Written(ram, at, w);
    WrittenHere(ram, at, w);
    var l, m := View(r, pages), Store(View(ram, pages), page, index, w);
    forall p | 0 <= p < pages ensures l[p] == m[p] {
      forall i | 0 <= i < ENTRIES ensures l[p][i] == m[p][i] {
        if p != page || i != index {
          WordsApart(p, i, page, index);
          WrittenElsewhere(ram, at, w, p * PAGE_SIZE + 8 * i);
        }
      }
    }
  }

  lemma WrittenHere(ram: seq<u8>, at: nat, w: u64)
    requires at + 8 <= |ram|
    ensures WordAt(Written(ram, at, w), at) == w
  {
    Pow256Values();
    LERoundTrip(w, 8);
    assert Written(ram, at, w)[at..at + 8] == ToLE(w, 8);
  }

  /** Two different words of memory do not overlap. */
  lemma WordsApart(p: nat, i: nat, q: nat, j: nat)
    requires i < ENTRIES && j < ENTRIES && (p != q || i != j)
    ensures var a, b := p * PAGE_SIZE + 8 * i, q * PAGE_SIZE + 8 * j; a + 8 <= b || b + 8 <= a
  {
  }

  lemma ZeroWord(s: seq<u8>)
    requires |s| == 8 && forall i :: 0 <= i < 8 ==> s[i] == 0
    ensures FromLE(s) == 0
  {
    ZeroBytes(s);
  }

  lemma {:induction false} ZeroBytes(s: seq<u8>)
    requires forall i :: 0 <= i < |s| ==> s[i] == 0
    ensures FromLE(s) == 0
  {
    if s != [] { ZeroBytes(s[1..]); }
  }

  lemma ZeroedElsewhere(ram: seq<u8>, at: nat, len: nat, b: nat)
    requires at + len <= |ram| && b + 8 <= |ram| && (b + 8 <= at || at + len <= b)
    ensures WordAt(ZeroedAt(ram, at, len), b) == WordAt(ram, b)
  {
    assert ZeroedAt(ram, at, len)[b..b + 8] == ram[b..b + 8];
  }

  lemma ZeroedHere(ram: seq<u8>, at: nat, len: nat, b: nat)
    requires at + len <= |ram| && at <= b && b + 8 <= at + len
    ensures WordAt(ZeroedAt(ram, at, len), b) == 0
  {
    ZeroWord(ZeroedAt(ram, at, len)[b..b + 8]);
  }

  /** A word of another page lies outside this one. */
  lemma PagesApart(p: nat, q: nat, i: nat)
    requires p != q && i < ENTRIES
    ensures var b := p * PAGE_SIZE + 8 * i; b + 8 <= q * PAGE_SIZE || (q + 1) * PAGE_SIZE <= b
  {
  }

  lemma ViewZeroed(ram: seq<u8>, pages: nat, page: nat)
    requires |ram| == pages * PAGE_SIZE && pages <= MAX_PAGES && page < pages
    ensures View(ZeroedAt(ram, page * PAGE_SIZE, PAGE_SIZE), pages) == View(ram, pages)[page := Zeroes()]
  {
    hide ZeroedAt, WordAt;
    var at := page * PAGE_SIZE;
    var r := ZeroedAt(ram, at, PAGE_SIZE);
    var l, m := View(r, pages), View(ram, pages)[page := Zeroes()];
    forall p | 0 <= p < pages ensures l[p] == m[p] {
      forall i | 0 <= i < ENTRIES ensures l[p][i] == m[p][i] {
        var b := p * PAGE_SIZE + 8 * i;
        if p == page {
          ZeroedHere(ram, at, PAGE_SIZE, b);
        } else {
          PagesApart(p, page, i);
          ZeroedElsewhere(ram, at, PAGE_SIZE, b);
        }
      }
    }
  }

  /** The same words in a page mean the same bytes. */
  lemma {:induction false} WordsDetermineBytes(s: seq<u8>, t: seq<u8>)
    requires |s| == |t| && FromLE(s) == FromLE(t)
    ensures s == t
  {
    if s != [] { WordsDetermineBytes(s[1..], t[1..]); assert s == [s[0]] + s[1..] && t == [t[0]] + t[1..]; }
  }

  lemma ViewDeterminesByte(ram: seq<u8>, r: seq<u8>, pages: nat, page: nat, k: nat)
    requires |ram| == |r| == pages * PAGE_SIZE && pages <= MAX_PAGES && page < pages && k < PAGE_SIZE
    requires View(ram, pages)[page] == View(r, pages)[page]
    ensures ram[page * PAGE_SIZE + k] == r[page * PAGE_SIZE + k]
  {
    var b := page * PAGE_SIZE + 8 * (k / 8);
    assert PageWords(ram, page)[k / 8] == PageWords(r, page)[k / 8];
    WordsDetermineBytes(ram[b..b + 8], r[b..b + 8]);
    assert ram[page * PAGE_SIZE + k] == ram[b..b + 8][k % 8];
    assert r[page * PAGE_SIZE + k] == r[b..b + 8][k % 8];
  }

  // ------------------------------------------------------------ fields of addresses and descriptors

  function Vpn(virt: nat): (vpn: nat) { virt / 0x1000 % VPN_LIMIT }

  /** `(phys & mask) | flags`. */
  function Descriptor(phys: u64, flags: u64): (d: nat) { Or(And(phys, ADDRESS_MASK), flags) }

  lemma IndexFields(virt: nat)
    ensures And(Shr(virt, 30), 0x1FF) == Index1(Vpn(virt))
    ensures And(Shr(virt, 21), 0x1FF) == Index2(Vpn(virt))
    ensures And(Shr(virt, 12), 0x1FF) == Index3(Vpn(virt))
  {
    hide And, Shr, Index1, Index2, Index3;
    ShiftBy30(virt); ShiftBy21(virt); ShiftBy12(virt);
    AndIndex(virt / 0x4000_0000); AndIndex(virt / 0x20_0000); AndIndex(virt / 0x1000);
    IndexDivisions(virt / 0x1000);
  }

  lemma IndexDivisions(n: nat)
    ensures Index1(n % VPN_LIMIT) == n / 0x4_0000 % 0x200
    ensures Index2(n % VPN_LIMIT) == n / 0x200 % 0x200
    ensures Index3(n % VPN_LIMIT) == n % 0x200
  {
    var v, q := n % 0x800_0000, n / 0x800_0000;
    assert n == 0x800_0000 * q + v;
    TopIndex(q, v);
    MiddleIndex(q, v);
    LowIndex(q, v);
  }

  lemma TopIndex(q: nat, v: nat)
    requires v < 0x800_0000
    ensures (0x800_0000 * q + v) / 0x4_0000 % 0x200 == v / 0x4_0000
  {
    var d := v / 0x4_0000;
    assert (0x800_0000 * q + v) / 0x4_0000 == 0x200 * q + d && d < 0x200;
  }

  lemma MiddleIndex(q: nat, v: nat)
    ensures (0x800_0000 * q + v) / 0x200 % 0x200 == v / 0x200 % 0x200
  {
    var d, e := v / 0x200, v % 0x200;
    assert 0x800_0000 * q + v == 0x200 * (0x4_0000 * q + d) + e;
    Quotient512(0x4_0000 * q + d, e);
    Remainder512(0x200 * q, d);
  }

  lemma Quotient512(k: nat, e: nat)
    requires e < 0x200
    ensures (0x200 * k + e) / 0x200 == k
  {
  }

  lemma Remainder512(k: nat, d: nat)
    ensures (0x200 * k + d) % 0x200 == d % 0x200
  {
  }

  lemma LowIndex(q: nat, v: nat)
    ensures (0x800_0000 * q + v) % 0x200 == v % 0x200
  {
  }

  lemma TableDescriptorBits(page: nat)
    requires page < MAX_PAGES
    ensures Or(Or(PageAddress(page), PTE_VALID), PTE_TABLE) == TableDesc(page)
    ensures TableDesc(page) < U64
  {
    hide Or;
    var a := PageAddress(page);
    OrLowFlags(a, 1);
    OrTwo(a / 0x1000);
  }

  lemma OrTwo(n: nat)
    ensures Or(n * 0x1000 + 1, 2) == n * 0x1000 + 3
  {
    hide Or;
    var x, y := n * 0x1000 + 1, n * 0x800;
    assert x / 2 == y && x % 2 == 1;
    OrDigits(x, 2);
    assert y / 2 == n * 0x400 && y % 2 == 0;
    OrDigits(y, 1);
    OrNothing(y / 2);
  }

  lemma OrNothing(a: nat)
    ensures Or(a, 0) == a
  {
  }

  /** The two fields get_or_create_table looks at. */
  lemma EntryFields(e: nat)
    ensures And(e, PTE_VALID) == e % 2
    ensures And(e, ADDRESS_MASK) == AddressField(e)
  {
    AndOne(e);
    AndAddress(e);
  }

  /** A table pointer of the kernel: null, or the address of the page. */
  predicate TableAddress(addr: nat, t: Option<nat>)
  {
    match t
    case None => addr == 0
    case Some(q) => addr >= MEMORY_BASE && PageOf(addr) == q
  }

  lemma LinkIsGraft(s: State, page: nat, index: nat, at: Place)
    requires Sized(s) && page < |s.mem| && index < ENTRIES && s.mem[page][index] % 2 == 0
    ensures var q := FirstFree(s.used);
      Link(s, page, index, at) == if q == |s.used| then (s, None) else (Grafted(s, page, index, at, q), Some(q))
  {
  }

  /** A slot of a table in use whose descriptor, if valid, leads to a page of this memory. */
  predicate SlotOk(s: State, page: nat, index: nat)
    requires Sized(s)
  {
    && page < |s.mem| && index < ENTRIES && s.used[page]
    && (s.mem[page][index] % 2 == 0 || Follow(|s.mem|, s.mem[page][index]).Some?)
  }

  /** Both table lookups of a mapping go through proper slots. */
  lemma MapIsSafe(s: State, u: nat, vpn: nat)
    requires Inv(s) && IsUser(s, u) && Index1(vpn) >= FIRST_PRIVATE
    ensures SlotOk(s, u, Index1(vpn))
    ensures var (s1, t2) := Link(s, u, Index1(vpn), Level2(u, Index1(vpn)));
      t2.Some? ==> SlotOk(s1, t2.value, Index2(vpn))
  {
    var path := FindPath(s, u, vpn);
    match path
    case NoTable =>
      var s1, t2 := LinkLevel2(s, u, vpn);
    case NoLeafTable(t2) =>
      TableDescValue(t2, |s.mem|);
      LinkPresent(s, u, Index1(vpn), Level2(u, Index1(vpn)), t2);
    case Tables(t2, t3) =>
      TableDescValue(t2, |s.mem|);
      TableDescValue(t3, |s.mem|);
      LinkPresent(s, u, Index1(vpn), Level2(u, Index1(vpn)), t2);
    case _ =>
  }

  // ------------------------------------------------------------ user pages

  const PTE_USER_RWX: nat := 0x743    // VALID | PAGE | AF | SH_INNER | ATTR_NORMAL | AP_RW | AP_USER

  lemma PageAddressField(page: nat)
    requires page < MAX_PAGES
    ensures AddressField(PageAddress(page) + PTE_USER_RWX) == PageAddress(page)
  {
    var k := 0x4_0000 + page;
    assert PageAddress(page) == k * 0x1000;
    FieldOfPage(k, PTE_USER_RWX);
  }

  lemma PageAddressMask(k: nat, a: nat)
    requires k < 0x10_0000_0000 && a == k * 0x1000
    ensures And(a, ADDRESS_MASK) == a
  {
    FieldOfPage(k, 0);
    AndAddress(a);
  }

  lemma UserDescriptor(page: nat, a: u64)
    requires page < MAX_PAGES && a == PageAddress(page)
    ensures Descriptor(a, PTE_USER_RWX) == a + PTE_USER_RWX
  {
    PageAddressMask(0x4_0000 + page, a);
    DescriptorOfPage(a, PTE_USER_RWX);
  }

  /** A page of a user's: normal memory, readable, writable and executable from user mode. */
  lemma UserAttributes(page: nat)
    requires page < MAX_PAGES
    ensures AttributesOf(PageAddress(page) + PTE_USER_RWX) == Attributes(0, 1, 3, true, false, false)
  {
    var d := PageAddress(page) + PTE_USER_RWX;
    assert d == 0x1000 * (0x4_0000 + page) + 0x743 && d < 0x20_0000_0000_0000;
    LowAttributes(0x4_0000 + page, 0x743);
  }

  lemma DescriptorOfPage(a: u64, f: u64)
    requires a % 0x1000 == 0 && f < 0x1000 && And(a, ADDRESS_MASK) == a
    ensures Descriptor(a, f) == a + f
  {
    OrLowFlags(a, f);
  }

  lemma UserDescriptorIsPage(page: nat)
    ensures LeafOf(PageAddress(page) + PTE_USER_RWX) == Leaf(3, PageAddress(page) + PTE_USER_RWX)
  {
    assert PageAddress(page) + PTE_USER_RWX == 4 * (0x1000_01D0 + page * 0x400) + 3;
  }

  // ------------------------------------------------------------ the MMU

  class PageTables {
    const pages: PageAllocator
    const kernelPgd: nat            // page of the statically allocated kernel_pgd
    ghost var kernelL2: nat
    ghost var device: nat
    ghost var place: map<nat, Place>

    ghost function Mem(): (mem: Memory)
      requires pages.Valid()
      reads this, pages, pages.bitmap, pages.ram
      ensures WellSized(mem) && |mem| == pages.totalPages
    {
      View(pages.ram[..], pages.totalPages)
    }

    ghost function Tables(): (s: State)
      requires pages.Valid()
      reads this, pages, pages.bitmap, pages.ram
      ensures Sized(s)
    {
      State(Mem(), pages.Used(), kernelPgd, kernelL2, device, place)
    }

    ghost predicate Valid()
      reads this, pages, pages.bitmap, pages.ram
      ensures Valid() ==> pages.Valid() && Inv(Tables())
    {
      pages.Valid() && Inv(Tables())
    }

    /** The kernel image, and kernel_pgd with it, lies in pages that were reserved from the start. */
    constructor (pages: PageAllocator, kernelPgd: nat)
      requires pages.Valid() && kernelPgd < pages.totalPages && pages.Used()[kernelPgd]
      ensures this.pages == pages && this.kernelPgd == kernelPgd
    {
      this.pages := pages;
      this.kernelPgd := kernelPgd;
    }

    method ReadEntry(table: nat, index: nat) returns (w: u64)
      requires pages.Valid() && table < pages.totalPages && index < ENTRIES
      ensures w == Mem()[table][index]
    {
      var at := table * PAGE_SIZE + 8 * index;
      LEBound(pages.ram[at..at + 8]);
      Pow256Values();
      assert Mem()[table][index] == WordAt(pages.ram[..], at);
      assert pages.ram[..][at..at + 8] == pages.ram[at..at + 8];
      w := FromLE(pages.ram[at..at + 8]);
    }

    method WriteEntry(table: nat, index: nat, w: u64)
      requires pages.Valid() && table < pages.totalPages && index < ENTRIES
      modifies pages.ram
      ensures pages.Valid() && pages.Used() == old(pages.Used())
      ensures Mem() == Store(old(Mem()), table, index, w)
    {
      var at := table * PAGE_SIZE + 8 * index;
      ViewWritten(pages.ram[..], pages.totalPages, table, index, w);
      var bytes := ToLE(w, 8);
      var i := 0;
      while i < 8
        invariant i <= 8
        invariant forall a :: 0 <= a < pages.ram.Length ==>
          pages.ram[a] == (if at <= a < at + i then bytes[a - at] else old(pages.ram[a]))
      {
        pages.ram[at + i] := bytes[i];
        i := i + 1;
      }
      assert pages.ram[..] == Written(old(pages.ram[..]), at, w);
    }

    /** Pages::alloc_page as seen through the tables. */
    method AllocTable() returns (addr: nat)
      requires pages.Valid()
      modifies pages, pages.bitmap, pages.ram
      ensures pages.Valid()
      ensures var q := FirstFree(old(pages.Used()));
        && (addr == 0 <==> q == pages.totalPages)
        && (addr == 0 ==> Mem() == old(Mem()) && pages.Used() == old(pages.Used()))
        && (addr != 0 ==> addr >= MEMORY_BASE && PageOf(addr) == q && addr == PageAddress(q))
        && (addr != 0 ==> Mem() == old(Mem())[q := Zeroes()])
        && (addr != 0 ==> pages.Used() == old(pages.Used())[q := true])
    {
      addr := pages.AllocPage();
      if addr != 0 {
        ViewZeroed(old(pages.ram[..]), pages.totalPages, PageOf(addr));
      }
    }

    static method MakeTableDescriptor(table: nat) returns (d: u64)
      requires table >= MEMORY_BASE && PageOf(table) < MAX_PAGES && table == PageAddress(PageOf(table))
      ensures d == TableDesc(PageOf(table))
    {
      TableDescriptorBits(PageOf(table));
      d := Or(Or(table, PTE_VALID), PTE_TABLE);
    }

    method LinkNewTable(table: nat, index: nat, ghost at: Place) returns (ok: bool)
      requires pages.Valid() && table < pages.totalPages && index < ENTRIES && pages.Used()[table]
      modifies this, pages, pages.bitmap, pages.ram
      ensures pages.Valid()
      ensures var q := FirstFree(old(pages.Used()));
        && ok == (q < pages.totalPages)
        && Tables() == if ok then Grafted(old(Tables()), table, index, at, q) else old(Tables())
    {
      ghost var s := Tables();
      var newTable := AllocTable();
      if newTable == 0 { return false; }
      ghost var q := PageOf(newTable);
      ghost var zeroed := Mem();
      var d := MakeTableDescriptor(newTable);
      WriteEntry(table, index, d);
      place := place[q := at];
      assert Mem() == Store(zeroed, table, index, TableDesc(q));
      return true;
    }

    method GetOrCreateTable(table: nat, index: nat, ghost at: Place) returns (addr: nat)
      requires pages.Valid() && table < pages.totalPages && index < ENTRIES && pages.Used()[table]
      requires Mem()[table][index] % 2 == 0 || Follow(pages.totalPages, Mem()[table][index]).Some?
      modifies this, pages, pages.bitmap, pages.ram
      ensures pages.Valid()
      ensures Tables() == Link(old(Tables()), table, index, at).0
      ensures TableAddress(addr, Link(old(Tables()), table, index, at).1)
    {
      ghost var s := Tables();
      var e := ReadEntry(table, index);
      EntryFields(e);
      if And(e, PTE_VALID) == 0 {
        var ok := LinkNewTable(table, index, at);
        LinkIsGraft(s, table, index, at);
        if !ok { return 0; }
        e := ReadEntry(table, index);
        EntryFields(e);
        TableDescValue(FirstFree(s.used), pages.totalPages);
      }
      addr := And(e, ADDRESS_MASK);
    }

    method MapPageInTable(pgd: nat, virt: u64, phys: u64, flags: u64)
      requires pages.Valid() && pgd >= MEMORY_BASE
      requires SlotOk(Tables(), PageOf(pgd), Index1(Vpn(virt)))
      requires var (s1, t2) := Link(Tables(), PageOf(pgd), Index1(Vpn(virt)), Level2(PageOf(pgd), Index1(Vpn(virt))));
        t2.Some? ==> SlotOk(s1, t2.value, Index2(Vpn(virt)))
      modifies this, pages, pages.bitmap, pages.ram
      ensures pages.Valid()
      ensures Tables() == MapPage(old(Tables()), PageOf(pgd), Vpn(virt), Descriptor(phys, flags))
    {
      IndexFields(virt);
      var i1 := And(Shr(virt, 30), 0x1FF);
      var i2 := And(Shr(virt, 21), 0x1FF);
      var i3 := And(Shr(virt, 12), 0x1FF);
      var l2 := GetOrCreateTable(PageOf(pgd), i1, Level2(PageOf(pgd), i1));
      if l2 == 0 { return; }
      var l3 := GetOrCreateTable(PageOf(l2), i2, Level3(PageOf(pgd), i1, i2));
      if l3 == 0 { return; }
      OrIsU64(And(phys, ADDRESS_MASK), flags);
      WriteEntry(PageOf(l3), i3, Or(And(phys, ADDRESS_MASK), flags));
    }

    /** map_user_page: one translation of one table changes, if the pages for it exist. */
    method MapUserPage(pgd: nat, virt: u64, phys: u64, flags: u64)
      requires Valid()
      requires pgd >= MEMORY_BASE && IsUser(Tables(), PageOf(pgd))
      requires Index1(Vpn(virt)) >= FIRST_PRIVATE
      modifies this, pages, pages.bitmap, pages.ram
      ensures Valid()
      ensures Tables() == MapPage(old(Tables()), PageOf(pgd), Vpn(virt), Descriptor(phys, flags))
      ensures Extends(old(Tables()), Tables()) && IsUser(Tables(), PageOf(pgd))
      ensures MapEffect(old(Tables()), Tables(), PageOf(pgd), Vpn(virt), Descriptor(phys, flags))
    {
      ghost var s, u, vpn := Tables(), PageOf(pgd), Vpn(virt);
      MapIsSafe(s, u, vpn);
      MapPageInTable(pgd, virt, phys, flags);
      MapPageRefines(s, u, vpn, Descriptor(phys, flags));
    }

    method CopyTable(source: nat, target: nat)
      requires pages.Valid() && source < pages.totalPages && target < pages.totalPages
      modifies pages.ram
      ensures pages.Valid() && pages.Used() == old(pages.Used())
      ensures Mem() == old(Mem())[target := old(Mem())[source]]
    {
      ghost var mem := Mem();
      var i := 0;
      while i < ENTRIES
        invariant i <= ENTRIES && pages.Valid() && pages.Used() == old(pages.Used())
        invariant forall p :: 0 <= p < |mem| && p != target ==> Mem()[p] == mem[p]
        invariant forall k :: 0 <= k < i ==> Mem()[target][k] == mem[source][k]
        invariant source == target ==> Mem()[target] == mem[source]
      {
        var e := ReadEntry(source, i);
        WriteEntry(target, i, e);
        i := i + 1;
      }
      assert Mem()[target] == mem[source];
    }

    /** create_user_page_table: a fresh page with a copy of the kernel's L1 entries. */
    method CreateUserPageTable() returns (pgd: nat)
      requires Valid()
      modifies this, pages, pages.bitmap, pages.ram
      ensures Valid()
      ensures Tables() == CreateTable(old(Tables())).0
      ensures TableAddress(pgd, CreateTable(old(Tables())).1)
    {
      ghost var s := Tables();
      CreateTableRefines(s);
      pgd := AllocTable();
      if pgd == 0 { return; }
      var q := PageOf(pgd);
      CopyTable(kernelPgd, q);
      place := place[q := Root];
      assert Mem() == s.mem[q := s.mem[kernelPgd]];
    }

    method FillRamTable(table: nat)
      requires pages.Valid() && table < pages.totalPages
      modifies pages.ram
      ensures pages.Valid() && pages.Used() == old(pages.Used())
      ensures Mem() == old(Mem())[table := RamTable()]
    {
      ghost var mem := Mem();
      var i := 0;
      while i < ENTRIES
        invariant i <= ENTRIES && pages.Valid() && pages.Used() == old(pages.Used())
        invariant forall p :: 0 <= p < |mem| && p != table ==> Mem()[p] == mem[p]
        invariant forall k :: 0 <= k < i ==> Mem()[table][k] == if k < 128 then RamBlock(k) else 0
      {
        WriteEntry(table, i, if i < 128 then RamBlock(i) else 0);
        i := i + 1;
      }
      assert Mem()[table] == RamTable();
    }

    method ClearRoot()
      requires pages.Valid() && kernelPgd < pages.totalPages
      modifies pages.ram
      ensures pages.Valid() && pages.Used() == old(pages.Used())
      ensures Mem() == old(Mem())[kernelPgd := Zeroes()[0 := DEVICE_BLOCK]]
    {
      pages.ZeroMemory(kernelPgd * PAGE_SIZE, PAGE_SIZE);
      ViewZeroed(old(pages.ram[..]), pages.totalPages, kernelPgd);
      WriteEntry(kernelPgd, 0, DEVICE_BLOCK);
    }

    /** MMU::init up to the point where the system registers are set. */
    method Init() returns (ok: bool)
      requires pages.Valid() && kernelPgd < pages.totalPages && pages.Used()[kernelPgd]
      modifies this, pages, pages.bitmap, pages.ram
      ensures pages.Valid()
      ensures var r := InitTables(old(Mem()), old(pages.Used()), kernelPgd);
        && ok == r.Some?
        && (ok ==> Tables() == r.value && Valid())
        && (!ok ==> pages.Used() == old(pages.Used()) && Mem() == old(Mem())[kernelPgd := Zeroes()[0 := DEVICE_BLOCK]])
    {
      hide View, Inv, CountFree, Store, KernelRoot, Zeroes;
      ghost var mem, used := Mem(), pages.Used();
      ClearRoot();
      var l2 := AllocTable();
      if l2 == 0 { return false; }
      var q := PageOf(l2);
      FillRamTable(q);
      var d := MakeTableDescriptor(l2);
      WriteEntry(kernelPgd, 1, d);
      kernelL2, device, place := q, DEVICE_BLOCK, map[kernelPgd := Root, q := Level2(kernelPgd, 1)];
      InitialWrites(mem, used, kernelPgd, q);
      InitEstablishesInv(mem, used, kernelPgd);
      return true;
    }
  }
}
