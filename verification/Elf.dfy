/**
  The PT_LOAD loop of src/elf/elf.cpp.

  Loading is judged by what a program sees: a byte read at a virtual address through the
  page table the loader filled in.
 */
module Elf {
  import opened Machine
  import opened Pages
  import opened PageTable
  import opened Mmu
  import opened TableCost

  const PT_LOAD: nat := 1

  // ------------------------------------------------------------ the file

  datatype Phdr = Phdr(kind: nat, offset: nat, vaddr: nat, filesz: nat, memsz: nat)

  function Field(file: seq<u8>, at: nat, width: nat): (v: nat)
    requires at + width <= |file|
  {
    FromLE(file[at..at + width])
  }

  const EHDR_SIZE: nat := 64
  const PHDR_SIZE: nat := 56

  function PhOff(file: seq<u8>): (v: nat) requires |file| >= EHDR_SIZE { Field(file, 32, 8) }
  function PhEntSize(file: seq<u8>): (v: nat) requires |file| >= EHDR_SIZE { Field(file, 54, 2) }
  function PhNum(file: seq<u8>): (v: nat) requires |file| >= EHDR_SIZE { Field(file, 56, 2) }

  /** The program headers lie inside the file that was read. */
  predicate HeadersPresent(file: seq<u8>)
  {
    && |file| >= EHDR_SIZE
    && forall i :: 0 <= i < PhNum(file) ==> PhOff(file) + i * PhEntSize(file) + PHDR_SIZE <= |file|
  }

  function PhdrAt(file: seq<u8>, i: nat): (ph: Phdr)
    requires HeadersPresent(file) && i < PhNum(file)
  {
    var at := PhOff(file) + i * PhEntSize(file);
    Phdr(Field(file, at, 4), Field(file, at + 8, 8), Field(file, at + 16, 8), Field(file, at + 32, 8),
        Field(file, at + 40, 8))
  }

  function RoundUp(n: nat): (r: nat) { (n + PAGE_SIZE - 1) / PAGE_SIZE * PAGE_SIZE }

  function End(ph: Phdr): (va: nat) { RoundUp(ph.vaddr + ph.memsz) }

  /** A page-aligned segment in the user's part of the address space with its bytes in the file. */
  predicate SegmentOk(file: seq<u8>, ph: Phdr)
  {
    && ph.vaddr % PAGE_SIZE == 0
    && FIRST_PRIVATE * 0x4000_0000 <= ph.vaddr && ph.vaddr + ph.memsz <= VPN_LIMIT * PAGE_SIZE
    && ph.filesz <= ph.memsz && ph.offset + ph.filesz <= |file|
  }

  predicate Disjoint(a: Phdr, b: Phdr) { End(a) <= b.vaddr || End(b) <= a.vaddr }

  predicate Loadable(file: seq<u8>)
  {
    && HeadersPresent(file)
    && (forall i :: 0 <= i < PhNum(file) && PhdrAt(file, i).kind == PT_LOAD ==> SegmentOk(file, PhdrAt(file, i)))
    && (forall i, j :: 0 <= i < j < PhNum(file) && PhdrAt(file, i).kind == PT_LOAD && PhdrAt(file, j).kind == PT_LOAD
          ==> Disjoint(PhdrAt(file, i), PhdrAt(file, j)))
  }

  /** Byte k of a segment's memory image. */
  function ImageByte(file: seq<u8>, ph: Phdr, k: nat): (b: u8)
    requires ph.offset + ph.filesz <= |file|
  {
    if k < ph.filesz then file[ph.offset + k] else 0
  }

  // ------------------------------------------------------------ what a program reads

  /** The byte at a virtual address, through the tables below `root`. */
  function ReadVirtual(ram: seq<u8>, pages: nat, root: nat, va: nat): (b: Option<u8>)
    requires |ram| == pages * PAGE_SIZE && pages <= MAX_PAGES && root < pages
  {
    match Walk(View(ram, pages), root, Vpn(va))
    case Leaf(3, d) =>
      var pa := AddressField(d) + va % PAGE_SIZE;
      if pa >= MEMORY_BASE && pa - MEMORY_BASE < |ram| then Some(ram[pa - MEMORY_BASE]) else None
    case _ => None
  }

  /** Entry `index` of the table at offset `table` of RAM is valid and points to the page at offset `next`. */
  predicate Descends(ram: seq<u8>, table: nat, index: nat, next: nat)
  {
    && table + 8 * index + 8 <= |ram| && next + 4096 <= |ram|
    && var d := FromLE(ram[table + 8 * index..table + 8 * index + 8]);
    d % 4 == 3 && d / 4096 % 0x10_0000_0000 * 4096 == 0x4000_0000 + next
  }

  /** Three tables in turn lead to a page, and from there to the byte at the offset. */
  predicate ReachesBy(ram: seq<u8>, t1: nat, i1: nat, i2: nat, i3: nat, offset: nat, t2: nat, t3: nat, p: nat, b: u8)
  {
    && Descends(ram, t1, i1, t2) && Descends(ram, t2, i2, t3) && Descends(ram, t3, i3, p)
    && p + offset < |ram| && ram[p + offset] == b
  }

  /** The walk as the processor does it: bits 38 to 30, 29 to 21 and 20 to 12 of the address select the entries of three
      tables in turn, bits 11 to 0 the byte of the page. */
  predicate Reaches(ram: seq<u8>, t1: nat, va: nat, t2: nat, t3: nat, p: nat, b: u8)
  {
    ReachesBy(ram, t1, va / 0x4000_0000 % 512, va / 0x20_0000 % 512, va / 0x1000 % 512, va % 4096, t2, t3, p, b)
  }

  lemma ReadIsWalk(ram: seq<u8>, pages: nat, root: nat, va: nat, b: u8)
    requires |ram| == pages * PAGE_SIZE && pages <= MAX_PAGES && root < pages
    ensures ReadVirtual(ram, pages, root, va) == Some(b) <==>
      exists t2: nat, t3: nat, p: nat :: Reaches(ram, root * 4096, va, t2, t3, p, b)
  {
    hide ReadVirtual, Reaches;
    if ReadVirtual(ram, pages, root, va) == Some(b) { ReadReaches(ram, pages, root, va, b); }
    if t2: nat, t3: nat, p: nat :| Reaches(ram, root * 4096, va, t2, t3, p, b) {
      ReachedIsRead(ram, pages, root, va, t2, t3, p, b);
    }
  }

  lemma ReachesIs(ram: seq<u8>, t1: nat, va: nat, t2: nat, t3: nat, p: nat, b: u8)
    ensures var vpn := Vpn(va);
      Reaches(ram, t1, va, t2, t3, p, b) ==
        ReachesBy(ram, t1, Index1(vpn), Index2(vpn), Index3(vpn), va % 4096, t2, t3, p, b)
  {
    hide ReachesBy, Index1, Index2, Index3, Vpn;
    AddressIndices(va);
  }

  lemma IndicesInside(vpn: nat)
    ensures Index1(vpn) < ENTRIES && Index2(vpn) < ENTRIES && Index3(vpn) < ENTRIES
  {
  }

  /** The last two bits of a descriptor. */
  lemma DescriptorKinds(d: nat)
    ensures d % 2 == 0 || d % 4 == 1 || d % 4 == 3
  {
  }

  /** A walk to the third level follows two tables to their entries. */
  lemma WalkFollows(mem: Memory, root: nat, vpn: nat, d: nat)
    requires WellSized(mem) && root < |mem| && Walk(mem, root, vpn) == Leaf(3, d)
    ensures mem[root][Index1(vpn)] % 4 == 3 && Follow(|mem|, mem[root][Index1(vpn)]).Some?
    ensures var t2 := Follow(|mem|, mem[root][Index1(vpn)]).value;
      mem[t2][Index2(vpn)] % 4 == 3 && Follow(|mem|, mem[t2][Index2(vpn)]).Some?
      && mem[Follow(|mem|, mem[t2][Index2(vpn)]).value][Index3(vpn)] == d && d % 4 == 3
  {
    hide Index1, Index2, Index3, Follow;
    IndicesInside(vpn);
    var e1 := mem[root][Index1(vpn)];
    DescriptorKinds(e1);
    var t2 := Follow(|mem|, e1).value;
    DescriptorKinds(mem[t2][Index2(vpn)]);
  }

  /** The same backwards. */
  lemma FollowedIsWalk(mem: Memory, root: nat, vpn: nat, t2: nat, t3: nat)
    requires WellSized(mem) && root < |mem| && t2 < |mem| && t3 < |mem|
    requires mem[root][Index1(vpn)] % 4 == 3 && Follow(|mem|, mem[root][Index1(vpn)]) == Some(t2)
    requires mem[t2][Index2(vpn)] % 4 == 3 && Follow(|mem|, mem[t2][Index2(vpn)]) == Some(t3)
    requires mem[t3][Index3(vpn)] % 4 == 3
    ensures Walk(mem, root, vpn) == Leaf(3, mem[t3][Index3(vpn)])
  {
    hide Index1, Index2, Index3, Follow;
    IndicesInside(vpn);
  }

  lemma ReadReaches(ram: seq<u8>, pages: nat, root: nat, va: nat, b: u8)
    requires |ram| == pages * PAGE_SIZE && pages <= MAX_PAGES && root < pages
    requires ReadVirtual(ram, pages, root, va) == Some(b)
    ensures exists t2: nat, t3: nat, p: nat :: Reaches(ram, root * 4096, va, t2, t3, p, b)
  {
    hide Reaches, ReachesBy, View, AddressField, Index1, Index2, Index3, Follow, Vpn, Walk;
    var mem, vpn := View(ram, pages), Vpn(va);
    IndicesInside(vpn);
    var d := Walk(mem, root, vpn).desc;
    WalkFollows(mem, root, vpn, d);
    var t2 := Follow(pages, mem[root][Index1(vpn)]).value;
    var t3 := Follow(pages, mem[t2][Index2(vpn)]).value;
    LastStep(ram, pages, d, va);
    var p := Follow(pages, d).value;
    Descent(ram, pages, root, Index1(vpn), Index2(vpn), Index3(vpn), va % 4096, t2, t3, p);
    ReachesIs(ram, root * 4096, va, t2 * 4096, t3 * 4096, p * 4096, b);
  }

  lemma Descent(ram: seq<u8>, pages: nat, t1: nat, i1: nat, i2: nat, i3: nat, offset: nat, t2: nat, t3: nat, p: nat)
    requires |ram| == pages * PAGE_SIZE && pages <= MAX_PAGES && t1 < pages && t2 < pages && t3 < pages && p < pages
    requires i1 < ENTRIES && i2 < ENTRIES && i3 < ENTRIES && offset < 4096
    requires View(ram, pages)[t1][i1] % 4 == 3 && Follow(pages, View(ram, pages)[t1][i1]) == Some(t2)
    requires View(ram, pages)[t2][i2] % 4 == 3 && Follow(pages, View(ram, pages)[t2][i2]) == Some(t3)
    requires View(ram, pages)[t3][i3] % 4 == 3 && Follow(pages, View(ram, pages)[t3][i3]) == Some(p)
    ensures p * 4096 + offset < |ram|
    ensures ReachesBy(ram, t1 * 4096, i1, i2, i3, offset, t2 * 4096, t3 * 4096, p * 4096, ram[p * 4096 + offset])
  {
    hide Descends, View, Follow;
    DescendsIs(ram, pages, t1, i1, t2 * 4096);
    DescendsIs(ram, pages, t2, i2, t3 * 4096);
    DescendsIs(ram, pages, t3, i3, p * 4096);
  }

  lemma ReachedIsRead(ram: seq<u8>, pages: nat, root: nat, va: nat, t2: nat, t3: nat, p: nat, b: u8)
    requires |ram| == pages * PAGE_SIZE && pages <= MAX_PAGES && root < pages
    requires Reaches(ram, root * 4096, va, t2, t3, p, b)
    ensures ReadVirtual(ram, pages, root, va) == Some(b)
  {
    hide Reaches, Descends, View, AddressField, Index1, Index2, Index3, Follow, Vpn, Walk;
    var mem, vpn := View(ram, pages), Vpn(va);
    IndicesInside(vpn);
    ReachesIs(ram, root * 4096, va, t2, t3, p, b);
    DescendsIs(ram, pages, root, Index1(vpn), t2);
    var q2 := Follow(pages, mem[root][Index1(vpn)]).value;
    DescendsIs(ram, pages, q2, Index2(vpn), t3);
    var q3 := Follow(pages, mem[q2][Index2(vpn)]).value;
    DescendsIs(ram, pages, q3, Index3(vpn), p);
    FollowedIsWalk(mem, root, vpn, q2, q3);
    LastStep(ram, pages, mem[q3][Index3(vpn)], va);
  }

  lemma AddressIndices(va: nat)
    ensures Index1(Vpn(va)) == va / 0x4000_0000 % 512 && Index2(Vpn(va)) == va / 0x20_0000 % 512
    ensures Index3(Vpn(va)) == va / 0x1000 % 512
  {
    assert va / 0x1000 / 0x4_0000 == va / 0x4000_0000 && va / 0x1000 / 0x200 == va / 0x20_0000;
    IndexDivisions(va / 0x1000);
  }

  /** Following an entry is descending to the page it names. */
  lemma DescendsIs(ram: seq<u8>, pages: nat, table: nat, index: nat, next: nat)
    requires |ram| == pages * PAGE_SIZE && pages <= MAX_PAGES && table < pages && index < ENTRIES
    ensures var d := View(ram, pages)[table][index];
      Descends(ram, table * 4096, index, next) <==> d % 4 == 3 && Follow(pages, d).Some?
                                                    && next == Follow(pages, d).value * 4096
  {
    hide FromLE, View, Follow;
    DescriptorIn(ram, pages, table, index);
    FollowIs(pages, View(ram, pages)[table][index], next);
  }

  lemma DescriptorIn(ram: seq<u8>, pages: nat, table: nat, index: nat)
    requires |ram| == pages * PAGE_SIZE && pages <= MAX_PAGES && table < pages && index < ENTRIES
    ensures table * 4096 + 8 * index + 8 <= |ram|
    ensures View(ram, pages)[table][index] == FromLE(ram[table * 4096 + 8 * index..table * 4096 + 8 * index + 8])
  {
    hide FromLE;
  }

  lemma FollowIs(pages: nat, d: nat, next: nat)
    ensures next + 4096 <= pages * 4096 && d / 4096 % 0x10_0000_0000 * 4096 == 0x4000_0000 + next <==>
      Follow(pages, d).Some? && next == Follow(pages, d).value * 4096
  {
    var n := d / 4096 % 0x10_0000_0000;
    assert AddressField(d) == n * 4096;
    if n >= 0x4_0000 { assert PageOf(n * 4096) == n - 0x4_0000; }
  }

  lemma LastStep(ram: seq<u8>, pages: nat, d: nat, va: nat)
    requires |ram| == pages * PAGE_SIZE && pages <= MAX_PAGES
    ensures var pa := AddressField(d) + va % PAGE_SIZE;
      && (pa >= MEMORY_BASE && pa - MEMORY_BASE < |ram| <==> Follow(pages, d).Some?)
      && (Follow(pages, d).Some? ==> pa - MEMORY_BASE == Follow(pages, d).value * 4096 + va % 4096)
  {
  }

  /** Table u sends the virtual page to a data page that no table occupies. */
  ghost predicate MapsTo(s: State, u: nat, vpn: nat, page: nat)
    requires Sized(s) && u < |s.mem|
  {
    && page < |s.mem| && s.used[page] && page !in s.place
    && Walk(s.mem, u, vpn) == Leaf(3, PageAddress(page) + PTE_USER_RWX)
  }

  // ------------------------------------------------------------ loaded pages

  function ByteOf(ram: seq<u8>, page: nat, k: nat): (b: u8)
    requires (page + 1) * PAGE_SIZE <= |ram| && k < PAGE_SIZE
  {
    ram[page * PAGE_SIZE + k]
  }

  /** The page holds the 4096 bytes of the segment that belong at virtual address va. */
  ghost predicate Holds(ram: seq<u8>, page: nat, file: seq<u8>, ph: Phdr, va: nat)
    requires (page + 1) * PAGE_SIZE <= |ram| && SegmentOk(file, ph) && ph.vaddr <= va
  {
    forall k :: 0 <= k < PAGE_SIZE ==> ByteOf(ram, page, k) == ImageByte(file, ph, va - ph.vaddr + k)
  }

  ghost predicate Loaded(s: State, ram: seq<u8>, u: nat, file: seq<u8>, ph: Phdr, va: nat)
  {
    && Sized(s) && u < |s.mem| && |ram| == |s.mem| * PAGE_SIZE
    && SegmentOk(file, ph) && ph.vaddr <= va
    && exists page: nat :: MapsTo(s, u, Vpn(va), page) && Holds(ram, page, file, ph, va)
  }

  /** Everything loaded at other virtual pages stays loaded. */
  ghost predicate KeepsLoaded(s: State, ram: seq<u8>, s': State, ram': seq<u8>, u: nat, file: seq<u8>, vpn: nat)
  {
    forall ph: Phdr, va: nat :: Vpn(va) != vpn && Loaded(s, ram, u, file, ph, va) ==> Loaded(s', ram', u, file, ph, va)
  }

  lemma ReadsPage(ram: seq<u8>, pages: nat, root: nat, va: nat, page: nat)
    requires |ram| == pages * PAGE_SIZE && pages <= MAX_PAGES && root < pages && page < pages
    requires Walk(View(ram, pages), root, Vpn(va)) == Leaf(3, PageAddress(page) + PTE_USER_RWX)
    ensures ReadVirtual(ram, pages, root, va) == Some(ByteOf(ram, page, va % PAGE_SIZE))
  {
    PageAddressField(page);
  }

  /** A program reads the segment's bytes from a loaded page. */
  lemma LoadedReads(s: State, ram: seq<u8>, u: nat, file: seq<u8>, ph: Phdr, base: nat, k: nat)
    requires Sized(s) && u < |s.mem| && |ram| == |s.mem| * PAGE_SIZE && s.mem == View(ram, |s.mem|)
    requires SegmentOk(file, ph) && ph.vaddr <= base && base % PAGE_SIZE == 0 && k < PAGE_SIZE
    requires Loaded(s, ram, u, file, ph, base)
    ensures ReadVirtual(ram, |s.mem|, u, base + k) == Some(ImageByte(file, ph, base - ph.vaddr + k))
  {
    hide Walk, View, ImageByte, SegmentOk;
    assert (base + k) / 0x1000 == base / 0x1000 && (base + k) % 0x1000 == k;
    var page: nat :| MapsTo(s, u, Vpn(base), page) && Holds(ram, page, file, ph, base);
    ReadsPage(ram, |s.mem|, u, base + k, page);
  }

  /** Bytes of pages outside the tables survive a step that leaves those pages alone. */
  lemma KeepsPage(s: State, ram: seq<u8>, s': State, ram': seq<u8>, page: nat, file: seq<u8>, ph: Phdr, va: nat)
    requires Sized(s) && Sized(s') && |s'.mem| == |s.mem| && |ram| == |ram'| == |s.mem| * PAGE_SIZE
    requires s.mem == View(ram, |s.mem|) && s'.mem == View(ram', |s.mem|)
    requires page < |s.mem| && s'.mem[page] == s.mem[page]
    requires SegmentOk(file, ph) && ph.vaddr <= va && Holds(ram, page, file, ph, va)
    ensures Holds(ram', page, file, ph, va)
  {
    SameBytes(s, s', ram, ram', page);
  }

  /** Data pages in use are left alone, and so are all translations except possibly that of vpn by table u. */
  ghost predicate OthersKept(s: State, r: State, u: nat, vpn: nat)
    requires Sized(s) && Sized(r) && |r.mem| == |s.mem| && u < |s.mem|
  {
    && (forall p :: 0 <= p < |s.mem| && s.used[p] && p !in s.place ==>
          r.used[p] && p !in r.place && r.mem[p] == s.mem[p])
    && WalksKept(s, r, u, [vpn])
  }

  lemma StepKeepsLoaded(s: State, ram: seq<u8>, r: State, ram': seq<u8>, u: nat, file: seq<u8>, vpn: nat)
    requires Sized(s) && Sized(r) && |r.mem| == |s.mem| && u < |s.mem| && IsRoot(s, u) && OthersKept(s, r, u, vpn)
    requires |ram| == |ram'| == |s.mem| * PAGE_SIZE
    requires s.mem == View(ram, |s.mem|) && r.mem == View(ram', |s.mem|)
    ensures KeepsLoaded(s, ram, r, ram', u, file, vpn)
  {
    forall ph: Phdr, va: nat | Vpn(va) != vpn && Loaded(s, ram, u, file, ph, va)
      ensures Loaded(r, ram', u, file, ph, va)
    {
      var page: nat :| MapsTo(s, u, Vpn(va), page) && Holds(ram, page, file, ph, va);
      KeepsPage(s, ram, r, ram', page, file, ph, va);
      assert MapsTo(r, u, Vpn(va), page);
    }
  }

  /** Taking page q and mapping something at vpn. */
  lemma TakeKeepsOthers(s0: State, s1: State, s2: State, u: nat, vpn: nat, q: nat, d: nat)
    requires Inv(s0) && IsUser(s0, u) && q < |s0.mem| && !s0.used[q] && vpn < VPN_LIMIT
    requires Inv(s1) && OnlyData(s0, s1) && SameWalks(s0, s1) && s1.mem == s0.mem[q := Zeroes()]
    requires s1.used == s0.used[q := true]
    requires Inv(s2) && Extends(s1, s2) && MapEffect(s1, s2, u, vpn, d)
    ensures OthersKept(s0, s2, u, vpn) && Extends(s0, s2)
  {
    assert IsRoot(s1, u);
  }

  /** Filling the page that was free at the start. */
  lemma FillKeepsOthers(s0: State, s2: State, s3: State, u: nat, vpn: nat, q: nat)
    requires Inv(s0) && IsUser(s0, u) && q < |s0.mem| && !s0.used[q]
    requires Inv(s2) && |s2.mem| == |s0.mem| && IsRoot(s2, u) && OthersKept(s0, s2, u, vpn) && Extends(s0, s2)
    requires Inv(s3) && OnlyData(s2, s3) && SameWalks(s2, s3) && s3.used == s2.used
    requires forall p :: 0 <= p < |s2.mem| && p != q ==> s3.mem[p] == s2.mem[p]
    ensures OthersKept(s0, s3, u, vpn) && Extends(s0, s3)
  {
  }

  // ------------------------------------------------------------ the loader

  ghost predicate DataAllocated(s: State, ram: seq<u8>, r: State, ram': seq<u8>, addr: nat)
  {
    && Inv(s) && Inv(r)
    && (addr == 0 <==> CountFree(s.used) == 0)
    && if addr == 0 then r == s && ram' == ram
       else
         && addr >= MEMORY_BASE && var q := PageOf(addr);
         && q < |s.mem| && addr == PageAddress(q) && !s.used[q]
         && |ram'| == |s.mem| * PAGE_SIZE && (forall k: nat :: k < PAGE_SIZE ==> ByteOf(ram', q, k) == 0)
         && OnlyData(s, r) && SameWalks(s, r)
         && r.mem == s.mem[q := Zeroes()] && r.used == s.used[q := true]
  }

  /** The page the loader takes for data, as seen through the tables. */
  method AllocData(mmu: PageTables) returns (addr: nat)
    requires mmu.Valid()
    modifies mmu.pages, mmu.pages.bitmap, mmu.pages.ram
    ensures mmu.Valid()
    ensures DataAllocated(old(mmu.Tables()), old(mmu.pages.ram[..]), mmu.Tables(), mmu.pages.ram[..], addr)
  {
    hide UserRootOk, Level2Ok, KernelOk, Walk, View;
    ghost var s := mmu.Tables();
    CountFreeZero(s.used);
    addr := mmu.pages.AllocPage();
    if addr != 0 {
      ViewZeroed(old(mmu.pages.ram[..]), mmu.pages.totalPages, PageOf(addr));
      DataKeepsTables(s, mmu.Tables());
    }
  }

  /** Only the data page was written. */
  ghost predicate PageWritten(s: State, r: State, page: nat)
  {
    && Inv(s) && Inv(r) && OnlyData(s, r) && SameWalks(s, r) && r.used == s.used
    && forall p :: 0 <= p < |s.mem| && p != page ==> r.mem[p] == s.mem[p]
  }

  /** memcpy of file bytes to the start of a data page. */
  method CopyToPage(mmu: PageTables, page: nat, file: seq<u8>, from: nat, count: nat)
    requires mmu.Valid() && page < mmu.pages.totalPages && mmu.pages.Used()[page] && page !in mmu.place
    requires from + count <= |file| && count <= PAGE_SIZE
    modifies mmu.pages.ram
    ensures mmu.Valid() && PageWritten(old(mmu.Tables()), mmu.Tables(), page)
    ensures Copied(old(mmu.pages.ram[..]), mmu.pages.ram[..], page, file, from, count)
  {
    hide UserRootOk, Level2Ok, KernelOk, Walk, View;
    ghost var s, ram := mmu.Tables(), mmu.pages.ram[..];
    mmu.pages.CopyMemory(page * PAGE_SIZE, file[from..from + count]);
    ViewOutside(ram, mmu.pages.ram[..], mmu.pages.totalPages, page);
    DataKeepsTables(s, mmu.Tables());
    CopiedBytes(ram, mmu.pages.ram[..], page, file, from, count);
  }

  lemma CopiedBytes(ram: seq<u8>, ram': seq<u8>, page: nat, file: seq<u8>, from: nat, count: nat)
    requires (page + 1) * PAGE_SIZE <= |ram| == |ram'| && from + count <= |file| && count <= PAGE_SIZE
    requires var at := page * PAGE_SIZE;
      forall a :: 0 <= a < |ram| ==>
        ram'[a] == if at <= a < at + count then file[from..from + count][a - at] else ram[a]
    ensures Copied(ram, ram', page, file, from, count)
  {
  }

  ghost predicate Copied(ram: seq<u8>, ram': seq<u8>, page: nat, file: seq<u8>, from: nat, count: nat)
  {
    && (page + 1) * PAGE_SIZE <= |ram| == |ram'| && from + count <= |file|
    && forall k: nat :: k < PAGE_SIZE ==>
         ByteOf(ram', page, k) == if k < count then file[from + k] else ByteOf(ram, page, k)
  }

  /** A change confined to one page shows in that page's words only. */
  lemma ViewOutside(ram: seq<u8>, r: seq<u8>, pages: nat, page: nat)
    requires |ram| == |r| == pages * PAGE_SIZE && pages <= MAX_PAGES && page < pages
    requires forall a :: 0 <= a < |ram| && !(page * PAGE_SIZE <= a < (page + 1) * PAGE_SIZE) ==> r[a] == ram[a]
    ensures forall p :: 0 <= p < pages && p != page ==> View(r, pages)[p] == View(ram, pages)[p]
  {
    forall p | 0 <= p < pages && p != page ensures View(r, pages)[p] == View(ram, pages)[p] {
      forall i | 0 <= i < ENTRIES ensures PageWords(r, p)[i] == PageWords(ram, p)[i] {
        var b := p * PAGE_SIZE + 8 * i;
        assert r[b..b + 8] == ram[b..b + 8];
      }
    }
  }

  /** alloc_page followed by map_user_page. */
  method TakePage(mmu: PageTables, pgd: nat, va: nat) returns (page: nat)
    requires mmu.Valid() && pgd >= MEMORY_BASE && IsUser(mmu.Tables(), PageOf(pgd))
    requires va < VPN_LIMIT * PAGE_SIZE && Index1(Vpn(va)) >= FIRST_PRIVATE
    modifies mmu, mmu.pages, mmu.pages.bitmap, mmu.pages.ram
    ensures mmu.Valid()
    ensures TakeStep(old(mmu.Tables()), old(mmu.pages.ram[..]), mmu.Tables(), mmu.pages.ram[..],
                     PageOf(pgd), Vpn(va), page)
  {
    ghost var s0, u, vpn := mmu.Tables(), PageOf(pgd), Vpn(va);
    page := AllocData(mmu);
    if page == 0 { return; }
    ghost var s1, ram1 := mmu.Tables(), mmu.pages.ram[..];
    mmu.MapUserPage(pgd, va, page, PTE_USER_RWX);
    TakeEffect(s0, s1, mmu.Tables(), ram1, mmu.pages.ram[..], u, vpn, page);
  }

  lemma TakeEffect(s0: State, s1: State, s2: State, ram1: seq<u8>, ram2: seq<u8>, u: nat, vpn: nat, page: u64)
    requires Inv(s0) && IsUser(s0, u) && vpn < VPN_LIMIT && Private(vpn)
    requires page >= MEMORY_BASE && PageOf(page) < |s0.mem| && page == PageAddress(PageOf(page))
    requires !s0.used[PageOf(page)]
    requires Inv(s1) && OnlyData(s0, s1) && SameWalks(s0, s1)
    requires s1.mem == s0.mem[PageOf(page) := Zeroes()] && s1.used == s0.used[PageOf(page) := true]
    requires s2 == MapPage(s1, u, vpn, Descriptor(page, PTE_USER_RWX))
    requires |ram1| == |ram2| == |s0.mem| * PAGE_SIZE
    requires s1.mem == View(ram1, |s0.mem|) && s2.mem == View(ram2, |s0.mem|)
    requires forall k: nat :: k < PAGE_SIZE ==> ByteOf(ram1, PageOf(page), k) == 0
    ensures Taken(s0, s2, ram2, u, vpn, page)
  {
    hide MapPage, Walk, Descriptor, CountFree, UserRootOk, Level2Ok, KernelOk, View, ByteOf, Missing, PageOutcome;
    var q, d := PageOf(page), Descriptor(page, PTE_USER_RWX);
    MapPageRefines(s1, u, vpn, d);
    TakeKeepsOthers(s0, s1, s2, u, vpn, q, d);
    assert q !in s0.place && q !in s2.place;
    TakeOutcome(s0, s1, u, vpn, page);
    SameBytes(s1, s2, ram1, ram2, q);
  }

  /** The page is mapped exactly if one page for it and one for each table it lacks are free. */
  lemma TakeOutcome(s0: State, s1: State, u: nat, vpn: nat, page: u64)
    requires Inv(s0) && IsUser(s0, u) && vpn < VPN_LIMIT && Private(vpn)
    requires page >= MEMORY_BASE && PageOf(page) < |s0.mem| && page == PageAddress(PageOf(page))
    requires !s0.used[PageOf(page)]
    requires Inv(s1) && OnlyData(s0, s1) && SameWalks(s0, s1) && s1.used == s0.used[PageOf(page) := true]
    ensures u < |s0.mem| && PageOutcome(s0, MapPage(s1, u, vpn, Descriptor(page, PTE_USER_RWX)), u, vpn, PageOf(page))
  {
    hide MapPage, Walk, Descriptor, CountFree, UserRootOk, Level2Ok, KernelOk, Missing;
    var q, d := PageOf(page), Descriptor(page, PTE_USER_RWX);
    var s2 := MapPage(s1, u, vpn, d);
    CountFreeUpdate(s0.used, q, true);
    DataMissing(s0, s1, u, vpn);
    MapPageRefines(s1, u, vpn, d);
    UserDescriptor(q, page);
    UserDescriptorIsPage(q);
    assert q !in s0.place && q !in s2.place;
    if Missing(s0, u, vpn) < CountFree(s0.used) {
      forall v: nat | Private(v) ensures Missing(s2, u, v) == StillMissing(vpn, v, Missing(s0, u, v)) {
        DataMissing(s0, s1, u, v);
        MapMissing(s1, u, vpn, d, v);
      }
    }
  }

  lemma SameBytes(s: State, r: State, ram: seq<u8>, ram': seq<u8>, page: nat)
    requires Sized(s) && Sized(r) && |r.mem| == |s.mem| && page < |s.mem|
    requires |ram| == |ram'| == |s.mem| * PAGE_SIZE && s.mem == View(ram, |s.mem|) && r.mem == View(ram', |s.mem|)
    requires r.mem[page] == s.mem[page]
    ensures forall k: nat :: k < PAGE_SIZE ==> ByteOf(ram', page, k) == ByteOf(ram, page, k)
  {
    forall k: nat | k < PAGE_SIZE ensures ByteOf(ram', page, k) == ByteOf(ram, page, k) {
      ViewDeterminesByte(ram, ram', |s.mem|, page, k);
    }
  }

  ghost predicate TakeStep(s: State, ram: seq<u8>, r: State, ram': seq<u8>, u: nat, vpn: nat, page: nat)
  {
    && IsUser(r, u)
    && (page == 0 <==> CountFree(s.used) == 0)
    && if page == 0 then r == s && ram' == ram else Taken(s, r, ram', u, vpn, page)
  }

  /** Exactly when alloc_page followed by map_user_page shows the page, what that takes and what it leaves missing. */
  ghost predicate PageOutcome(s: State, r: State, u: nat, vpn: nat, q: nat)
    requires Sized(s) && Sized(r) && |r.mem| == |s.mem| && u < |s.mem|
  {
    var free, lacking := CountFree(s.used), Missing(s, u, vpn);
    if lacking < free then
      && CountFree(r.used) == free - 1 - lacking && MapsTo(r, u, vpn, q)
      && forall v: nat :: Private(v) ==> Missing(r, u, v) == StillMissing(vpn, v, Missing(s, u, v))
    else CountFree(r.used) == 0 && Walk(r.mem, u, vpn) == Walk(s.mem, u, vpn)
  }

  ghost predicate Taken(s: State, r: State, ram: seq<u8>, u: nat, vpn: nat, page: nat)
  {
    && Sized(s) && Sized(r) && u < |s.mem|
    && |r.mem| == |s.mem| && |ram| == |r.mem| * PAGE_SIZE
    && page >= MEMORY_BASE && var q := PageOf(page);
    && q < |s.mem| && !s.used[q] && r.used[q] && q !in r.place
    && OthersKept(s, r, u, vpn) && Extends(s, r)
    && (forall k: nat :: k < PAGE_SIZE ==> ByteOf(ram, q, k) == 0)
    && PageOutcome(s, r, u, vpn, q)
  }

  /** Copying what the file holds of the segment at va. */
  method FillPage(mmu: PageTables, page: nat, file: seq<u8>, ph: Phdr, va: nat)
    requires mmu.Valid() && page < mmu.pages.totalPages && mmu.pages.Used()[page] && page !in mmu.place
    requires SegmentOk(file, ph) && ph.vaddr <= va
    requires forall k: nat :: k < PAGE_SIZE ==> ByteOf(mmu.pages.ram[..], page, k) == 0
    modifies mmu.pages.ram
    ensures mmu.Valid() && PageWritten(old(mmu.Tables()), mmu.Tables(), page)
    ensures Holds(mmu.pages.ram[..], page, file, ph, va)
  {
    hide UserRootOk, Level2Ok, KernelOk, View, Walk;
    var segOffset := va - ph.vaddr;
    if segOffset < ph.filesz {
      var copyOff := ph.offset + segOffset;
      var copyLen := PAGE_SIZE;
      if segOffset + copyLen > ph.filesz { copyLen := ph.filesz - segOffset; }
      if copyOff + copyLen <= |file| {
        CopyToPage(mmu, page, file, copyOff, copyLen);
      }
    }
  }

  // ------------------------------------------------------------ the list of pages

  /** A page of a segment, by its virtual address. */
  datatype PageWant = PageWant(ph: Phdr, va: nat)

  predicate WantOk(file: seq<u8>, w: PageWant)
  {
    SegmentOk(file, w.ph) && w.va % PAGE_SIZE == 0 && w.ph.vaddr <= w.va < End(w.ph)
  }

  function PageCount(ph: Phdr): (n: nat)
    requires ph.vaddr % PAGE_SIZE == 0
  {
    if End(ph) <= ph.vaddr then 0 else (End(ph) - ph.vaddr) / PAGE_SIZE
  }

  /** The first n pages of a segment. */
  function SegmentPages(ph: Phdr, n: nat): (ws: seq<PageWant>)
    ensures |ws| == n && forall i :: 0 <= i < n ==> ws[i] == PageWant(ph, ph.vaddr + i * PAGE_SIZE)
  {
    seq(n, (i: nat) => PageWant(ph, ph.vaddr + i * PAGE_SIZE))
  }

  /** The pages of the first n program headers, in the order the loader takes them. */
  function Wants(file: seq<u8>, n: nat): (ws: seq<PageWant>)
    requires Loadable(file) && n <= PhNum(file)
  {
    if n == 0 then []
    else
      var ph := PhdrAt(file, n - 1);
      Wants(file, n - 1) + (if ph.kind == PT_LOAD then SegmentPages(ph, PageCount(ph)) else [])
  }

  function AllWants(file: seq<u8>): (ws: seq<PageWant>) requires Loadable(file) { Wants(file, PhNum(file)) }

  function Vpns(ws: seq<PageWant>): (vs: seq<nat>)
    ensures |vs| == |ws| && forall i :: 0 <= i < |ws| ==> vs[i] == Vpn(ws[i].va)
  {
    seq(|ws|, i requires 0 <= i < |ws| => Vpn(ws[i].va))
  }

  /** Page-aligned addresses inside a proper segment: private L1 slots, 39 bits. */
  lemma SegmentIsPrivate(file: seq<u8>, ph: Phdr, va: nat)
    requires SegmentOk(file, ph) && va % PAGE_SIZE == 0 && ph.vaddr <= va < End(ph)
    ensures va < VPN_LIMIT * PAGE_SIZE && Vpn(va) == va / PAGE_SIZE
    ensures Index1(Vpn(va)) >= FIRST_PRIVATE
  {
    var n := va / 0x1000;
    assert va == n * 0x1000;
    assert End(ph) <= VPN_LIMIT * PAGE_SIZE;
    assert n < VPN_LIMIT;
    SmallModulus(n, VPN_LIMIT);
    assert n >= 0x8_0000;
    assert 2 <= n / 0x4_0000 < 0x200;
  }

  lemma VpnInjective(a: nat, b: nat)
    requires a % PAGE_SIZE == 0 && b % PAGE_SIZE == 0 && a < VPN_LIMIT * PAGE_SIZE && b < VPN_LIMIT * PAGE_SIZE
    ensures Vpn(a) == Vpn(b) ==> a == b
  {
    SmallModulus(a / 0x1000, VPN_LIMIT);
    SmallModulus(b / 0x1000, VPN_LIMIT);
  }

  lemma PageOfSegment(file: seq<u8>, ph: Phdr, i: nat)
    requires SegmentOk(file, ph)
    ensures i < PageCount(ph) <==> ph.vaddr + i * PAGE_SIZE < End(ph)
    ensures i < PageCount(ph) ==> WantOk(file, PageWant(ph, ph.vaddr + i * PAGE_SIZE))
  {
    var e := End(ph) / PAGE_SIZE;
    var v := ph.vaddr / PAGE_SIZE;
    assert End(ph) == e * PAGE_SIZE && ph.vaddr == v * PAGE_SIZE;
  }

  /** Each page on the list belongs to a PT_LOAD header before n. */
  ghost predicate FromHeader(file: seq<u8>, n: nat, w: PageWant)
    requires Loadable(file) && n <= PhNum(file)
  {
    WantOk(file, w) && exists i :: 0 <= i < n && PhdrAt(file, i).kind == PT_LOAD && w.ph == PhdrAt(file, i)
  }

  lemma {:induction false} WantsFromHeaders(file: seq<u8>, n: nat, k: nat)
    requires Loadable(file) && n <= PhNum(file) && k < |Wants(file, n)|
    ensures FromHeader(file, n, Wants(file, n)[k])
  {
    hide SegmentOk, Disjoint, PhdrAt, End, PageCount;
    var ph, before := PhdrAt(file, n - 1), Wants(file, n - 1);
    if k < |before| {
      WantsFromHeaders(file, n - 1, k);
    } else {
      PageOfSegment(file, ph, k - |before|);
      assert Wants(file, n)[k] == SegmentPages(ph, PageCount(ph))[k - |before|];
    }
  }

  /** Every page of every PT_LOAD segment is on the list. */
  lemma {:induction false} WantsAll(file: seq<u8>, n: nat, i: nat, va: nat) returns (k: nat)
    requires Loadable(file) && i < n <= PhNum(file) && PhdrAt(file, i).kind == PT_LOAD
    requires WantOk(file, PageWant(PhdrAt(file, i), va))
    ensures k < |Wants(file, n)| && Wants(file, n)[k] == PageWant(PhdrAt(file, i), va)
  {
    hide Disjoint, End, PhdrAt, PageCount;
    if i < n - 1 {
      k := WantsAll(file, n - 1, i, va);
    } else {
      var ph := PhdrAt(file, i);
      var j := (va - ph.vaddr) / PAGE_SIZE;
      assert va == ph.vaddr + j * PAGE_SIZE by { AlignedDifference(ph.vaddr, va); }
      PageOfSegment(file, ph, j);
      k := |Wants(file, n - 1)| + j;
    }
  }

  lemma AlignedDifference(a: nat, b: nat)
    requires a % PAGE_SIZE == 0 && b % PAGE_SIZE == 0 && a <= b
    ensures b == a + (b - a) / PAGE_SIZE * PAGE_SIZE
  {
  }

  /** Lists for fewer headers are prefixes. */
  lemma {:induction false} WantsPrefix(file: seq<u8>, m: nat, n: nat)
    requires Loadable(file) && m <= n <= PhNum(file)
    ensures Wants(file, m) <= Wants(file, n)
    decreases n
  {
    hide SegmentOk, Disjoint, PhdrAt, PageCount;
    if m < n { WantsPrefix(file, m, n - 1); }
  }

  /** The list so far: whole segments, and j pages of the current one. */
  function Done(file: seq<u8>, n: nat, j: nat): (ws: seq<PageWant>)
    requires Loadable(file) && n < PhNum(file)
  {
    Wants(file, n) + SegmentPages(PhdrAt(file, n), j)
  }

  lemma DoneIsPrefix(file: seq<u8>, n: nat, j: nat)
    requires Loadable(file) && n < PhNum(file) && PhdrAt(file, n).kind == PT_LOAD && j < PageCount(PhdrAt(file, n))
    ensures var ws, all := Done(file, n, j), AllWants(file);
      |ws| < |all| && ws == all[..|ws|] && all[|ws|] == PageWant(PhdrAt(file, n), PhdrAt(file, n).vaddr + j * PAGE_SIZE)
  {
    hide SegmentOk, Disjoint, PhdrAt, PageCount;
    WantsPrefix(file, n + 1, PhNum(file));
    var ws, next := Done(file, n, j), Wants(file, n + 1);
    assert ws == next[..|ws|];
  }

  /** The next page is a new one: the segments do not share pages. */
  lemma NextIsNew(file: seq<u8>, n: nat, j: nat, k: nat)
    requires Loadable(file) && n < PhNum(file) && PhdrAt(file, n).kind == PT_LOAD && j < PageCount(PhdrAt(file, n))
    requires k < |Done(file, n, j)|
    ensures Vpn(Done(file, n, j)[k].va) != Vpn(PhdrAt(file, n).vaddr + j * PAGE_SIZE)
  {
    hide RoundUp;
    var ph, w := PhdrAt(file, n), Done(file, n, j)[k];
    var va := ph.vaddr + j * PAGE_SIZE;
    PageOfSegment(file, ph, j);
    SegmentIsPrivate(file, ph, va);
    if k < |Wants(file, n)| {
      WantsFromHeaders(file, n, k);
    } else {
      PageOfSegment(file, ph, k - |Wants(file, n)|);
    }
    SegmentIsPrivate(file, w.ph, w.va);
    VpnInjective(w.va, va);
  }

  // ------------------------------------------------------------ one page

  /** What one turn of the page loop leaves behind. */
  ghost predicate LoadStep(s: State, ram: seq<u8>, r: State, ram': seq<u8>, ok: bool, u: nat, file: seq<u8>,
                           w: PageWant)
  {
    && Sized(s) && Sized(r) && |r.mem| == |s.mem| && u < |s.mem| && IsUser(r, u) && Extends(s, r)
    && (ok <==> CountFree(s.used) > 0)
    && (!ok ==> r == s && ram' == ram)
    && (ok ==> Stepped(s, ram, r, ram', u, file, w))
  }

  ghost predicate Stepped(s: State, ram: seq<u8>, r: State, ram': seq<u8>, u: nat, file: seq<u8>, w: PageWant)
    requires Sized(s) && Sized(r) && |r.mem| == |s.mem| && u < |s.mem|
  {
    var vpn, free, lacking := Vpn(w.va), CountFree(s.used), Missing(s, u, Vpn(w.va));
    && KeepsLoaded(s, ram, r, ram', u, file, vpn)
    && WalksKept(s, r, u, [vpn])
    && if lacking < free then
         && CountFree(r.used) == free - 1 - lacking && Loaded(r, ram', u, file, w.ph, w.va)
         && forall v: nat :: Private(v) ==> Missing(r, u, v) == StillMissing(vpn, v, Missing(s, u, v))
       else CountFree(r.used) == 0 && Walk(r.mem, u, vpn) == Walk(s.mem, u, vpn)
  }

  lemma LoadEffect(s0: State, ram0: seq<u8>, s2: State, ram2: seq<u8>, s3: State, ram3: seq<u8>,
                   u: nat, file: seq<u8>, w: PageWant, page: nat)
    requires Inv(s0) && IsUser(s0, u) && IsUser(s2, u) && CountFree(s0.used) > 0
    requires Taken(s0, s2, ram2, u, Vpn(w.va), page) && PageWritten(s2, s3, PageOf(page))
    requires |ram0| == |ram3| == |s0.mem| * PAGE_SIZE && s0.mem == View(ram0, |s0.mem|)
    requires s3.mem == View(ram3, |s0.mem|)
    requires SegmentOk(file, w.ph) && w.ph.vaddr <= w.va && Holds(ram3, PageOf(page), file, w.ph, w.va)
    ensures LoadStep(s0, ram0, s3, ram3, true, u, file, w)
  {
    hide Walk, View, UserRootOk, Level2Ok, KernelOk, Missing, Holds, SegmentOk, CountFree;
    var vpn := Vpn(w.va);
    FillKeepsOthers(s0, s2, s3, u, vpn, PageOf(page));
    StepKeepsLoaded(s0, ram0, s3, ram3, u, file, vpn);
    if Missing(s0, u, vpn) < CountFree(s0.used) {
      assert MapsTo(s3, u, vpn, PageOf(page));
      forall v: nat | Private(v) ensures Missing(s3, u, v) == StillMissing(vpn, v, Missing(s0, u, v)) {
        DataMissing(s2, s3, u, v);
      }
    }
  }

  /** One turn of the page loop. */
  method LoadPage(mmu: PageTables, file: seq<u8>, ph: Phdr, pgd: nat, va: nat) returns (ok: bool)
    requires mmu.Valid() && pgd >= MEMORY_BASE && IsUser(mmu.Tables(), PageOf(pgd))
    requires WantOk(file, PageWant(ph, va))
    modifies mmu, mmu.pages, mmu.pages.bitmap, mmu.pages.ram
    ensures mmu.Valid()
    ensures LoadStep(old(mmu.Tables()), old(mmu.pages.ram[..]), mmu.Tables(), mmu.pages.ram[..],
                     ok, PageOf(pgd), file, PageWant(ph, va))
  {
    hide Walk, View, UserRootOk, Level2Ok, KernelOk, Stepped, PageOutcome, OthersKept;
    ghost var s0, ram0 := mmu.Tables(), mmu.pages.ram[..];
    SegmentIsPrivate(file, ph, va);
    var page := TakePage(mmu, pgd, va);
    if page == 0 {
      return false;
    }
    ghost var s2, ram2 := mmu.Tables(), mmu.pages.ram[..];
    FillPage(mmu, PageOf(page), file, ph, va);
    LoadEffect(s0, ram0, s2, ram2, mmu.Tables(), mmu.pages.ram[..], PageOf(pgd), file, PageWant(ph, va), page);
    return true;
  }

  // ------------------------------------------------------------ the whole list

  /** Pages the list costs: one each, and the tables that mapping them takes. */
  function Need(s: State, u: nat, ws: seq<PageWant>): (n: nat)
    requires Sized(s) && u < |s.mem|
  {
    |ws| + TablesFor(s, u, Vpns(ws))
  }

  /** Pages it takes until the last allocation succeeds; the loader then reports success. */
  function NeedToReport(s: State, u: nat, ws: seq<PageWant>): (n: nat)
    requires Sized(s) && u < |s.mem|
  {
    if ws == [] then 0 else Need(s, u, ws[..|ws| - 1]) + 1
  }

  lemma NeedNext(s: State, u: nat, ws: seq<PageWant>, w: PageWant)
    requires Sized(s) && u < |s.mem|
    ensures Vpns(ws + [w]) == Vpns(ws) + [Vpn(w.va)]
    ensures Need(s, u, ws + [w]) == Need(s, u, ws) + 1 + MissingGiven(s, u, Vpns(ws), Vpn(w.va))
    ensures NeedToReport(s, u, ws + [w]) == Need(s, u, ws) + 1
  {
    assert Vpns(ws + [w]) == Vpns(ws) + [Vpn(w.va)];
    assert (ws + [w])[..|ws|] == ws;
    TablesForNext(s, u, Vpns(ws), Vpn(w.va));
  }

  lemma NeedPrefix(s: State, u: nat, ws: seq<PageWant>, n: nat)
    requires Sized(s) && u < |s.mem| && n < |ws|
    ensures Need(s, u, ws[..n]) < NeedToReport(s, u, ws) <= Need(s, u, ws)
  {
    var rest := ws[..|ws| - 1];
    assert Vpns(ws)[..|rest|] == Vpns(rest) && Vpns(rest)[..n] == Vpns(ws[..n]);
    TablesForPrefix(s, u, Vpns(ws), |rest|);
    TablesForPrefix(s, u, Vpns(rest), n);
  }

  /** Where the loader stands after the pages ws, having started in s0. */
  ghost predicate SoFar(s0: State, s: State, ram: seq<u8>, u: nat, file: seq<u8>, ws: seq<PageWant>)
  {
    && Sized(s0) && Sized(s) && |s.mem| == |s0.mem| && u < |s.mem| && IsUser(s0, u) && IsUser(s, u) && Extends(s0, s)
    && WalksKept(s0, s, u, Vpns(ws))
    && NeedToReport(s0, u, ws) <= CountFree(s0.used)
    && if Need(s0, u, ws) <= CountFree(s0.used) then Complete(s0, s, ram, u, file, ws) else Cut(s0, s, u, ws)
  }

  ghost predicate AllLoaded(s: State, ram: seq<u8>, u: nat, file: seq<u8>, ws: seq<PageWant>)
  {
    forall i :: 0 <= i < |ws| ==> Loaded(s, ram, u, file, ws[i].ph, ws[i].va)
  }

  /** Everything so far is loaded, and exactly the needed pages are gone. */
  ghost predicate Complete(s0: State, s: State, ram: seq<u8>, u: nat, file: seq<u8>, ws: seq<PageWant>)
    requires Sized(s0) && Sized(s) && |s.mem| == |s0.mem| && u < |s.mem|
  {
    && CountFree(s.used) == CountFree(s0.used) - Need(s0, u, ws)
    && AllLoaded(s, ram, u, file, ws)
    && (forall v: nat :: Private(v) ==> Missing(s, u, v) == MissingGiven(s0, u, Vpns(ws), v))
  }

  /** No page is left and the last one asked for did not get its tables. */
  ghost predicate Cut(s0: State, s: State, u: nat, ws: seq<PageWant>)
    requires Sized(s0) && Sized(s) && |s.mem| == |s0.mem| && u < |s.mem|
  {
    CountFree(s.used) == 0 && ws != [] && var v := Vpn(ws[|ws| - 1].va); Walk(s.mem, u, v) == Walk(s0.mem, u, v)
  }

  lemma SoFarStart(s: State, ram: seq<u8>, u: nat, file: seq<u8>)
    requires Inv(s) && IsUser(s, u)
    ensures SoFar(s, s, ram, u, file, [])
  {
  }

  lemma SoFarNext(s0: State, s: State, ram: seq<u8>, r: State, ram': seq<u8>, u: nat, file: seq<u8>,
                  ws: seq<PageWant>, w: PageWant)
    requires SoFar(s0, s, ram, u, file, ws) && LoadStep(s, ram, r, ram', true, u, file, w) && WantOk(file, w)
    requires forall p :: p in s.place ==> p < |s.used| && s.used[p]
    requires forall i :: 0 <= i < |ws| ==> Vpn(ws[i].va) != Vpn(w.va)
    ensures SoFar(s0, r, ram', u, file, ws + [w])
  {
    hide Walk, Missing, TablesFor, CountFree, Loaded, MissingGiven, StillMissing, NeedToReport, Need, Vpn, End;
    assert Private(Vpn(w.va)) && Vpn(w.va) < VPN_LIMIT by { SegmentIsPrivate(file, w.ph, w.va); }
    ExtendsTransitive(s0, s, r);
    WalksKeptOn(s0, s, r, u, Vpns(ws), [Vpn(w.va)]);
    NeedNext(s0, u, ws, w);
    TablesForNext(s0, u, Vpns(ws), Vpn(w.va));
    var all := ws + [w];
    if Need(s0, u, all) <= CountFree(s0.used) {
      forall i | 0 <= i < |all| ensures Loaded(r, ram', u, file, all[i].ph, all[i].va) {
        if i < |ws| { assert Loaded(s, ram, u, file, ws[i].ph, ws[i].va); }
      }
    }
  }

  // ------------------------------------------------------------ what a program then sees

  /** Every byte of every PT_LOAD segment, read through table u, is the file's byte or zero. */
  ghost predicate ImageVisible(ram: seq<u8>, pages: nat, u: nat, file: seq<u8>)
    requires Loadable(file) && |ram| == pages * PAGE_SIZE && pages <= MAX_PAGES && u < pages
  {
    forall i, k: nat :: 0 <= i < PhNum(file) && PhdrAt(file, i).kind == PT_LOAD && k < PhdrAt(file, i).memsz ==>
      ReadVirtual(ram, pages, u, PhdrAt(file, i).vaddr + k) == Some(ImageByte(file, PhdrAt(file, i), k))
  }

  /** The same read off the bytes of the file, at the places the ELF64 format gives: header i starts at e_phoff +
      i * e_phentsize and holds p_type, p_offset, p_vaddr, p_filesz and p_memsz. */
  lemma ImageIsSeen(ram: seq<u8>, pages: nat, u: nat, file: seq<u8>, i: nat, k: nat, at: nat)
    requires |ram| == pages * PAGE_SIZE && pages <= MAX_PAGES && u < pages
    requires Loadable(file) && ImageVisible(ram, pages, u, file) && i < FromLE(file[56..58])
    requires at == FromLE(file[32..40]) + i * FromLE(file[54..56])
    ensures at + 56 <= |file|
    ensures var offset, vaddr := FromLE(file[at + 8..at + 16]), FromLE(file[at + 16..at + 24]);
      var filesz, memsz := FromLE(file[at + 32..at + 40]), FromLE(file[at + 40..at + 48]);
      FromLE(file[at..at + 4]) == 1 && k < memsz ==>
        && (k < filesz ==> offset + k < |file|)
        && ReadVirtual(ram, pages, u, vaddr + k) == Some(if k < filesz then file[offset + k] else 0)
  {
    hide FromLE, ReadVirtual, PhdrAt;
    HeaderFields(file, i, at);
    var ph := PhdrAt(file, i);
    if ph.kind == PT_LOAD && k < ph.memsz {
      assert SegmentOk(file, ph) && ReadVirtual(ram, pages, u, ph.vaddr + k) == Some(ImageByte(file, ph, k));
    }
  }

  lemma HeaderFields(file: seq<u8>, i: nat, at: nat)
    requires HeadersPresent(file) && i < PhNum(file) && at == PhOff(file) + i * PhEntSize(file)
    ensures at + 56 <= |file|
    ensures PhdrAt(file, i) ==
      Phdr(FromLE(file[at..at + 4]), FromLE(file[at + 8..at + 16]), FromLE(file[at + 16..at + 24]),
           FromLE(file[at + 32..at + 40]), FromLE(file[at + 40..at + 48]))
  {
  }

  lemma LoadedIsVisible(s: State, ram: seq<u8>, u: nat, file: seq<u8>)
    requires Loadable(file) && Inv(s) && IsUser(s, u) && |ram| == |s.mem| * PAGE_SIZE && s.mem == View(ram, |s.mem|)
    requires AllLoaded(s, ram, u, file, AllWants(file))
    ensures ImageVisible(ram, |s.mem|, u, file)
  {
    hide Loaded, ReadVirtual, View, Walk, Disjoint, PhdrAt, ImageByte, UserRootOk, Level2Ok, KernelOk;
    forall i, k: nat | 0 <= i < PhNum(file) && PhdrAt(file, i).kind == PT_LOAD && k < PhdrAt(file, i).memsz
      ensures ReadVirtual(ram, |s.mem|, u, PhdrAt(file, i).vaddr + k) == Some(ImageByte(file, PhdrAt(file, i), k))
    {
      ByteVisible(s, ram, u, file, i, k);
    }
  }

  lemma ByteVisible(s: State, ram: seq<u8>, u: nat, file: seq<u8>, i: nat, k: nat)
    requires Loadable(file) && Inv(s) && IsUser(s, u) && |ram| == |s.mem| * PAGE_SIZE && s.mem == View(ram, |s.mem|)
    requires AllLoaded(s, ram, u, file, AllWants(file))
    requires i < PhNum(file) && PhdrAt(file, i).kind == PT_LOAD && k < PhdrAt(file, i).memsz
    ensures ReadVirtual(ram, |s.mem|, u, PhdrAt(file, i).vaddr + k) == Some(ImageByte(file, PhdrAt(file, i), k))
  {
    hide Loaded, ReadVirtual, View, Walk, Disjoint, PhdrAt, ImageByte, UserRootOk, Level2Ok, KernelOk, Wants;
    var ph := PhdrAt(file, i);
    var off, base := k % PAGE_SIZE, ph.vaddr + k / PAGE_SIZE * PAGE_SIZE;
    BaseOfByte(ph, k);
    var j := WantsAll(file, PhNum(file), i, base);
    assert Loaded(s, ram, u, file, AllWants(file)[j].ph, AllWants(file)[j].va);
    LoadedReads(s, ram, u, file, ph, base, off);
  }

  lemma BaseOfByte(ph: Phdr, k: nat)
    requires ph.vaddr % PAGE_SIZE == 0 && k < ph.memsz
    ensures var off, base := k % PAGE_SIZE, ph.vaddr + k / PAGE_SIZE * PAGE_SIZE;
      base % PAGE_SIZE == 0 && ph.vaddr <= base < End(ph) && base + off == ph.vaddr + k && off < PAGE_SIZE
  {
  }

  /** One faulting page of the list, and the program does not see its image. */
  lemma FaultHidesImage(ram: seq<u8>, pages: nat, u: nat, file: seq<u8>, k: nat)
    requires Loadable(file) && |ram| == pages * PAGE_SIZE && pages <= MAX_PAGES && u < pages && k < |AllWants(file)|
    requires Walk(View(ram, pages), u, Vpn(AllWants(file)[k].va)) == Fault
    ensures !ImageVisible(ram, pages, u, file)
  {
    hide Walk, View, Disjoint, PhdrAt, ImageByte, Wants;
    WantsFromHeaders(file, PhNum(file), k);
    var w := AllWants(file)[k];
    var i :| 0 <= i < PhNum(file) && PhdrAt(file, i).kind == PT_LOAD && w.ph == PhdrAt(file, i);
    FirstByte(w);
    var b: nat := w.va - w.ph.vaddr;
    assert PhdrAt(file, i).vaddr + b == w.va;
    assert ReadVirtual(ram, pages, u, w.va) == None;
    assert ReadVirtual(ram, pages, u, PhdrAt(file, i).vaddr + b) != Some(ImageByte(file, PhdrAt(file, i), b));
  }

  lemma FirstByte(w: PageWant)
    requires w.ph.vaddr % PAGE_SIZE == 0 && w.va % PAGE_SIZE == 0 && w.ph.vaddr <= w.va < End(w.ph)
    ensures w.va - w.ph.vaddr < w.ph.memsz
  {
  }

  /** No page of the image is mapped before the load. */
  ghost predicate Unmapped(s: State, u: nat, file: seq<u8>)
    requires Loadable(file) && Sized(s) && u < |s.mem|
  {
    forall i :: 0 <= i < |AllWants(file)| ==> Walk(s.mem, u, Vpn(AllWants(file)[i].va)) == Fault
  }

  /** The whole load: what it reports and what the program sees, both exactly in terms of the free pages before it. */
  ghost predicate Outcome(s0: State, pages: nat, ram: seq<u8>, u: nat, file: seq<u8>, ok: bool)
    requires Loadable(file)
  {
    && Sized(s0) && |s0.mem| == pages <= MAX_PAGES && u < pages && |ram| == pages * PAGE_SIZE
    && var ws, free := AllWants(file), CountFree(s0.used);
    && (ok <==> free >= NeedToReport(s0, u, ws))
    && (free >= Need(s0, u, ws) ==> ok && ImageVisible(ram, pages, u, file))
    && (Unmapped(s0, u, file) ==> (ImageVisible(ram, pages, u, file) <==> free >= Need(s0, u, ws)))
  }

  /** The tables afterwards: no page left, or exactly the needed ones gone and the whole image loaded. */
  ghost predicate Afterwards(s0: State, s: State, ram: seq<u8>, u: nat, file: seq<u8>)
  {
    && Loadable(file) && Sized(s0) && Sized(s) && |s.mem| == |s0.mem| && u < |s.mem| && IsUser(s, u) && Extends(s0, s)
    && WalksKept(s0, s, u, Vpns(AllWants(file)))
    && if Need(s0, u, AllWants(file)) <= CountFree(s0.used) then Complete(s0, s, ram, u, file, AllWants(file))
       else CountFree(s.used) == 0
  }

  lemma LoadEnds(s0: State, s: State, ram: seq<u8>, u: nat, file: seq<u8>)
    requires Loadable(file) && Inv(s) && |ram| == |s.mem| * PAGE_SIZE && s.mem == View(ram, |s.mem|)
    requires SoFar(s0, s, ram, u, file, AllWants(file))
    ensures Outcome(s0, |s.mem|, ram, u, file, true) && Afterwards(s0, s, ram, u, file)
  {
    hide Walk, Missing, TablesFor, CountFree, Loaded, MissingGiven, View;
    hide ImageVisible, Wants, PhdrAt, Disjoint, SegmentOk, UserRootOk, Level2Ok, KernelOk;
    var ws := AllWants(file);
    if Need(s0, u, ws) <= CountFree(s0.used) {
      LoadedIsVisible(s, ram, u, file);
      if ws != [] { NeedPrefix(s0, u, ws, |ws| - 1); }
    } else if Unmapped(s0, u, file) {
      FaultHidesImage(ram, |s.mem|, u, file, |ws| - 1);
    }
  }

  lemma LoadStops(s0: State, s: State, ram: seq<u8>, u: nat, file: seq<u8>, n: nat)
    requires Loadable(file) && Inv(s) && |ram| == |s.mem| * PAGE_SIZE && s.mem == View(ram, |s.mem|)
    requires n < |AllWants(file)| && SoFar(s0, s, ram, u, file, AllWants(file)[..n]) && CountFree(s.used) == 0
    requires forall i :: 0 <= i < n ==> Vpn(AllWants(file)[i].va) != Vpn(AllWants(file)[n].va)
    ensures Outcome(s0, |s.mem|, ram, u, file, false) && Afterwards(s0, s, ram, u, file)
  {
    hide Walk, Missing, TablesFor, CountFree, Loaded, MissingGiven, View;
    hide ImageVisible, Wants, PhdrAt, Disjoint, UserRootOk, Level2Ok, KernelOk;
    var ws := AllWants(file);
    NeedPrefix(s0, u, ws, n);
    if Unmapped(s0, u, file) {
      WantsFromHeaders(file, PhNum(file), n);
      SegmentIsPrivate(file, ws[n].ph, ws[n].va);
      assert Vpn(ws[n].va) !in Vpns(ws[..n]);
      FaultHidesImage(ram, |s.mem|, u, file, n);
    }
  }

  // ------------------------------------------------------------ the loops

  /** The page loop over one PT_LOAD segment; s0 is the state before the first segment. */
  method LoadSegment(mmu: PageTables, file: seq<u8>, n: nat, pgd: nat, ghost s0: State) returns (ok: bool, ghost j: nat)
    requires mmu.Valid() && pgd >= MEMORY_BASE && IsUser(mmu.Tables(), PageOf(pgd))
    requires Loadable(file) && n < PhNum(file) && PhdrAt(file, n).kind == PT_LOAD
    requires SoFar(s0, mmu.Tables(), mmu.pages.ram[..], PageOf(pgd), file, Wants(file, n))
    modifies mmu, mmu.pages, mmu.pages.bitmap, mmu.pages.ram
    ensures mmu.Valid() && IsUser(mmu.Tables(), PageOf(pgd))
    ensures j <= PageCount(PhdrAt(file, n))
    ensures SoFar(s0, mmu.Tables(), mmu.pages.ram[..], PageOf(pgd), file, Done(file, n, j))
    ensures ok <==> j == PageCount(PhdrAt(file, n))
    ensures !ok ==> mmu.pages.freePages == 0
  {
    hide SoFar, Inv, Wants, PhdrAt, Disjoint, Stepped, End, PageCount, IsUser, SegmentPages;
    var ph := PhdrAt(file, n);
    ghost var u := PageOf(pgd);
    j, ok := 0, true;
    var va := ph.vaddr;
    assert Wants(file, n) + [] == Wants(file, n) == Done(file, n, 0);
    PageOfSegment(file, ph, 0);
    while va < End(ph)
      invariant mmu.Valid() && IsUser(mmu.Tables(), u)
      invariant va == ph.vaddr + j * PAGE_SIZE && j <= PageCount(ph) && (va < End(ph) <==> j < PageCount(ph))
      invariant SoFar(s0, mmu.Tables(), mmu.pages.ram[..], u, file, Done(file, n, j))
      decreases PageCount(ph) - j
    {
      ghost var s1, ram1 := mmu.Tables(), mmu.pages.ram[..];
      PageOfSegment(file, ph, j);
      ok := LoadPage(mmu, file, ph, pgd, va);
      if !ok { return; }
      LoadNext(s0, s1, ram1, mmu.Tables(), mmu.pages.ram[..], u, file, n, j);
      va := va + PAGE_SIZE;
      j := j + 1;
      PageOfSegment(file, ph, j);
    }
  }

  lemma LoadNext(s0: State, s: State, ram: seq<u8>, r: State, ram': seq<u8>, u: nat, file: seq<u8>, n: nat, j: nat)
    requires Loadable(file) && n < PhNum(file) && PhdrAt(file, n).kind == PT_LOAD && j < PageCount(PhdrAt(file, n))
    requires SoFar(s0, s, ram, u, file, Done(file, n, j)) && Inv(s)
    requires LoadStep(s, ram, r, ram', true, u, file, PageWant(PhdrAt(file, n), PhdrAt(file, n).vaddr + j * PAGE_SIZE))
    ensures SoFar(s0, r, ram', u, file, Done(file, n, j + 1))
  {
    hide SoFar, LoadStep, Wants, PhdrAt, Disjoint, End, PageCount, UserRootOk, Level2Ok, KernelOk;
    var ph := PhdrAt(file, n);
    var ws, w := Done(file, n, j), PageWant(ph, ph.vaddr + j * PAGE_SIZE);
    PageOfSegment(file, ph, j);
    forall k | 0 <= k < |ws| ensures Vpn(ws[k].va) != Vpn(w.va) {
      NextIsNew(file, n, j, k);
    }
    SoFarNext(s0, s, ram, r, ram', u, file, ws, w);
    assert Done(file, n, j + 1) == ws + [w];
  }

  /** A segment is done, or there was none: the list grows by its pages. */
  lemma HeaderDone(file: seq<u8>, n: nat)
    requires Loadable(file) && n < PhNum(file)
    ensures PhdrAt(file, n).kind == PT_LOAD ==> Done(file, n, PageCount(PhdrAt(file, n))) == Wants(file, n + 1)
    ensures PhdrAt(file, n).kind != PT_LOAD ==> Wants(file, n) == Wants(file, n + 1)
  {
  }

  /**
    The segment loop of load_and_exec.  Tables are allocated silently, so it may report success although the last page
    lacks its tables: success takes NeedToReport free pages, an image the program can see takes Need.
   */
  method LoadSegments(mmu: PageTables, file: seq<u8>, pgd: nat) returns (ok: bool)
    requires mmu.Valid() && pgd >= MEMORY_BASE && IsUser(mmu.Tables(), PageOf(pgd)) && Loadable(file)
    modifies mmu, mmu.pages, mmu.pages.bitmap, mmu.pages.ram
    ensures mmu.Valid()
    ensures Outcome(old(mmu.Tables()), mmu.pages.totalPages, mmu.pages.ram[..], PageOf(pgd), file, ok)
    ensures Afterwards(old(mmu.Tables()), mmu.Tables(), mmu.pages.ram[..], PageOf(pgd), file)
  {
    hide SoFar, Inv, Wants, PhdrAt, Disjoint, SegmentOk, End, PageCount, IsUser, Outcome, Afterwards;
    ghost var s0, u := mmu.Tables(), PageOf(pgd);
    ok := true;
    SoFarStart(s0, mmu.pages.ram[..], u, file);
    assert Wants(file, 0) == [] by { NoWants(file); }
    var i := 0;
    while i < PhNum(file)
      invariant 0 <= i <= PhNum(file)
      invariant mmu.Valid() && IsUser(mmu.Tables(), u)
      invariant SoFar(s0, mmu.Tables(), mmu.pages.ram[..], u, file, Wants(file, i))
    {
      HeaderDone(file, i);
      if PhdrAt(file, i).kind == PT_LOAD {
        ghost var j;
        ok, j := LoadSegment(mmu, file, i, pgd, s0);
        if !ok {
          Stopped(s0, mmu.Tables(), mmu.pages.ram[..], u, file, i, j);
          return;
        }
      }
      i := i + 1;
    }
    LoadEnds(s0, mmu.Tables(), mmu.pages.ram[..], u, file);
    return true;
  }

  lemma NoWants(file: seq<u8>)
    requires Loadable(file)
    ensures Wants(file, 0) == []
  {
  }

  lemma Stopped(s0: State, s: State, ram: seq<u8>, u: nat, file: seq<u8>, n: nat, j: nat)
    requires Loadable(file) && Inv(s) && |ram| == |s.mem| * PAGE_SIZE && s.mem == View(ram, |s.mem|)
    requires n < PhNum(file) && PhdrAt(file, n).kind == PT_LOAD && j < PageCount(PhdrAt(file, n))
    requires SoFar(s0, s, ram, u, file, Done(file, n, j)) && CountFree(s.used) == 0
    ensures Outcome(s0, |s.mem|, ram, u, file, false) && Afterwards(s0, s, ram, u, file)
  {
    hide SoFar, Inv, Wants, PhdrAt, Disjoint, SegmentOk, End, PageCount, Outcome, View, SegmentPages;
    hide Afterwards;
    DoneIsPrefix(file, n, j);
    var ws, all := Done(file, n, j), AllWants(file);
    forall k | 0 <= k < |ws| ensures Vpn(all[k].va) != Vpn(all[|ws|].va) {
      NextIsNew(file, n, j, k);
      assert all[k] == ws[k];
    }
    LoadStops(s0, s, ram, u, file, |ws|);
  }

  // ------------------------------------------------------------ on a fresh table

  /** Pages of the image, and tables for a fresh table: one per gigabyte and one per two megabytes touched. */
  function PagesNeeded(file: seq<u8>): (n: nat) requires Loadable(file) { |AllWants(file)| }

  function TablesNeeded(vs: seq<nat>): (n: nat) { |Gigabytes(vs)| + |Stretches(vs)| }

  /** Free pages after which a program sees the image, and after which the loader says so. */
  function EnoughToSee(file: seq<u8>): (n: nat)
    requires Loadable(file)
  {
    PagesNeeded(file) + TablesNeeded(Vpns(AllWants(file)))
  }

  function EnoughToReport(file: seq<u8>): (n: nat)
    requires Loadable(file)
  {
    var vs := Vpns(AllWants(file));
    if vs == [] then 0 else |vs| + TablesNeeded(vs[..|vs| - 1])
  }

  lemma FreshNeed(s: State, u: nat, file: seq<u8>)
    requires Loadable(file) && Inv(s) && IsUser(s, u) && u < |s.mem| && NoTables(s, u)
    ensures Need(s, u, AllWants(file)) == EnoughToSee(file)
    ensures NeedToReport(s, u, AllWants(file)) == EnoughToReport(file)
    ensures Unmapped(s, u, file)
  {
    hide Wants, PhdrAt, Disjoint, TablesFor, Walk, Missing, UserRootOk, Level2Ok, KernelOk;
    var ws := AllWants(file);
    var vs := Vpns(ws);
    forall i | 0 <= i < |vs| ensures Private(vs[i]) && Walk(s.mem, u, vs[i]) == Fault {
      WantsFromHeaders(file, PhNum(file), i);
      SegmentIsPrivate(file, ws[i].ph, ws[i].va);
      FreshFaults(s, u, vs[i]);
    }
    FreshTables(s, u, vs);
    if ws != [] {
      assert Vpns(ws[..|ws| - 1]) == vs[..|vs| - 1];
      FreshTables(s, u, vs[..|vs| - 1]);
    }
  }

  /** A program on this table sees its image, or does not. */
  ghost predicate Sees(mmu: PageTables, pgd: nat, file: seq<u8>, yes: bool)
    requires Loadable(file)
    reads mmu, mmu.pages, mmu.pages.bitmap, mmu.pages.ram
  {
    && mmu.Valid() && pgd >= MEMORY_BASE && PageOf(pgd) < mmu.pages.totalPages
    && (ImageVisible(mmu.pages.ram[..], mmu.pages.totalPages, PageOf(pgd), file) <==> yes)
  }

  /** What is left after loading into a new table u: every other table translates as before, u maps nothing but the
      image, and no page is left or exactly the needed ones are gone. */
  ghost predicate Built(s: State, r: State, ram: seq<u8>, u: nat, file: seq<u8>)
  {
    && Loadable(file) && Sized(s) && Sized(r) && |r.mem| == |s.mem| && u < |s.mem| && IsUser(r, u) && !IsRoot(s, u)
    && Extends(s, r) && WalksKept(s, r, u, [])
    && var vs, free := Vpns(AllWants(file)), CountFree(s.used);
    && (forall v: nat :: v < VPN_LIMIT && Private(v) && v !in vs ==> Walk(r.mem, u, v) == Fault)
    && if 1 + EnoughToSee(file) <= free then
         && CountFree(r.used) == free - 1 - EnoughToSee(file) && AllLoaded(r, ram, u, file, AllWants(file))
         && forall v: nat :: Private(v) ==> Missing(r, u, v) == TablesNeeded(vs + [v]) - TablesNeeded(vs)
       else CountFree(r.used) == 0
  }

  lemma ImageBuilt(s: State, s0: State, r: State, ram: seq<u8>, u: nat, file: seq<u8>)
    requires Loadable(file) && Inv(s) && CreateTable(s) == (s0, Some(u)) && Afterwards(s0, r, ram, u, file)
    ensures Built(s, r, ram, u, file)
  {
    hide Wants, PhdrAt, Disjoint, TablesFor, Walk, Missing, UserRootOk, Level2Ok, KernelOk, CountFree, Loaded;
    hide TablesNeeded, MissingGiven;
    var vs := Vpns(AllWants(file));
    CreatedFresh(s);
    CreateTableRefines(s);
    FreshNeed(s0, u, file);
    ExtendsTransitive(s, s0, r);
    forall x: nat, v: nat | x < |s.mem| && IsRoot(s, x) && v < VPN_LIMIT
      ensures Walk(r.mem, x, v) == Walk(s.mem, x, v)
    {
      assert IsRoot(s0, x) && x != u;
    }
    forall v: nat | v < VPN_LIMIT && Private(v) && v !in vs ensures Walk(r.mem, u, v) == Fault {
      FreshFaults(s0, u, v);
    }
    forall v: nat | Private(v) ensures MissingGiven(s0, u, vs, v) == TablesNeeded(vs + [v]) - TablesNeeded(vs) {
      FreshNext(s0, u, file, v);
    }
  }

  lemma FreshNext(s: State, u: nat, file: seq<u8>, v: nat)
    requires Loadable(file) && Sized(s) && u < |s.mem| && NoTables(s, u) && Private(v)
    ensures var vs := Vpns(AllWants(file)); MissingGiven(s, u, vs, v) == TablesNeeded(vs + [v]) - TablesNeeded(vs)
  {
    hide Wants, PhdrAt, Disjoint, TablesFor, Missing, MissingGiven;
    var ws, vs := AllWants(file), Vpns(AllWants(file));
    forall i | 0 <= i < |vs| ensures Private(vs[i]) {
      WantsFromHeaders(file, PhNum(file), i);
      SegmentIsPrivate(file, ws[i].ph, ws[i].va);
    }
    TablesForNext(s, u, vs, v);
    FreshTables(s, u, vs);
    FreshTables(s, u, vs + [v]);
  }

  /** load_and_exec from the new page table to the loaded image. */
  method LoadImage(mmu: PageTables, file: seq<u8>) returns (ok: bool, pgd: nat)
    requires mmu.Valid() && Loadable(file)
    modifies mmu, mmu.pages, mmu.pages.bitmap, mmu.pages.ram
    ensures mmu.Valid() && (pgd == 0 <==> old(mmu.pages.freePages) == 0)
    ensures ok <==> old(mmu.pages.freePages) >= 1 + EnoughToReport(file)
    ensures pgd != 0 ==> Sees(mmu, pgd, file, old(mmu.pages.freePages) >= 1 + EnoughToSee(file))
    ensures pgd == 0 ==> mmu.Tables() == old(mmu.Tables())
    ensures pgd != 0 ==> Built(old(mmu.Tables()), mmu.Tables(), mmu.pages.ram[..], PageOf(pgd), file)
  {
    hide Inv, Wants, PhdrAt, Disjoint, SegmentOk, IsUser, Built, Afterwards;
    hide ImageVisible, EnoughToSee, EnoughToReport, Need, NeedToReport, Unmapped;
    ghost var s := mmu.Tables();
    pgd := mmu.CreateUserPageTable();
    CreatedFresh(s);
    if pgd == 0 { return false, 0; }
    ghost var s0 := mmu.Tables();
    FreshNeed(s0, PageOf(pgd), file);
    ok := LoadSegments(mmu, file, pgd);
    ImageBuilt(s, s0, mmu.Tables(), mmu.pages.ram[..], PageOf(pgd), file);
  }

  lemma CreatedFresh(s: State)
    requires Inv(s)
    ensures var (r, u) := CreateTable(s);
      && (u.None? <==> CountFree(s.used) == 0)
      && (u.Some? ==>
            Inv(r) && IsUser(r, u.value) && NoTables(r, u.value) && CountFree(r.used) == CountFree(s.used) - 1)
  {
    CreateTableRefines(s);
    if CountFree(s.used) > 0 {
      CreatedHasNoTables(s);
      CountFreeUpdate(s.used, FirstFree(s.used), true);
    }
  }

  // ------------------------------------------------------------ a load that misses its last page

  /** A file whose only segment is one zero page at 2GB. */
  function ZeroPageFile(): (file: seq<u8>)
    ensures |file| == 120
  {
    seq(120, i => if i == 32 then 64 else if i == 54 then 56 else if i == 56 || i == 64 then 1
                  else if i == 83 then 0x80 else if i == 105 then 0x10 else 0)
  }

  /** A number with one byte that is not zero. */
  lemma {:induction false} SingleByte(b: seq<u8>, k: nat)
    requires k < |b| && forall i :: 0 <= i < |b| && i != k ==> b[i] == 0
    ensures FromLE(b) == b[k] * Pow256(k)
  {
    if k == 0 {
      ZeroBytes(b[1..]);
    } else {
      SingleByte(b[1..], k - 1);
    }
  }

  lemma ZeroPageHeader()
    ensures var file := ZeroPageFile();
      HeadersPresent(file) && PhNum(file) == 1 && PhdrAt(file, 0) == Phdr(PT_LOAD, 0, 0x8000_0000, 0, 0x1000)
  {
    hide FromLE;
    var file := ZeroPageFile();
    SingleByte(file[32..40], 0);
    SingleByte(file[54..56], 0);
    SingleByte(file[56..58], 0);
    SingleByte(file[64..68], 0);
    ZeroBytes(file[72..80]);
    SingleByte(file[80..88], 3);
    ZeroBytes(file[96..104]);
    SingleByte(file[104..112], 1);
    assert Pow256(0) == 1 && Pow256(1) == 256 && Pow256(3) == 0x100_0000;
  }

  /** It is reported as loaded with one free page, but seen only with three. */
  lemma ZeroPageNeeds()
    ensures var file := ZeroPageFile(); Loadable(file) && EnoughToReport(file) == 1 && EnoughToSee(file) == 3
  {
    hide PhdrAt, HeadersPresent, PhNum, ZeroPageFile;
    ZeroPageHeader();
    var file := ZeroPageFile();
    var ph := Phdr(PT_LOAD, 0, 0x8000_0000, 0, 0x1000);
    assert End(ph) == 0x8000_1000 && PageCount(ph) == 1;
    assert Loadable(file);
    assert Wants(file, 1) == Wants(file, 0) + SegmentPages(ph, 1) == [PageWant(ph, 0x8000_0000)];
    var vs := Vpns(AllWants(file));
    assert vs == [0x8_0000] && vs[..0] == [];
    assert Index1(0x8_0000) == 2 && Index2(0x8_0000) == 0;
    assert Gigabytes(vs) == {2} && Stretches(vs) == {(2, 0)};
    assert Gigabytes([]) == {} && Stretches([]) == {};
  }

  lemma FiveFree(used: seq<bool>)
    requires |used| == 5 && forall p :: 0 <= p < 5 ==> (used[p] <==> p < 1)
    ensures CountFree(used) == 4 && FirstFree(used) < 5 && CountFree(used[FirstFree(used) := true]) == 3
  {
    CountFreeAll(used[1..]);
    CountFreeUpdate(used, FirstFree(used), true);
  }

  /** From boot with five pages: the loader reports success and the program faults on its only page. */
  method MissedPage() returns (mmu: PageTables, file: seq<u8>, ok: bool, pgd: nat)
    ensures Loadable(file) && ok && Sees(mmu, pgd, file, false)
  {
    hide Inv, EnoughToSee, EnoughToReport, Sees, CountFree, ZeroPageFile;
    var pages := new PageAllocator(5 * PAGE_SIZE, 1);
    mmu := new PageTables(pages, 0);
    FiveFree(pages.Used());
    var up := mmu.Init();
    assert up;
    ZeroPageNeeds();
    file := ZeroPageFile();
    ok, pgd := LoadImage(mmu, file);
  }
}
