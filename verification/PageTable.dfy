/**
  The three-level translation tables of src/mm/mmu.cpp, as values.

  Memory is seen page by page, each page as 512 descriptors.  `Walk` is what the
  hardware does with a root table and a virtual page number.  The functions `Link`,
  `MapPage` and `CreateTable` are the table operations of the kernel on such values;
  the class in Mmu.dfy performs them on bytes.

  `place` records which table page sits at which position of which tree.  Because it is
  a map from pages to positions, a page cannot hang in two places.
 */
module PageTable {
  import opened Machine
  import opened Pages

  const ENTRIES: nat := 512
  const VPN_LIMIT: nat := 0x800_0000        // 39-bit addresses, 4KB pages
  const FIRST_PRIVATE: nat := 2             // L1 slots 0 and 1 hold the kernel's own mappings

  // VALID | AF | ATTR_DEVICE | UXN | PXN, a 1GB block at address 0.
  const DEVICE_BLOCK: nat := 0x0060_0000_0000_0405

  /** VALID | AF | SH_INNER | UXN, a 2MB block of RAM. */
  function RamBlock(i: nat): (d: nat) { 0x0040_0000_0000_0701 + 0x4000_0000 + i * 0x20_0000 }

  type Page = seq<nat>
  type Memory = seq<Page>

  datatype Place = Root | Level2(root: nat, i1: nat) | Level3(root: nat, i1: nat, i2: nat)

  datatype State = State(mem: Memory, used: seq<bool>, kernel: nat, kernelL2: nat, device: nat, place: map<nat, Place>)

  // ------------------------------------------------------------ the hardware walk

  datatype Translation = Fault | Leaf(level: nat, desc: nat)

  function Index1(vpn: nat): (i: nat) { vpn / 0x4_0000 % ENTRIES }
  function Index2(vpn: nat): (i: nat) { vpn / 0x200 % ENTRIES }
  function Index3(vpn: nat): (i: nat) { vpn % ENTRIES }

  /** Bits 47 to 12 of a descriptor. */
  function AddressField(desc: nat): (addr: nat) { desc / 0x1000 % 0x10_0000_0000 * 0x1000 }

  /** The page a descriptor's address field points to, if it lies in this memory. */
  function Follow(pages: nat, desc: nat): (page: Option<nat>)
    ensures page.Some? ==> page.value < pages
  {
    var addr := AddressField(desc);
    if addr >= MEMORY_BASE && PageOf(addr) < pages then Some(PageOf(addr)) else None
  }

  function LeafOf(desc: nat): (t: Translation)
  {
    if desc % 4 == 3 then Leaf(3, desc) else Fault
  }

  predicate WellSized(mem: Memory)
  {
    |mem| <= MAX_PAGES && forall p :: 0 <= p < |mem| ==> |mem[p]| == ENTRIES
  }

  function Walk(mem: Memory, root: nat, vpn: nat): (t: Translation)
    requires WellSized(mem) && root < |mem|
  {
    var e1 := mem[root][Index1(vpn)];
    if e1 % 2 == 0 then Fault
    else if e1 % 4 == 1 then Leaf(1, e1)
    else
      match Follow(|mem|, e1)
      case None => Fault
      case Some(t2) =>
        var e2 := mem[t2][Index2(vpn)];
        if e2 % 2 == 0 then Fault
        else if e2 % 4 == 1 then Leaf(2, e2)
        else
          match Follow(|mem|, e2)
          case None => Fault
          case Some(t3) => LeafOf(mem[t3][Index3(vpn)])
  }

  // ------------------------------------------------------------ the kernel's operations

  /** A table descriptor: the page's address with PTE_VALID and PTE_TABLE. */
  function TableDesc(page: nat): (d: nat) { PageAddress(page) + 3 }

  function Zeroes(): (p: Page)
    ensures |p| == ENTRIES
  {
    seq(ENTRIES, _ => 0)
  }

  function Store(mem: Memory, page: nat, index: nat, d: nat): (r: Memory)
    requires WellSized(mem) && page < |mem| && index < ENTRIES
    ensures WellSized(r) && |r| == |mem|
  {
    var row: Page := mem[page][index := d];
    mem[page := row]
  }

  predicate Sized(s: State)
  {
    WellSized(s.mem) && |s.used| == |s.mem|
  }

  /** get_or_create_table: the table below `page[index]`, allocated on demand. */
  function Link(s: State, page: nat, index: nat, place: Place): (r: (State, Option<nat>))
    requires Sized(s) && page < |s.mem| && index < ENTRIES
    ensures Sized(r.0) && |r.0.mem| == |s.mem|
    ensures r.1.Some? ==> r.1.value < |s.mem|
  {
    var e := s.mem[page][index];
    if e % 2 == 0 then
      var q := FirstFree(s.used);
      if q == |s.used| then (s, None)
      else
        var mem := s.mem[q := Zeroes()];
        (s.(mem := Store(mem, page, index, TableDesc(q)), used := s.used[q := true],
            place := s.place[q := place]), Some(q))
    else (s, Follow(|s.mem|, e))
  }

  /** map_page_in_table for the virtual page `vpn` with final descriptor d. */
  function MapPage(s: State, root: nat, vpn: nat, d: nat): (r: State)
    requires Sized(s) && root < |s.mem|
    ensures Sized(r) && |r.mem| == |s.mem|
  {
    var (s1, t2) := Link(s, root, Index1(vpn), Level2(root, Index1(vpn)));
    if t2.None? then s1 else
      var (s2, t3) := Link(s1, t2.value, Index2(vpn), Level3(root, Index1(vpn), Index2(vpn)));
      if t3.None? then s2 else s2.(mem := Store(s2.mem, t3.value, Index3(vpn), d))
  }

  /** create_user_page_table: a fresh root holding a copy of the kernel's L1 entries. */
  function CreateTable(s: State): (r: (State, Option<nat>))
    requires Sized(s) && s.kernel < |s.mem|
    ensures Sized(r.0) && |r.0.mem| == |s.mem|
    ensures r.1.Some? ==> r.1.value < |s.mem|
  {
    var q := FirstFree(s.used);
    if q == |s.used| then (s, None)
    else (s.(mem := s.mem[q := s.mem[s.kernel]], used := s.used[q := true], place := s.place[q := Root]), Some(q))
  }

  // ------------------------------------------------------------ the invariant

  predicate IsRoot(s: State, u: nat) { u in s.place && s.place[u] == Root }

  predicate IsUser(s: State, u: nat) { IsRoot(s, u) && u != s.kernel }

  /** An entry of an upper-level table is empty or names the table at the position below it. */
  predicate LinkOk(s: State, e: nat, place: Place)
  {
    || e == 0
    || exists q :: q in s.place && s.place[q] == place && e == TableDesc(q)
  }

  predicate UserRootOk(s: State, u: nat)
    requires Sized(s) && u < |s.mem| && s.kernel < |s.mem|
  {
    && (forall i :: 0 <= i < FIRST_PRIVATE ==> s.mem[u][i] == s.mem[s.kernel][i])
    && (forall i :: FIRST_PRIVATE <= i < ENTRIES ==> LinkOk(s, s.mem[u][i], Level2(u, i)))
  }

  predicate Level2Ok(s: State, q: nat, u: nat, i1: nat)
    requires Sized(s) && q < |s.mem|
  {
    forall j :: 0 <= j < ENTRIES ==> LinkOk(s, s.mem[q][j], Level3(u, i1, j))
  }

  predicate KernelOk(s: State)
    requires Sized(s)
  {
    && IsRoot(s, s.kernel) && s.kernel < |s.mem|
    && s.kernelL2 < |s.mem| && s.kernelL2 in s.place && s.place[s.kernelL2] == Level2(s.kernel, 1)
    && s.mem[s.kernel][0] == s.device && s.device % 4 == 1
    && s.mem[s.kernel][1] == TableDesc(s.kernelL2)
    && (forall i :: FIRST_PRIVATE <= i < ENTRIES ==> s.mem[s.kernel][i] == 0)
    && (forall i :: 0 <= i < ENTRIES ==> s.mem[s.kernelL2][i] == if i < 128 then RamBlock(i) else 0)
  }

  ghost predicate Inv(s: State)
  {
    && Sized(s)
    && (forall p :: p in s.place ==> p < |s.mem| && s.used[p])
    && KernelOk(s)
    && (forall u: nat :: IsUser(s, u) ==> UserRootOk(s, u))
    && (forall q :: q in s.place && s.place[q].Level2? && s.place[q].root != s.kernel
          ==> Level2Ok(s, q, s.place[q].root, s.place[q].i1))
  }

  // ------------------------------------------------------------ descriptors

  /** Low flags do not disturb the address field. */
  lemma FieldOfPage(k: nat, flags: nat)
    requires k < 0x10_0000_0000 && flags < 0x1000
    ensures AddressField(k * 0x1000 + flags) == k * 0x1000
  {
    var d := k * 0x1000 + flags;
    assert d / 0x1000 == k;
    SmallModulus(k, 0x10_0000_0000);
  }

  lemma SmallModulus(k: nat, m: nat)
    requires k < m
    ensures k % m == k
  {
  }

  /** The address field of a table descriptor is the table it was made for. */
  lemma TableDescValue(page: nat, pages: nat)
    requires page < pages <= MAX_PAGES
    ensures TableDesc(page) % 4 == 3
    ensures Follow(pages, TableDesc(page)) == Some(page)
  {
    var k := 0x4_0000 + page;
    assert TableDesc(page) == k * 0x1000 + 3;
    FieldOfPage(k, 3);
    assert k * 0x1000 == PageAddress(page);
  }

  // ------------------------------------------------------------ paths

  /** The tables a walk passes through, in a state that satisfies the invariant. */
  datatype Path = NoTable | Device | KernelRam | NoLeafTable(t2: nat) | Tables(t2: nat, t3: nat)

  ghost predicate OnPath(s: State, x: nat, vpn: nat, path: Path)
    requires Inv(s) && IsRoot(s, x)
  {
    var i1, i2 := Index1(vpn), Index2(vpn);
    match path
    case NoTable => s.mem[x][i1] == 0
    case Device => i1 == 0 && s.mem[x][i1] == s.device
    case KernelRam => i1 == 1 && s.mem[x][i1] == TableDesc(s.kernelL2)
    case NoLeafTable(t2) =>
      && i1 >= FIRST_PRIVATE && IsUser(s, x)
      && t2 in s.place && s.place[t2] == Level2(x, i1)
      && s.mem[x][i1] == TableDesc(t2) && s.mem[t2][i2] == 0
    case Tables(t2, t3) =>
      && i1 >= FIRST_PRIVATE && IsUser(s, x)
      && t2 in s.place && s.place[t2] == Level2(x, i1)
      && t3 in s.place && s.place[t3] == Level3(x, i1, i2)
      && s.mem[x][i1] == TableDesc(t2) && s.mem[t2][i2] == TableDesc(t3)
  }

  lemma FindPath(s: State, x: nat, vpn: nat) returns (path: Path)
    requires Inv(s) && IsRoot(s, x)
    ensures OnPath(s, x, vpn, path)
  {
    var i1, i2 := Index1(vpn), Index2(vpn);
    if i1 < FIRST_PRIVATE {
      assert s.mem[x][i1] == s.mem[s.kernel][i1] by { if x != s.kernel { assert IsUser(s, x); } }
      path := if i1 == 0 then Device else KernelRam;
    } else if s.mem[x][i1] == 0 {
      path := NoTable;
    } else {
      assert IsUser(s, x);
      assert LinkOk(s, s.mem[x][i1], Level2(x, i1));
      var t2 :| t2 in s.place && s.place[t2] == Level2(x, i1) && s.mem[x][i1] == TableDesc(t2);
      assert Level2Ok(s, t2, x, i1);
      assert LinkOk(s, s.mem[t2][i2], Level3(x, i1, i2));
      if s.mem[t2][i2] == 0 {
        path := NoLeafTable(t2);
      } else {
        var t3 :| t3 in s.place && s.place[t3] == Level3(x, i1, i2) && s.mem[t2][i2] == TableDesc(t3);
        path := Tables(t2, t3);
      }
    }
  }

  /** What a walk yields, read off its path in any memory that has the same tables on it. */
  function PathValue(s: State, mem: Memory, vpn: nat, path: Path): (t: Translation)
    requires WellSized(mem)
    requires path.Tables? ==> path.t3 < |mem|
  {
    match path
    case NoTable => Fault
    case Device => Leaf(1, s.device)
    case KernelRam => if Index2(vpn) < 128 then Leaf(2, RamBlock(Index2(vpn))) else Fault
    case NoLeafTable(_) => Fault
    case Tables(_, t3) => LeafOf(mem[t3][Index3(vpn)])
  }

  lemma RamBlockIsBlock(i: nat)
    ensures RamBlock(i) % 4 == 1
  {
    assert RamBlock(i) == 4 * (0x0010_0000_0000_01C0 + 0x1000_0000 + i * 0x8_0000) + 1;
  }

  /** A walk through one table descriptor. */
  lemma WalkTo2(mem: Memory, x: nat, vpn: nat, t2: nat)
    requires WellSized(mem) && x < |mem| && t2 < |mem| && mem[x][Index1(vpn)] == TableDesc(t2)
    ensures var e2 := mem[t2][Index2(vpn)];
      Walk(mem, x, vpn) ==
        if e2 % 2 == 0 then Fault
        else if e2 % 4 == 1 then Leaf(2, e2)
        else match Follow(|mem|, e2) case None => Fault case Some(t3) => LeafOf(mem[t3][Index3(vpn)])
  {
    TableDescValue(t2, |mem|);
  }

  lemma WalkTo3(mem: Memory, x: nat, vpn: nat, t2: nat, t3: nat)
    requires WellSized(mem) && x < |mem| && t2 < |mem| && t3 < |mem|
    requires mem[x][Index1(vpn)] == TableDesc(t2) && mem[t2][Index2(vpn)] == TableDesc(t3)
    ensures Walk(mem, x, vpn) == LeafOf(mem[t3][Index3(vpn)])
  {
    WalkTo2(mem, x, vpn, t2);
    TableDescValue(t3, |mem|);
  }

  lemma WalkAlong(s: State, x: nat, vpn: nat, path: Path)
    requires Inv(s) && IsRoot(s, x) && OnPath(s, x, vpn, path)
    ensures Walk(s.mem, x, vpn) == PathValue(s, s.mem, vpn, path)
  {
    match path
    case NoTable =>
    case Device =>
    case KernelRam =>
      WalkTo2(s.mem, x, vpn, s.kernelL2);
      RamBlockIsBlock(Index2(vpn));
    case NoLeafTable(t2) =>
      WalkTo2(s.mem, x, vpn, t2);
    case Tables(t2, t3) =>
      WalkTo3(s.mem, x, vpn, t2, t3);
  }

  // ------------------------------------------------------------ hanging a fresh table below an empty slot

  ghost predicate EmptySlot(s: State, page: nat, index: nat, place: Place)
    requires Inv(s)
  {
    && page in s.place && index < ENTRIES && s.mem[page][index] == 0
    && (|| (IsUser(s, page) && index >= FIRST_PRIVATE && place == Level2(page, index))
        || (s.place[page].Level2? && s.place[page].root != s.kernel
            && place == Level3(s.place[page].root, s.place[page].i1, index)))
  }

  function Grafted(s: State, page: nat, index: nat, place: Place, q: nat): (r: State)
    requires Sized(s) && page < |s.mem| && index < ENTRIES && q < |s.mem|
    ensures Sized(r) && |r.mem| == |s.mem|
  {
    s.(mem := Store(s.mem[q := Zeroes()], page, index, TableDesc(q)), used := s.used[q := true],
        place := s.place[q := place])
  }

  lemma LinkOkMonotone(s: State, r: State, e: nat, place: Place)
    requires LinkOk(s, e, place)
    requires forall p :: p in s.place ==> p in r.place && r.place[p] == s.place[p]
    ensures LinkOk(r, e, place)
  {
  }

  lemma GraftKeepsInv(s: State, page: nat, index: nat, place: Place, q: nat)
    requires Inv(s) && EmptySlot(s, page, index, place) && q < |s.mem| && !s.used[q]
    ensures Inv(Grafted(s, page, index, place, q))
  {
    var r := Grafted(s, page, index, place, q);
    assert q !in s.place && q != page;
    assert forall p :: p in s.place && p != page ==> r.mem[p] == s.mem[p];
    assert LinkOk(r, TableDesc(q), place);
    forall u: nat | IsUser(r, u) ensures UserRootOk(r, u) {
      assert IsUser(s, u);
      forall i | FIRST_PRIVATE <= i < ENTRIES ensures LinkOk(r, r.mem[u][i], Level2(u, i)) {
        if u != page || i != index { LinkOkMonotone(s, r, s.mem[u][i], Level2(u, i)); }
      }
    }
    forall t | t in r.place && r.place[t].Level2? && r.place[t].root != r.kernel
      ensures Level2Ok(r, t, r.place[t].root, r.place[t].i1)
    {
      forall j | 0 <= j < ENTRIES ensures LinkOk(r, r.mem[t][j], Level3(r.place[t].root, r.place[t].i1, j)) {
        if t == q {
          assert r.mem[t] == Zeroes();
        } else if t != page || j != index {
          assert t in s.place && r.place[t] == s.place[t];
          LinkOkMonotone(s, r, s.mem[t][j], Level3(s.place[t].root, s.place[t].i1, j));
        }
      }
    }
  }

  /** The same path, one table longer if it used to end at the empty slot. */
  function GraftedPath(page: nat, index: nat, q: nat, x: nat, vpn: nat, path: Path): (r: Path)
  {
    match path
    case NoTable => if x == page && Index1(vpn) == index then NoLeafTable(q) else path
    case NoLeafTable(t2) => if t2 == page && Index2(vpn) == index then Tables(t2, q) else path
    case _ => path
  }

  lemma GraftExtendsPath(s: State, page: nat, index: nat, place: Place, q: nat, x: nat, vpn: nat, path: Path)
    requires Inv(s) && EmptySlot(s, page, index, place) && q < |s.mem| && !s.used[q]
    requires IsRoot(s, x) && OnPath(s, x, vpn, path)
    ensures var r := Grafted(s, page, index, place, q);
      Inv(r) && IsRoot(r, x) && OnPath(r, x, vpn, GraftedPath(page, index, q, x, vpn, path))
  {
    hide KernelOk, UserRootOk, Level2Ok;
    var r := Grafted(s, page, index, place, q);
    GraftKeepsInv(s, page, index, place, q);
    assert q !in s.place && q != page;
    assert forall p :: p in s.place && p != page ==> r.mem[p] == s.mem[p];
    assert r.mem[q] == Zeroes();
  }

  lemma GraftKeepsWalks(s: State, page: nat, index: nat, place: Place, q: nat, x: nat, vpn: nat)
    requires Inv(s) && EmptySlot(s, page, index, place) && q < |s.mem| && !s.used[q]
    requires IsRoot(s, x)
    ensures Walk(Grafted(s, page, index, place, q).mem, x, vpn) == Walk(s.mem, x, vpn)
  {
    var path := FindPath(s, x, vpn);
    WalkAlong(s, x, vpn, path);
    GraftExtendsPath(s, page, index, place, q, x, vpn, path);
    var r := Grafted(s, page, index, place, q);
    WalkAlong(r, x, vpn, GraftedPath(page, index, q, x, vpn, path));
    GraftKeepsValue(s, page, index, place, q, x, vpn, path);
  }

  lemma GraftKeepsValue(s: State, page: nat, index: nat, place: Place, q: nat, x: nat, vpn: nat, path: Path)
    requires Inv(s) && EmptySlot(s, page, index, place) && q < |s.mem| && !s.used[q]
    requires IsRoot(s, x) && OnPath(s, x, vpn, path)
    ensures var r := Grafted(s, page, index, place, q);
      PathValue(r, r.mem, vpn, GraftedPath(page, index, q, x, vpn, path)) == PathValue(s, s.mem, vpn, path)
  {
    if path.Tables? { GraftKeepsLeaves(s, page, index, place, q, path.t3); }
    assert page != q;
  }

  lemma GraftKeepsLeaves(s: State, page: nat, index: nat, place: Place, q: nat, t: nat)
    requires Inv(s) && EmptySlot(s, page, index, place) && q < |s.mem| && !s.used[q]
    requires t < |s.mem| && s.used[t] && (t in s.place ==> s.place[t].Level3?)
    ensures Grafted(s, page, index, place, q).mem[t] == s.mem[t]
  {
  }

  // ------------------------------------------------------------ writing a leaf

  function LeafStored(s: State, t3: nat, index: nat, d: nat): (r: State)
    requires Sized(s) && t3 < |s.mem| && index < ENTRIES
    ensures Sized(r) && |r.mem| == |s.mem|
  {
    s.(mem := Store(s.mem, t3, index, d))
  }

  lemma StoreKeepsInv(s: State, t3: nat, index: nat, d: nat)
    requires Inv(s) && t3 in s.place && s.place[t3].Level3? && index < ENTRIES
    ensures Inv(LeafStored(s, t3, index, d))
  {
    var r := LeafStored(s, t3, index, d);
    assert forall p :: p in s.place && p != t3 ==> r.mem[p] == s.mem[p];
    forall u: nat | IsUser(r, u) ensures UserRootOk(r, u) {
      assert IsUser(s, u);
      forall i | FIRST_PRIVATE <= i < ENTRIES ensures LinkOk(r, r.mem[u][i], Level2(u, i)) {
        LinkOkMonotone(s, r, s.mem[u][i], Level2(u, i));
      }
    }
    forall t | t in r.place && r.place[t].Level2? && r.place[t].root != r.kernel
      ensures Level2Ok(r, t, r.place[t].root, r.place[t].i1)
    {
      forall j | 0 <= j < ENTRIES ensures LinkOk(r, r.mem[t][j], Level3(r.place[t].root, r.place[t].i1, j)) {
        LinkOkMonotone(s, r, s.mem[t][j], Level3(s.place[t].root, s.place[t].i1, j));
      }
    }
  }

  lemma StoreKeepsPath(s: State, t3: nat, index: nat, d: nat, x: nat, vpn: nat, path: Path)
    requires Inv(s) && t3 in s.place && s.place[t3].Level3? && index < ENTRIES
    requires IsRoot(s, x) && OnPath(s, x, vpn, path)
    ensures Inv(LeafStored(s, t3, index, d)) && IsRoot(LeafStored(s, t3, index, d), x)
    ensures OnPath(LeafStored(s, t3, index, d), x, vpn, path)
  {
    StoreKeepsInv(s, t3, index, d);
  }

  lemma IndicesDetermine(v: nat, w: nat)
    requires v < VPN_LIMIT && w < VPN_LIMIT
    requires Index1(v) == Index1(w) && Index2(v) == Index2(w) && Index3(v) == Index3(w)
    ensures v == w
  {
    hide Index1, Index2, Index3;
    FromIndices(v);
    FromIndices(w);
  }

  lemma FromIndices(v: nat)
    requires v < VPN_LIMIT
    ensures v == Index1(v) * 0x4_0000 + Index2(v) * 0x200 + Index3(v)
  {
  }

  /** Writing the leaf of one virtual page of one table changes that translation only. */
  lemma StoreWalks(s: State, u: nat, vpn: nat, t2: nat, t3: nat, d: nat, x: nat, v: nat)
    requires Inv(s) && IsRoot(s, u) && vpn < VPN_LIMIT && OnPath(s, u, vpn, Tables(t2, t3))
    requires IsRoot(s, x) && v < VPN_LIMIT
    ensures Walk(LeafStored(s, t3, Index3(vpn), d).mem, x, v)
         == if x == u && v == vpn then LeafOf(d) else Walk(s.mem, x, v)
  {
    var r := LeafStored(s, t3, Index3(vpn), d);
    var path := FindPath(s, x, v);
    WalkAlong(s, x, v, path);
    StoreKeepsPath(s, t3, Index3(vpn), d, x, v, path);
    WalkAlong(r, x, v, path);
    LeafReached(s, u, vpn, t2, t3, x, v, path);
  }

  /** The walk of (x, v) ends in the slot of (u, vpn) only if the two are the same. */
  lemma LeafReached(s: State, u: nat, vpn: nat, t2: nat, t3: nat, x: nat, v: nat, path: Path)
    requires Inv(s) && IsRoot(s, u) && vpn < VPN_LIMIT && OnPath(s, u, vpn, Tables(t2, t3))
    requires IsRoot(s, x) && v < VPN_LIMIT && OnPath(s, x, v, path)
    ensures path.Tables? && path.t3 == t3 && Index3(v) == Index3(vpn) <==> x == u && v == vpn
  {
    if path.Tables? && path.t3 == t3 && Index3(v) == Index3(vpn) {
      IndicesDetermine(v, vpn);
    }
  }

  // ------------------------------------------------------------ one operation

  /** r has all the tables of s where they were, and touched no page that s used for something else. */
  ghost predicate Extends(s: State, r: State)
    requires Sized(s) && Sized(r)
  {
    && |r.mem| == |s.mem| && r.kernel == s.kernel && r.kernelL2 == s.kernelL2 && r.device == s.device
    && (forall p :: p in s.place ==> p in r.place && r.place[p] == s.place[p])
    && (forall p :: p in r.place && p !in s.place ==> p < |s.used| && !s.used[p])
    && (forall p :: 0 <= p < |s.mem| && s.used[p] ==> r.used[p])
    && (forall p :: 0 <= p < |s.mem| && s.used[p] && p !in s.place ==> r.mem[p] == s.mem[p])
  }

  /** Every translation stays except, possibly, those of table u for the pages vs. */
  ghost predicate WalksKept(s: State, r: State, u: nat, vs: seq<nat>)
    requires Sized(s) && Sized(r) && |r.mem| == |s.mem|
  {
    forall x: nat, v: nat :: x < |s.mem| && IsRoot(s, x) && v < VPN_LIMIT && (x != u || v !in vs) ==>
      Walk(r.mem, x, v) == Walk(s.mem, x, v)
  }

  lemma WalksKeptOn(a: State, b: State, c: State, u: nat, vs: seq<nat>, ws: seq<nat>)
    requires Sized(a) && Sized(b) && Sized(c) && Extends(a, b) && |c.mem| == |b.mem|
    requires WalksKept(a, b, u, vs) && WalksKept(b, c, u, ws)
    ensures WalksKept(a, c, u, vs + ws)
  {
    hide Walk;
    forall x: nat, v: nat | x < |a.mem| && IsRoot(a, x) && v < VPN_LIMIT && (x != u || v !in vs + ws)
      ensures Walk(c.mem, x, v) == Walk(a.mem, x, v)
    {
      assert IsRoot(b, x);
    }
  }

  ghost predicate SameWalks(s: State, r: State)
    requires Sized(s) && Sized(r) && |r.mem| == |s.mem|
  {
    forall x: nat, v: nat :: x < |s.mem| && IsRoot(s, x) ==> Walk(r.mem, x, v) == Walk(s.mem, x, v)
  }

  lemma LinkFresh(s: State, page: nat, index: nat, place: Place)
    requires Inv(s) && EmptySlot(s, page, index, place)
    ensures var (r, t) := Link(s, page, index, place);
      && Inv(r) && Extends(s, r) && SameWalks(s, r)
      && (t.None? <==> CountFree(s.used) == 0)
      && (t.None? ==> r == s)
      && (t.Some? ==> !s.used[t.value] && r == Grafted(s, page, index, place, t.value))
      && (t.Some? ==> CountFree(r.used) == CountFree(s.used) - 1)
  {
    var q := FirstFree(s.used);
    CountFreeZero(s.used);
    if q < |s.used| {
      var r := Grafted(s, page, index, place, q);
      assert r == Link(s, page, index, place).0;
      CountFreeUpdate(s.used, q, true);
      GraftKeepsInv(s, page, index, place, q);
      forall x: nat, v: nat | x < |s.mem| && IsRoot(s, x) ensures Walk(r.mem, x, v) == Walk(s.mem, x, v) {
        GraftKeepsWalks(s, page, index, place, q, x, v);
      }
    }
  }

  lemma LinkPresent(s: State, page: nat, index: nat, place: Place, t: nat)
    requires Sized(s) && page < |s.mem| && index < ENTRIES && t < |s.mem| && s.mem[page][index] == TableDesc(t)
    ensures Link(s, page, index, place) == (s, Some(t))
  {
    TableDescValue(t, |s.mem|);
  }

  /** How many tables a mapping of vpn has to allocate. */
  function Missing(s: State, u: nat, vpn: nat): (n: nat)
    requires Sized(s) && u < |s.mem|
  {
    var e1 := s.mem[u][Index1(vpn)];
    if e1 == 0 then 2
    else match Follow(|s.mem|, e1)
      case None => 0
      case Some(t2) => if s.mem[t2][Index2(vpn)] == 0 then 1 else 0
  }

  /** Enough free pages for the tables a mapping still lacks: what makes it take effect. */
  predicate CanMap(s: State, u: nat, vpn: nat)
    requires Sized(s) && u < |s.mem|
  {
    Missing(s, u, vpn) <= CountFree(s.used)
  }

  lemma MissingOnPath(s: State, u: nat, vpn: nat, path: Path)
    requires Inv(s) && IsUser(s, u) && Index1(vpn) >= FIRST_PRIVATE && OnPath(s, u, vpn, path)
    ensures Missing(s, u, vpn) == match path case NoTable => 2 case NoLeafTable(_) => 1 case _ => 0
  {
    match path
    case NoTable =>
    case NoLeafTable(t2) =>
      TableDescValue(t2, |s.mem|);
    case Tables(t2, t3) =>
      TableDescValue(t2, |s.mem|);
    case _ =>
  }

  /** The tables for vpn, once they all exist. */
  ghost predicate Ready(s: State, u: nat, vpn: nat, t2: nat, t3: nat)
  {
    Inv(s) && IsUser(s, u) && Index1(vpn) >= FIRST_PRIVATE && OnPath(s, u, vpn, Tables(t2, t3))
  }

  lemma MapFromReady(s: State, u: nat, vpn: nat, d: nat, t2: nat, t3: nat)
    requires Ready(s, u, vpn, t2, t3)
    ensures MapPage(s, u, vpn, d) == LeafStored(s, t3, Index3(vpn), d)
  {
    LinkPresent(s, u, Index1(vpn), Level2(u, Index1(vpn)), t2);
    LinkPresent(s, t2, Index2(vpn), Level3(u, Index1(vpn), Index2(vpn)), t3);
  }

  lemma ExtendsTransitive(a: State, b: State, c: State)
    requires Sized(a) && Sized(b) && Sized(c) && Extends(a, b) && Extends(b, c)
    requires forall p :: p in b.place ==> p < |b.used| && b.used[p]
    ensures Extends(a, c)
  {
  }

  /** The state just before the leaf is written: the missing tables are in place, or memory ran out. */
  lemma MapPrepares(s: State, u: nat, vpn: nat, d: nat) returns (r: State, t2: nat, t3: nat)
    requires Inv(s) && IsUser(s, u) && Index1(vpn) >= FIRST_PRIVATE
    ensures Inv(r) && Extends(s, r) && SameWalks(s, r)
    ensures CountFree(r.used) == CountFree(s.used) - Min(Missing(s, u, vpn), CountFree(s.used))
    ensures !CanMap(s, u, vpn) ==> MapPage(s, u, vpn, d) == r
    ensures CanMap(s, u, vpn) ==>
      Ready(r, u, vpn, t2, t3) && MapPage(s, u, vpn, d) == LeafStored(r, t3, Index3(vpn), d)
  {
    hide Missing, UserRootOk, Level2Ok, KernelOk, LeafStored, Walk;
    var path := FindPath(s, u, vpn);
    MissingOnPath(s, u, vpn, path);
    r, t2, t3 := s, 0, 0;
    match path
    case Tables(p2, p3) =>
      t2, t3 := p2, p3;
      MapFromReady(s, u, vpn, d, t2, t3);
    case NoLeafTable(p2) =>
      t2 := p2;
      r, t3 := MapFromLevel2(s, u, vpn, d, t2);
    case NoTable =>
      var s1, p2 := LinkLevel2(s, u, vpn);
      r := s1;
      if p2.Some? {
        t2 := p2.value;
        MapAfterLink(s, u, vpn, d, s1, t2);
        r, t3 := MapFromLevel2(s1, u, vpn, d, t2);
        ExtendsTransitive(s, s1, r);
      }
    case _ =>
  }

  lemma MapAfterLink(s: State, u: nat, vpn: nat, d: nat, s1: State, t2: nat)
    requires Sized(s) && u < |s.mem| && t2 < |s.mem|
    requires Link(s, u, Index1(vpn), Level2(u, Index1(vpn))) == (s1, Some(t2))
    requires s1.mem[u][Index1(vpn)] == TableDesc(t2)
    ensures MapPage(s, u, vpn, d) == MapPage(s1, u, vpn, d)
  {
    LinkPresent(s1, u, Index1(vpn), Level2(u, Index1(vpn)), t2);
  }

  lemma MapFromLevel2(s: State, u: nat, vpn: nat, d: nat, t2: nat) returns (r: State, t3: nat)
    requires Inv(s) && IsUser(s, u) && Index1(vpn) >= FIRST_PRIVATE && OnPath(s, u, vpn, NoLeafTable(t2))
    ensures Inv(r) && Extends(s, r) && SameWalks(s, r)
    ensures CountFree(r.used) == CountFree(s.used) - Min(1, CountFree(s.used))
    ensures CountFree(s.used) == 0 ==> MapPage(s, u, vpn, d) == r
    ensures CountFree(s.used) >= 1 ==>
      Ready(r, u, vpn, t2, t3) && MapPage(s, u, vpn, d) == LeafStored(r, t3, Index3(vpn), d)
  {
    LinkPresent(s, u, Index1(vpn), Level2(u, Index1(vpn)), t2);
    r, t3 := LinkLevel3(s, u, vpn, t2);
  }

  lemma LinkLevel2(s: State, u: nat, vpn: nat) returns (r: State, t: Option<nat>)
    requires Inv(s) && IsUser(s, u) && Index1(vpn) >= FIRST_PRIVATE && OnPath(s, u, vpn, NoTable)
    ensures Inv(r) && Extends(s, r) && SameWalks(s, r) && IsUser(r, u)
    ensures (r, t) == Link(s, u, Index1(vpn), Level2(u, Index1(vpn)))
    ensures t.None? <==> CountFree(s.used) == 0
    ensures t.None? ==> r == s
    ensures t.Some? ==> OnPath(r, u, vpn, NoLeafTable(t.value)) && CountFree(r.used) == CountFree(s.used) - 1
  {
    var place := Level2(u, Index1(vpn));
    LinkFresh(s, u, Index1(vpn), place);
    var link := Link(s, u, Index1(vpn), place);
    r, t := link.0, link.1;
    if t.Some? {
      GraftExtendsPath(s, u, Index1(vpn), place, t.value, u, vpn, NoTable);
    }
  }

  lemma LinkLevel3(s: State, u: nat, vpn: nat, t2: nat) returns (r: State, t3: nat)
    requires Inv(s) && IsUser(s, u) && Index1(vpn) >= FIRST_PRIVATE && OnPath(s, u, vpn, NoLeafTable(t2))
    ensures Inv(r) && Extends(s, r) && SameWalks(s, r) && IsUser(r, u)
    ensures var (r', t) := Link(s, t2, Index2(vpn), Level3(u, Index1(vpn), Index2(vpn)));
      && r == r'
      && (t.None? <==> CountFree(s.used) == 0)
      && (t.None? ==> r == s)
      && (t.Some? ==> t3 == t.value && Ready(r, u, vpn, t2, t3) && CountFree(r.used) == CountFree(s.used) - 1)
  {
    var place := Level3(u, Index1(vpn), Index2(vpn));
    LinkFresh(s, t2, Index2(vpn), place);
    var (r', t) := Link(s, t2, Index2(vpn), place);
    r := r';
    if t.Some? {
      t3 := t.value;
      GraftExtendsPath(s, t2, Index2(vpn), place, t3, u, vpn, NoLeafTable(t2));
    } else {
      t3 := 0;
    }
  }

  /** The translations of all tables, after a mapping, are those before with at most one entry replaced. */
  ghost predicate MapEffect(s: State, r: State, u: nat, vpn: nat, d: nat)
    requires Inv(s) && Sized(r) && |r.mem| == |s.mem| && u < |s.mem|
  {
    forall x: nat, v: nat :: x < |s.mem| && IsRoot(s, x) && v < VPN_LIMIT ==>
      Walk(r.mem, x, v) == if x == u && v == vpn && CanMap(s, u, vpn) then LeafOf(d) else Walk(s.mem, x, v)
  }

  lemma StoreEffect(s: State, u: nat, vpn: nat, t2: nat, t3: nat, d: nat)
    requires Ready(s, u, vpn, t2, t3) && vpn < VPN_LIMIT
    ensures var r := LeafStored(s, t3, Index3(vpn), d);
      && Inv(r)
      && forall x: nat, v: nat :: x < |s.mem| && IsRoot(s, x) && v < VPN_LIMIT ==>
           Walk(r.mem, x, v) == if x == u && v == vpn then LeafOf(d) else Walk(s.mem, x, v)
  {
    var r := LeafStored(s, t3, Index3(vpn), d);
    StoreKeepsInv(s, t3, Index3(vpn), d);
    forall x: nat, v: nat | x < |s.mem| && IsRoot(s, x) && v < VPN_LIMIT
      ensures Walk(r.mem, x, v) == if x == u && v == vpn then LeafOf(d) else Walk(s.mem, x, v)
    {
      StoreWalks(s, u, vpn, t2, t3, d, x, v);
    }
  }

  /** map_page_in_table refines updating one entry of a map from (table, virtual page) to translation. */
  lemma MapPageRefines(s: State, u: nat, vpn: nat, d: nat)
    requires Inv(s) && IsUser(s, u) && vpn < VPN_LIMIT && Index1(vpn) >= FIRST_PRIVATE
    ensures var r := MapPage(s, u, vpn, d);
      && Inv(r) && Extends(s, r) && MapEffect(s, r, u, vpn, d)
      && CountFree(r.used) == CountFree(s.used) - Min(Missing(s, u, vpn), CountFree(s.used))
  {
    hide Walk, UserRootOk, Level2Ok, KernelOk, Missing, MapPage, CountFree;
    var m, t2, t3 := MapPrepares(s, u, vpn, d);
    if CanMap(s, u, vpn) {
      StoreEffect(m, u, vpn, t2, t3, d);
      assert forall x: nat :: IsRoot(s, x) ==> IsRoot(m, x);
    }
  }

  /** A new table translates exactly as the kernel's does, and disturbs no other. */
  lemma CreateTableRefines(s: State)
    requires Inv(s)
    ensures var (r, u) := CreateTable(s);
      && Inv(r) && Extends(s, r)
      && (u.None? <==> CountFree(s.used) == 0)
      && (u.None? ==> r == s)
      && (u.Some? ==> IsUser(r, u.value) && !IsRoot(s, u.value))
      && (u.Some? ==> forall v: nat :: Walk(r.mem, u.value, v) == Walk(s.mem, s.kernel, v))
      && (forall x: nat, v: nat :: x < |s.mem| && IsRoot(s, x) ==> Walk(r.mem, x, v) == Walk(s.mem, x, v))
  {
    CountFreeZero(s.used);
    var (r, u) := CreateTable(s);
    if u.Some? {
      CreateKeepsInv(s, r, u.value);
      forall x: nat, v: nat | x < |s.mem| && IsRoot(s, x) ensures Walk(r.mem, x, v) == Walk(s.mem, x, v) {
        CreateKeepsWalk(s, r, u.value, x, v);
      }
      forall v: nat ensures Walk(r.mem, u.value, v) == Walk(s.mem, s.kernel, v) {
        CreateKeepsWalk(s, r, u.value, s.kernel, v);
        assert r.mem[u.value] == r.mem[s.kernel];
      }
    }
  }

  lemma CreateKeepsInv(s: State, r: State, q: nat)
    requires Inv(s) && CreateTable(s) == (r, Some(q))
    ensures Inv(r) && Extends(s, r)
  {
    assert q !in s.place;
    assert forall p :: p in s.place ==> r.mem[p] == s.mem[p];
    forall u: nat | IsUser(r, u) ensures UserRootOk(r, u) {
      if u != q {
        assert IsUser(s, u);
        forall i | FIRST_PRIVATE <= i < ENTRIES ensures LinkOk(r, r.mem[u][i], Level2(u, i)) {
          LinkOkMonotone(s, r, s.mem[u][i], Level2(u, i));
        }
      }
    }
    forall t | t in r.place && r.place[t].Level2? && r.place[t].root != r.kernel
      ensures Level2Ok(r, t, r.place[t].root, r.place[t].i1)
    {
      forall j | 0 <= j < ENTRIES ensures LinkOk(r, r.mem[t][j], Level3(r.place[t].root, r.place[t].i1, j)) {
        LinkOkMonotone(s, r, s.mem[t][j], Level3(s.place[t].root, s.place[t].i1, j));
      }
    }
  }

  lemma CreateKeepsWalk(s: State, r: State, q: nat, x: nat, v: nat)
    requires Inv(s) && Inv(r) && CreateTable(s) == (r, Some(q)) && IsRoot(s, x)
    ensures Walk(r.mem, x, v) == Walk(s.mem, x, v)
  {
    assert q !in s.place;
    var path := FindPath(s, x, v);
    assert forall p :: p in s.place ==> r.mem[p] == s.mem[p] && p in r.place && r.place[p] == s.place[p];
    assert OnPath(r, x, v, path);
    WalkAlong(s, x, v, path);
    WalkAlong(r, x, v, path);
  }

  // ------------------------------------------------------------ changes outside the tables

  /** r differs from s only in pages that carry no table; those may be taken, written and given back. */
  ghost predicate OnlyData(s: State, r: State)
    requires Sized(s) && Sized(r)
  {
    && |r.mem| == |s.mem| && r.kernel == s.kernel && r.kernelL2 == s.kernelL2 && r.device == s.device
    && r.place == s.place
    && (forall p :: p in s.place && 0 <= p < |s.mem| ==> r.used[p] && r.mem[p] == s.mem[p])
  }

  lemma DataKeepsTables(s: State, r: State)
    requires Inv(s) && Sized(r) && OnlyData(s, r)
    ensures Inv(r) && SameWalks(s, r)
  {
    forall u: nat | IsUser(r, u) ensures UserRootOk(r, u) {
      assert IsUser(s, u);
      forall i | FIRST_PRIVATE <= i < ENTRIES ensures LinkOk(r, r.mem[u][i], Level2(u, i)) {
        LinkOkMonotone(s, r, s.mem[u][i], Level2(u, i));
      }
    }
    forall t | t in r.place && r.place[t].Level2? && r.place[t].root != r.kernel
      ensures Level2Ok(r, t, r.place[t].root, r.place[t].i1)
    {
      forall j | 0 <= j < ENTRIES ensures LinkOk(r, r.mem[t][j], Level3(r.place[t].root, r.place[t].i1, j)) {
        LinkOkMonotone(s, r, s.mem[t][j], Level3(s.place[t].root, s.place[t].i1, j));
      }
    }
    assert Inv(r);
    forall x: nat, v: nat | x < |s.mem| && IsRoot(s, x) ensures Walk(r.mem, x, v) == Walk(s.mem, x, v) {
      DataKeepsWalk(s, r, x, v);
    }
  }

  lemma DataKeepsWalk(s: State, r: State, x: nat, v: nat)
    requires Inv(s) && Inv(r) && OnlyData(s, r) && IsRoot(s, x)
    ensures Walk(r.mem, x, v) == Walk(s.mem, x, v)
  {
    var path := FindPath(s, x, v);
    assert OnPath(r, x, v, path);
    WalkAlong(s, x, v, path);
    WalkAlong(r, x, v, path);
  }

  // ------------------------------------------------------------ MMU::init

  function KernelRoot(device: nat, l2: nat): (p: Page)
    ensures |p| == ENTRIES
  {
    seq(ENTRIES, i => if i == 0 then device else if i == 1 then TableDesc(l2) else 0)
  }

  function RamTable(): (p: Page)
    ensures |p| == ENTRIES
  {
    seq(ENTRIES, i requires i >= 0 => if i < 128 then RamBlock(i) else 0)
  }

  /** The tables MMU::init builds, or nothing when no page is left for the L2 table. */
  function InitTables(mem: Memory, used: seq<bool>, kernel: nat): (r: Option<State>)
    requires WellSized(mem) && |used| == |mem| && kernel < |mem|
    ensures r.Some? ==> Sized(r.value) && |r.value.mem| == |mem|
  {
    var q := FirstFree(used);
    if q == |used| then None
    else
      Some(Initial(mem, used, kernel, q, DEVICE_BLOCK))
  }

  function Initial(mem: Memory, used: seq<bool>, kernel: nat, l2: nat, device: nat): (s: State)
    requires WellSized(mem) && |used| == |mem| && kernel < |mem| && l2 < |mem|
    ensures Sized(s) && |s.mem| == |mem|
  {
    State(mem[kernel := KernelRoot(device, l2)][l2 := RamTable()], used[l2 := true], kernel, l2, device,
          map[kernel := Root, l2 := Level2(kernel, 1)])
  }

  /** The four writes of MMU::init together. */
  lemma InitialWrites(mem: Memory, used: seq<bool>, kernel: nat, q: nat)
    requires WellSized(mem) && |used| == |mem| && kernel < |mem| && q < |mem| && q != kernel
    ensures Store(mem[kernel := Zeroes()[0 := DEVICE_BLOCK]][q := Zeroes()][q := RamTable()], kernel, 1, TableDesc(q))
      == Initial(mem, used, kernel, q, DEVICE_BLOCK).mem
  {
    assert Zeroes()[0 := DEVICE_BLOCK][1 := TableDesc(q)] == KernelRoot(DEVICE_BLOCK, q);
  }

  lemma InitialInv(mem: Memory, used: seq<bool>, kernel: nat, l2: nat, device: nat)
    requires WellSized(mem) && |used| == |mem| && kernel < |mem| && used[kernel]
    requires l2 < |mem| && !used[l2] && device % 4 == 1
    ensures Inv(Initial(mem, used, kernel, l2, device))
  {
  }

  lemma InitEstablishesInv(mem: Memory, used: seq<bool>, kernel: nat)
    requires WellSized(mem) && |used| == |mem| && kernel < |mem| && used[kernel]
    ensures var r := InitTables(mem, used, kernel);
      && (r.None? <==> CountFree(used) == 0)
      && (r.Some? ==> Inv(r.value))
  {
    CountFreeZero(used);
    var q := FirstFree(used);
    if q < |used| {
      assert DEVICE_BLOCK % 4 == 1;
      InitialInv(mem, used, kernel, q, DEVICE_BLOCK);
    }
  }

  /** Where a 2MB block descriptor sends a virtual address. */
  function BlockOutput(d: nat, va: nat): (pa: nat)
  {
    AddressField(d) / 0x20_0000 * 0x20_0000 + va % 0x20_0000
  }

  lemma RamBlockField(i: nat)
    requires i < 128
    ensures AddressField(RamBlock(i)) == 0x4000_0000 + i * 0x20_0000
  {
    var k := 0x4_0000 + i * 0x200;
    var d := RamBlock(i);
    assert d == (0x400_0000_0000 + k) * 0x1000 + 0x701;
    assert d / 0x1000 == 0x400_0000_0000 + k;
    assert 0x400_0000_0000 + k == 64 * 0x10_0000_0000 + k;
    assert (64 * 0x10_0000_0000 + k) % 0x10_0000_0000 == k;
  }

  /** Every table, the kernel's and each user's, maps the 256MB of RAM onto itself. */
  lemma RamIsIdentityMapped(s: State, x: nat, va: nat)
    requires Inv(s) && IsRoot(s, x) && 0x4000_0000 <= va < 0x5000_0000
    ensures var t := Walk(s.mem, x, va / 0x1000);
      && t.Leaf? && t.level == 2 && BlockOutput(t.desc, va) == va
      && AttributesOf(t.desc) == Attributes(0, 0, 3, true, false, true)
  {
    hide AttributesOf;
    var vpn := va / 0x1000;
    assert vpn / 0x4_0000 == 1;
    assert Index1(vpn) == 1;
    var i := va / 0x20_0000 - 0x200;
    assert vpn / 0x200 == 0x200 + i && 0 <= i < 128;
    assert Index2(vpn) == i;
    KernelPath(s, x, vpn);
    RamBlockField(i);
    RamBlockAttributes(i);
  }

  /** Memory attribute index, access permissions, shareability, access flag, and the two execute-never bits. */
  datatype Attributes = Attributes(attrIndex: nat, ap: nat, sh: nat, af: bool, pxn: bool, uxn: bool)

  function AttributesOf(d: nat): (a: Attributes)
  {
    Attributes(d / 4 % 8, d / 0x40 % 4, d / 0x100 % 4, d / 0x400 % 2 == 1, d / 0x20_0000_0000_0000 % 2 == 1,
        d / 0x40_0000_0000_0000 % 2 == 1)
  }

  lemma RamBlockAttributes(i: nat)
    requires i < 128
    ensures AttributesOf(RamBlock(i)) == Attributes(0, 0, 3, true, false, true)
  {
    var d, low := RamBlock(i), 0x701 + 0x4000_0000 + i * 0x20_0000;
    assert d == 0x40_0000_0000_0000 + low && low < 0x20_0000_0000_0000;
    assert d == 0x1000 * (0x400_0000_0000 + 0x4_0000 + i * 0x200) + 0x701;
    LowAttributes(0x400_0000_0000 + 0x4_0000 + i * 0x200, 0x701);
  }

  /** The attributes in the low twelve bits do not depend on the address. */
  lemma LowAttributes(k: nat, f: nat)
    requires f < 0x1000
    ensures var a, b := AttributesOf(0x1000 * k + f), AttributesOf(f);
      a.attrIndex == b.attrIndex && a.ap == b.ap && a.sh == b.sh && a.af == b.af
  {
    var d := 0x1000 * k + f;
    assert d / 4 == 8 * (0x80 * k) + f / 4;
    assert d / 0x40 == 4 * (0x10 * k) + f / 0x40;
    assert d / 0x100 == 4 * (4 * k) + f / 0x100;
    assert d / 0x400 == 2 * (2 * k) + f / 0x400;
    Low8(0x80 * k, f / 4);
    Low4(0x10 * k, f / 0x40);
    Low4(4 * k, f / 0x100);
    Low2(2 * k, f / 0x400);
  }

  lemma Low8(q: nat, r: nat) ensures (8 * q + r) % 8 == r % 8 {}
  lemma Low4(q: nat, r: nat) ensures (4 * q + r) % 4 == r % 4 {}
  lemma Low2(q: nat, r: nat) ensures (2 * q + r) % 2 == r % 2 {}

  /** Every table maps the first gigabyte, the devices, onto itself, for the kernel's data accesses only. */
  lemma DevicesAreIdentityMapped(s: State, x: nat, va: nat)
    requires Inv(s) && IsRoot(s, x) && s.device == DEVICE_BLOCK && va < 0x4000_0000
    ensures var t := Walk(s.mem, x, va / 0x1000);
      && t.Leaf? && t.level == 1 && AddressField(t.desc) / 0x4000_0000 == 0
      && AttributesOf(t.desc) == Attributes(1, 0, 0, true, true, true)
  {
    var vpn := va / 0x1000;
    assert Index1(vpn) == 0;
    assert s.mem[x][0] == s.mem[s.kernel][0] by { if x != s.kernel { assert IsUser(s, x); } }
    assert Walk(s.mem, x, vpn) == Leaf(1, DEVICE_BLOCK);
  }

  lemma KernelPath(s: State, x: nat, vpn: nat)
    requires Inv(s) && IsRoot(s, x) && Index1(vpn) == 1 && Index2(vpn) < 128
    ensures Walk(s.mem, x, vpn) == Leaf(2, RamBlock(Index2(vpn)))
  {
    assert s.mem[x][1] == s.mem[s.kernel][1] by { if x != s.kernel { assert IsUser(s, x); } }
    WalkAlong(s, x, vpn, KernelRam);
  }

  // ------------------------------------------------------------ whole runs

  /** `Elsewhere` is the rest of the kernel at work on pages that carry no table. */
  datatype Op = Create | Map(table: nat, vpn: nat, desc: nat) | Elsewhere(mem: Memory, used: seq<bool>)

  /** map_user_page is used on tables that create_user_page_table returned, above the kernel's slots. */
  ghost predicate Allowed(s: State, op: Op)
    requires Sized(s)
  {
    match op
    case Create => true
    case Map(u, vpn, _) => IsUser(s, u) && vpn < VPN_LIMIT && Index1(vpn) >= FIRST_PRIVATE
    case Elsewhere(mem, used) =>
      var r := s.(mem := mem, used := used);
      Sized(r) && OnlyData(s, r)
  }

  function Apply(s: State, op: Op): (r: State)
    requires Sized(s) && s.kernel < |s.mem| && (op.Map? ==> op.table < |s.mem|)
  {
    match op
    case Create => CreateTable(s).0
    case Map(u, vpn, d) => MapPage(s, u, vpn, d)
    case Elsewhere(mem, used) => s.(mem := mem, used := used)
  }

  lemma ApplyKeeps(s: State, op: Op)
    requires Inv(s) && Allowed(s, op)
    ensures Inv(Apply(s, op)) && |Apply(s, op).mem| == |s.mem| && Apply(s, op).kernel == s.kernel
    ensures Apply(s, op).device == s.device
    ensures forall x: nat :: IsRoot(s, x) ==> IsRoot(Apply(s, op), x)
  {
    match op
    case Create => CreateTableRefines(s);
    case Map(u, vpn, d) => MapPageRefines(s, u, vpn, d);
    case Elsewhere(mem, used) => DataKeepsTables(s, Apply(s, op));
  }

  ghost predicate RunAllowed(s: State, ops: seq<Op>)
    requires Inv(s)
    decreases |ops|
  {
    ops == [] || (Allowed(s, ops[0]) && (ApplyKeeps(s, ops[0]); RunAllowed(Apply(s, ops[0]), ops[1..])))
  }

  ghost function Run(s: State, ops: seq<Op>): (r: State)
    requires Inv(s) && RunAllowed(s, ops)
    ensures Inv(r) && |r.mem| == |s.mem| && r.kernel == s.kernel && r.device == s.device
    ensures forall x: nat :: IsRoot(s, x) ==> IsRoot(r, x)
    decreases |ops|
  {
    if ops == [] then s
    else ApplyKeeps(s, ops[0]); Run(Apply(s, ops[0]), ops[1..])
  }

  /** The descriptor of the last mapping of (x, v) in the run that found the pages it needed. */
  ghost function LastMapped(s: State, ops: seq<Op>, x: nat, v: nat): (d: Option<nat>)
    requires Inv(s) && RunAllowed(s, ops)
    decreases |ops|
  {
    if ops == [] then None
    else
      ApplyKeeps(s, ops[0]);
      var later := LastMapped(Apply(s, ops[0]), ops[1..], x, v);
      if later.Some? then later
      else match ops[0]
        case Create => None
        case Elsewhere(_, _) => None
        case Map(u, vpn, d) => if u == x && vpn == v && CanMap(s, u, vpn) then Some(d) else None
  }

  /** After any run, a table translates a page as the last mapping of that very page left it. */
  lemma {:induction false} RunRefinesMap(s: State, ops: seq<Op>, x: nat, v: nat)
    requires Inv(s) && RunAllowed(s, ops) && IsRoot(s, x) && v < VPN_LIMIT
    ensures Walk(Run(s, ops).mem, x, v) ==
      match LastMapped(s, ops, x, v) case None => Walk(s.mem, x, v) case Some(d) => LeafOf(d)
    decreases |ops|
  {
    hide Walk, LeafOf, MapPage, CreateTable, UserRootOk, Level2Ok, OnlyData;
    if ops == [] {
    } else {
      ApplyKeeps(s, ops[0]);
      RunRefinesMap(Apply(s, ops[0]), ops[1..], x, v);
      ApplyRefines(s, ops[0], x, v);
    }
  }

  /** One operation changes a translation only if it maps that very page. */
  lemma ApplyRefines(s: State, op: Op, x: nat, v: nat)
    requires Inv(s) && Allowed(s, op) && IsRoot(s, x) && v < VPN_LIMIT
    ensures Walk(Apply(s, op).mem, x, v) ==
      if op.Map? && op.table == x && op.vpn == v && CanMap(s, x, v) then LeafOf(op.desc)
      else Walk(s.mem, x, v)
  {
    match op
    case Create => CreateTableRefines(s);
    case Map(u, vpn, d) => MapPageRefines(s, u, vpn, d);
    case Elsewhere(mem, used) => DataKeepsTables(s, Apply(s, op));
  }

  /** A run that maps nothing into table x leaves every translation of x alone; x may be the kernel's. */
  lemma {:induction false} RunIsolates(s: State, ops: seq<Op>, x: nat, v: nat)
    requires Inv(s) && RunAllowed(s, ops) && IsRoot(s, x) && v < VPN_LIMIT
    requires x == s.kernel || forall k :: 0 <= k < |ops| && ops[k].Map? ==> ops[k].table != x
    ensures Walk(Run(s, ops).mem, x, v) == Walk(s.mem, x, v)
  {
    RunRefinesMap(s, ops, x, v);
    NothingMapped(s, ops, x, v);
  }

  lemma {:induction false} NothingMapped(s: State, ops: seq<Op>, x: nat, v: nat)
    requires Inv(s) && RunAllowed(s, ops)
    requires x == s.kernel || forall k :: 0 <= k < |ops| && ops[k].Map? ==> ops[k].table != x
    ensures LastMapped(s, ops, x, v).None?
    decreases |ops|
  {
    if ops != [] {
      ApplyKeeps(s, ops[0]);
      NothingMapped(Apply(s, ops[0]), ops[1..], x, v);
    }
  }
}
