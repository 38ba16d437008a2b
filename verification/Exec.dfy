/**
  load_and_exec of src/elf/elf.cpp as a whole: a new page table, the image, and the process that runs it.
 */
module Exec {
  import opened Machine
  import opened Pages
  import PT = PageTable
  import opened TableCost
  import opened Mmu
  import E = Elf
  import P = Processes
  import opened Scheduler
  import opened ProcessTables

  function Entry(file: seq<u8>): (va: nat) requires |file| >= E.EHDR_SIZE { E.Field(file, 24, 8) }

  /** No page of the image lies where the user stack goes. */
  predicate StackApart(file: seq<u8>)
    requires E.Loadable(file)
  {
    forall j :: 0 <= j < P.STACK_PAGES ==> StackVpn(j) !in E.Vpns(E.AllWants(file))
  }

  /** Free pages it takes to load the image and to map the user stack: the table, the image, both stacks, and the tables
      for all of them. */
  function EnoughToRun(file: seq<u8>): (n: nat)
    requires E.Loadable(file)
  {
    1 + E.PagesNeeded(file) + 2 * P.STACK_PAGES + E.TablesNeeded(E.Vpns(E.AllWants(file)) + [StackVpn(0)])
  }

  // ------------------------------------------------------------ what each part leaves

  /** The number of pages free once the image is in place. */
  function Remaining(free: nat, file: seq<u8>): (n: nat)
    requires E.Loadable(file)
  {
    if 1 + E.EnoughToSee(file) <= free then free - 1 - E.EnoughToSee(file) else 0
  }

  lemma ReportIsLess(file: seq<u8>)
    requires E.Loadable(file)
    ensures E.EnoughToReport(file) <= E.EnoughToSee(file)
  {
    hide E.Wants;
    var vs := E.Vpns(E.AllWants(file));
    if vs != [] {
      var rest, v := vs[..|vs| - 1], vs[|vs| - 1];
      assert vs == rest + [v];
      SetsNext(rest, v);
    }
  }

  /** Two runs of four pages are eight free pages. */
  lemma TwoRuns(used: seq<bool>)
    requires UserRun(used).Some?
    ensures CountFree(used) >= 2 * P.STACK_PAGES
  {
    var k := P.LowestRun(used, 0).value;
    var used1 := Filled(used, k, P.STACK_PAGES, true);
    CountFreeFilled(used, k, P.STACK_PAGES);
    CountFreeFilled(used1, P.LowestRun(used1, 0).value, P.STACK_PAGES);
  }

  /** Giving the process its stacks leaves the image where it is. */
  lemma StackKeepsImage(s: PT.State, ram: seq<u8>, r: PT.State, ram': seq<u8>, u: nat, file: seq<u8>)
    requires E.Loadable(file) && StackApart(file) && PT.Sized(s) && PT.IsUser(s, u) && u < |s.mem|
    requires PT.Inv(r) && StackOnly(s, r, u) && E.AllLoaded(s, ram, u, file, E.AllWants(file))
    requires |ram| == |ram'| == |s.mem| * PAGE_SIZE && s.mem == View(ram, |s.mem|) && r.mem == View(ram', |s.mem|)
    ensures E.ImageVisible(ram', |r.mem|, u, file)
  {
    hide E.Wants, E.Loaded, View, PT.Walk, PT.UserRootOk, PT.Level2Ok, PT.KernelOk, E.PhdrAt, E.Disjoint;
    hide E.ImageVisible, Vpn, StackVpn;
    var ws := E.AllWants(file);
    forall i | 0 <= i < |ws| ensures E.Loaded(r, ram', u, file, ws[i].ph, ws[i].va) {
      assert E.Vpns(ws)[i] == Vpn(ws[i].va);
      PageStays(s, ram, r, ram', u, file, ws[i]);
    }
    E.LoadedIsVisible(r, ram', u, file);
  }

  lemma PageStays(s: PT.State, ram: seq<u8>, r: PT.State, ram': seq<u8>, u: nat, file: seq<u8>, w: E.PageWant)
    requires PT.Sized(s) && PT.IsUser(s, u) && u < |s.mem| && StackOnly(s, r, u) && Vpn(w.va) !in STACK_VPNS
    requires |ram| == |ram'| == |s.mem| * PAGE_SIZE && s.mem == View(ram, |s.mem|) && r.mem == View(ram', |s.mem|)
    requires E.Loaded(s, ram, u, file, w.ph, w.va)
    ensures E.Loaded(r, ram', u, file, w.ph, w.va)
  {
    hide View, PT.Walk, E.SegmentOk;
    var page: nat :| E.MapsTo(s, u, Vpn(w.va), page) && E.Holds(ram, page, file, w.ph, w.va);
    E.KeepsPage(s, ram, r, ram', page, file, w.ph, w.va);
    assert E.MapsTo(r, u, Vpn(w.va), page);
  }

  // ------------------------------------------------------------ the whole

  /** Tables that were there before keep every translation. */
  ghost predicate EarlierKept(s: PT.State, r: PT.State)
    requires PT.Sized(s) && PT.Sized(r) && |r.mem| == |s.mem|
  {
    forall x: nat, v: nat :: x < |s.mem| && PT.IsRoot(s, x) && v < PT.VPN_LIMIT ==>
      PT.Walk(r.mem, x, v) == PT.Walk(s.mem, x, v)
  }

  /** Where page j of the user stack leads. */
  function StackPage(file: seq<u8>, free: nat, stack: nat, j: nat): (t: PT.Translation)
    requires E.Loadable(file)
  {
    if EnoughToRun(file) <= free then PT.Leaf(3, stack + j * PAGE_SIZE + PTE_USER_RWX) else PT.Fault
  }

  /**
    What load_and_exec leaves behind, in terms of the free pages before it.  A process comes out exactly if the table
    has a slot and both stacks fit in what the image leaves; then its image is complete, and its stack is there exactly
    if the pages for the stack's own tables were free as well.
   */
  ghost predicate Launched(w: P.World, s: PT.State, r: PT.State, ram: seq<u8>, u: nat, file: seq<u8>,
                           slot: Option<nat>, loaded: P.World, stack: nat)
  {
    && E.Loadable(file) && PT.Sized(s) && PT.Sized(r) && |r.mem| == |s.mem| <= MAX_PAGES
    && |ram| == |r.mem| * PAGE_SIZE && EarlierKept(s, r)
    && |w.table| > 0 && loaded == w.(used := loaded.used)
    && CountFree(loaded.used) == Remaining(CountFree(s.used), file)
    && (slot.Some? <==> UserFits(loaded))
    && (slot.Some? && StackApart(file) ==>
          && u < |r.mem| && E.ImageVisible(ram, |r.mem|, u, file)
          && forall j :: 0 <= j < P.STACK_PAGES ==>
               PT.Walk(r.mem, u, StackVpn(j)) == StackPage(file, CountFree(s.used), stack, j))
  }

  lemma NotLoaded(w: P.World)
    requires |w.table| > 0 && CountFree(w.used) == 0
    ensures !UserFits(w)
  {
    if UserRun(w.used).Some? { TwoRuns(w.used); }
  }

  /** No table, or no page left for the image: nothing is started. */
  lemma LaunchFails(w: P.World, s: PT.State, r: PT.State, ram: seq<u8>, u: nat, file: seq<u8>)
    requires E.Loadable(file) && PT.Inv(s) && |s.mem| <= MAX_PAGES && |ram| == |s.mem| * PAGE_SIZE
    requires |w.table| > 0 && w.used == s.used
    requires (r == s && CountFree(s.used) == 0)
          || (E.Built(s, r, ram, u, file) && CountFree(s.used) < 1 + E.EnoughToReport(file))
    ensures Launched(w, s, r, ram, u, file, None, w.(used := r.used), 0)
  {
    hide PT.Walk, PT.UserRootOk, PT.Level2Ok, PT.KernelOk, CountFree, UserFits, E.ImageVisible, E.Wants, PT.Missing;
    hide E.EnoughToReport, E.EnoughToSee;
    ReportIsLess(file);
    NotLoaded(w.(used := r.used));
  }

  lemma LaunchEnds(w: P.World, s: PT.State, s1: PT.State, ram1: seq<u8>, r: PT.State, ram: seq<u8>, u: nat,
                   file: seq<u8>, slot: Option<nat>, stack: nat)
    requires E.Loadable(file) && PT.Inv(s) && PT.Inv(r) && |s.mem| <= MAX_PAGES && |w.table| > 0 && w.used == s.used
    requires E.Built(s, s1, ram1, u, file) && StackOnly(s1, r, u)
    requires |ram| == |ram1| == |s.mem| * PAGE_SIZE && s1.mem == View(ram1, |s.mem|) && r.mem == View(ram, |s.mem|)
    requires UserResult(w.(used := s1.used), s1, r, u, slot, stack)
    ensures Launched(w, s, r, ram, u, file, slot, w.(used := s1.used), stack)
  {
    hide PT.Walk, PT.UserRootOk, PT.Level2Ok, PT.KernelOk, CountFree, E.ImageVisible, E.Wants, PT.Missing, View;
    hide E.AllLoaded, UserStackSeen, UserRun, StackVpn, E.TablesNeeded, StackApart;
    EarlierTables(s, s1, r, u);
    if slot.Some? {
      TwoRuns(s1.used);
      if StackApart(file) {
        StackKeepsImage(s1, ram1, r, ram, u, file);
        forall j | 0 <= j < P.STACK_PAGES
          ensures PT.Walk(r.mem, u, StackVpn(j)) == StackPage(file, CountFree(s.used), stack, j)
        {
          StackIsThere(s, s1, ram1, r, u, file, stack, j);
        }
      }
    }
  }

  lemma EarlierTables(s: PT.State, s1: PT.State, r: PT.State, u: nat)
    requires PT.Sized(s) && PT.Sized(s1) && |s1.mem| == |s.mem| && PT.Extends(s, s1) && !PT.IsRoot(s, u)
    requires PT.WalksKept(s, s1, u, []) && StackOnly(s1, r, u)
    ensures EarlierKept(s, r)
  {
    hide PT.Walk;
    PT.WalksKeptOn(s, s1, r, u, [], STACK_VPNS);
  }

  lemma StackIsThere(s: PT.State, s1: PT.State, ram1: seq<u8>, r: PT.State, u: nat, file: seq<u8>, stack: nat, j: nat)
    requires E.Loadable(file) && E.Built(s, s1, ram1, u, file) && StackApart(file) && j < P.STACK_PAGES
    requires UserStackSeen(s1, r, u, stack) && CountFree(s1.used) > 0
    ensures PT.Walk(r.mem, u, StackVpn(j)) == StackPage(file, CountFree(s.used), stack, j)
  {
    hide PT.Walk, CountFree, E.Wants, PT.Missing, E.AllLoaded, E.TablesNeeded, PT.Extends, PT.WalksKept;
    assert Private(StackVpn(j)) && Private(StackVpn(0));
    assert StackVpn(j) !in E.Vpns(E.AllWants(file));
  }

  lemma ImageConsistent(w: P.World, s: PT.State, r: PT.State, ram: seq<u8>, u: nat, file: seq<u8>, cur: nat)
    requires PT.Inv(s) && PT.Inv(r) && Consistent(w, s, cur) && E.Built(s, r, ram, u, file)
    ensures Consistent(w.(used := r.used), r, cur) && PT.IsUser(r, u) && u < |r.mem| == |s.mem|
  {
    hide PT.Inv, Consistent;
    GrowConsistent(w, s, r, cur);
  }

  lemma StartedInTable(w: P.World, r: P.World, slot: Option<nat>, name: string, entry: nat, pgd: nat)
    requires UserStarted(w, r, slot, name, entry, pgd) && slot.Some?
    ensures slot.value < |r.table| && r.table[slot.value].pid == w.nextPid
  {
  }

  /** No process used this table before. */
  predicate TableIsNew(w: P.World, s: PT.State, pgd: nat)
  {
    pgd >= MEMORY_BASE ==>
      !PT.IsRoot(s, PageOf(pgd)) && forall i :: 0 <= i < |w.table| ==> w.table[i].pageTable != pgd
  }

  lemma NoSuchTable(w: P.World, s: PT.State, r: PT.State, ram: seq<u8>, pgd: nat, file: seq<u8>, cur: nat)
    requires Consistent(w, s, cur)
    requires pgd == 0 || (pgd >= MEMORY_BASE && E.Built(s, r, ram, PageOf(pgd), file))
    ensures TableIsNew(w, s, pgd)
  {
    hide P.Inv;
    forall i | pgd >= MEMORY_BASE && 0 <= i < |w.table| ensures w.table[i].pageTable != pgd {
      assert TableKnown(w.table[i], s);
    }
  }

  /** load_and_exec, from the file in memory to the process. */
  method LoadAndExec(procs: ProcessTable, name: string, file: seq<u8>)
    returns (pid: nat, slot: Option<nat>, pgd: nat, ghost loaded: P.World, ghost stack: nat)
    requires procs.Valid() && E.Loadable(file)
    modifies procs, procs.table, procs.mmu, procs.pages, procs.pages.bitmap, procs.pages.ram
    ensures procs.Valid() && procs.current == old(procs.current) && procs.currentIndex == old(procs.currentIndex)
    ensures Launched(old(procs.World()), old(procs.mmu.Tables()), procs.mmu.Tables(), procs.pages.ram[..],
                     if pgd >= MEMORY_BASE then PageOf(pgd) else 0, file, slot, loaded, stack)
    ensures |file| >= 64 && UserStarted(loaded, procs.World(), slot, name, FromLE(file[24..32]), pgd)
    ensures slot.None? ==> pid == 0
    ensures slot.Some? ==> pid == old(procs.nextPid) && pgd >= MEMORY_BASE
    ensures TableIsNew(old(procs.World()), old(procs.mmu.Tables()), pgd)
  {
    hide UserStarted, TableIsNew;
    hide PT.Inv, Consistent, StackOnly, UserResult, Launched, E.Built, E.Sees, E.EnoughToReport, E.EnoughToSee;
    ghost var w, s := procs.World(), procs.mmu.Tables();
    var ok;
    pid, slot, stack := 0, None, 0;
    ok, pgd := E.LoadImage(procs.mmu, file);
    ghost var s1, ram1, u := procs.mmu.Tables(), procs.pages.ram[..], if pgd >= MEMORY_BASE then PageOf(pgd) else 0;
    if pgd != 0 { ImageConsistent(w, s, s1, ram1, u, file, procs.currentIndex); }
    loaded := procs.World();
    assert loaded == w.(used := s1.used);
    NoSuchTable(w, s, s1, ram1, pgd, file, procs.currentIndex);
    if !ok {
      LaunchFails(w, s, s1, ram1, u, file);
      NobodyStarted(loaded, loaded, name, Entry(file), pgd);
      return;
    }
    ghost var tables;
    slot, tables, stack := procs.CreateUserProcess(name, Entry(file), pgd);
    LaunchEnds(w, s, s1, ram1, procs.mmu.Tables(), procs.pages.ram[..], u, file, slot, stack);
    if slot.None? { return; }
    StartedInTable(loaded, procs.World(), slot, name, Entry(file), pgd);
    pid := procs.table[slot.value].pid;
  }

  // ------------------------------------------------------------ the first dispatch

  /** A process that is dispatched from another slot gets its own table loaded, unless it had it already. */
  lemma DispatchLoads(before: seq<P.Process>, after: seq<P.Process>, cur: nat, next: nat, ttbr: Option<nat>)
    requires Dispatched(before, after, cur, next, ttbr) && next != cur
    ensures after[next].state == Running
    ensures ttbr == if before[next].pageTable in {0, before[cur].pageTable} then None else Some(before[next].pageTable)
  {
    hide FirstReady, Ahead;
    var states := StatesOf(before);
    assert StatesOf(after)[next] == Scheduled(states, cur)[next];
  }

  /** load_and_exec followed by schedule: if the new process is dispatched, the table the processor switches to is the
      one through which its image is visible. */
  method LaunchAndDispatch(procs: ProcessTable, name: string, file: seq<u8>)
    returns (slot: Option<nat>, pgd: nat, ttbr: Option<nat>)
    requires procs.Valid() && procs.current.Some? && E.Loadable(file)
    modifies procs, procs.table, procs.mmu, procs.pages, procs.pages.bitmap, procs.pages.ram
    ensures procs.Valid()
    ensures slot.Some? && procs.currentIndex == slot.value != old(procs.currentIndex) ==>
      ttbr == Some(pgd) && (StackApart(file) ==> E.Sees(procs.mmu, pgd, file, true))
  {
    hide PT.Inv, Consistent, P.Inv, E.ImageVisible, StackApart, Dispatched, UserFits, EarlierKept, CountFree;
    hide PT.Walk, StackPage, Remaining;
    ghost var w, s := procs.World(), procs.mmu.Tables();
    ghost var loaded, stack;
    var pid;
    pid, slot, pgd, loaded, stack := LoadAndExec(procs, name, file);
    ghost var before := procs.table[..];
    ttbr := procs.Schedule();
    if slot.Some? && procs.currentIndex == slot.value != old(procs.currentIndex) {
      DispatchLoads(before, procs.table[..], old(procs.currentIndex), slot.value, ttbr);
    }
  }

  // ------------------------------------------------------------ a process without its stack

  /** Eleven pages, the first three in use: two runs of four are left and nothing else. */
  lemma EightLeft(used: seq<bool>)
    requires |used| == 11 && forall p :: 0 <= p < 11 ==> (used[p] <==> p < 3)
    ensures CountFree(used) == 8 && UserRun(used) == Some(7)
  {
    hide CountFree, P.LowestRun;
    P.LowestAt(used, 3);
    var used1 := Filled(used, 3, P.STACK_PAGES, true);
    P.LowestAt(used1, 7);
    CountFreeFilled(used, 3, P.STACK_PAGES);
    CountFreeFilled(used1, 7, P.STACK_PAGES);
    CountFreeZero(Filled(used1, 7, P.STACK_PAGES, true));
  }

  /** Boot and the first user table take pages 1 and 2. */
  lemma FirstThree(mem: PT.Memory, used: seq<bool>)
    requires PT.WellSized(mem) && |mem| == |used| == 11 && forall p :: 0 <= p < 11 ==> (used[p] <==> p < 1)
    ensures var boot := PT.InitTables(mem, used, 0);
      && boot.Some? && boot.value.kernel < 11 && CountFree(boot.value.used) > 0
      && forall p :: 0 <= p < 11 ==> (PT.CreateTable(boot.value).0.used[p] <==> p < 3)
  {
    hide CountFree, FirstFree;
    assert used[0] && !used[1] && FirstFree(used) == 1;
    var used1 := used[1 := true];
    assert used1[0] && used1[1] && !used1[2] && FirstFree(used1) == 2;
    CountFreeZero(used1);
  }

  /** Nothing of the stack shows if its tables cannot be had on a fresh table. */
  lemma StackFaults(s: PT.State, r: PT.State, u: nat, stack: nat)
    requires PT.Inv(s) && PT.IsUser(s, u) && u < |s.mem| && NoTables(s, u) && UserStackSeen(s, r, u, stack)
    requires CountFree(s.used) < 2 * P.STACK_PAGES + 2
    ensures forall j :: 0 <= j < P.STACK_PAGES ==> PT.Walk(r.mem, u, StackVpn(j)) == PT.Fault
  {
    hide PT.Walk, CountFree;
    MissingFresh(s, u, [], StackVpn(0));
    forall j | 0 <= j < P.STACK_PAGES ensures PT.Walk(r.mem, u, StackVpn(j)) == PT.Fault {
      FreshFaults(s, u, StackVpn(j));
    }
  }

  lemma SlotOne(w: P.World)
    requires |w.table| > 1 && w.table[1].state.Unused? && UserRun(w.used).Some?
    ensures UserFits(w)
  {
  }

  /** From boot on a machine with eleven pages: create_user returns a process, and every page of its stack faults. */
  method StacklessProcess() returns (procs: ProcessTable, slot: Option<nat>, pgd: nat)
    ensures procs.Valid() && slot.Some? && pgd >= MEMORY_BASE && PageOf(pgd) < |procs.mmu.Tables().mem|
    ensures forall j :: 0 <= j < P.STACK_PAGES ==>
      PT.Walk(procs.mmu.Tables().mem, PageOf(pgd), StackVpn(j)) == PT.Fault
  {
    hide PT.Inv, Consistent, UserRun, CountFree, PT.Walk, UserStackSeen, StackOnly, PT.InitTables, PT.CreateTable;
    hide P.FreeSlot, P.CreateUser, NoTables, PT.IsUser;
    var pages := new PageAllocator(11 * PAGE_SIZE, 1);
    var mmu := new PageTables(pages, 0);
    FirstThree(mmu.Mem(), pages.Used());
    var up := mmu.Init();
    ghost var s0 := mmu.Tables();
    E.CreatedFresh(s0);
    pgd := mmu.CreateUserPageTable();
    ghost var s := mmu.Tables();
    EightLeft(s.used);
    procs := new ProcessTable(pages, mmu);
    procs.Init();
    SlotOne(procs.World());
    ghost var tables, stack;
    slot, tables, stack := procs.CreateUserProcess("", 0, pgd);
    StackFaults(s, procs.mmu.Tables(), PageOf(pgd), stack);
  }
}
