/**
  The process table as src/process/process.cpp and src/process/scheduler.cpp update it in place, above the page
  allocator and the page tables.
 */
module ProcessTables {
  import opened Machine
  import opened Pages
  import PT = PageTable
  import opened Mmu
  import TC = TableCost
  import opened Scheduler
  import opened Processes

  function StatesOf(table: seq<Process>): (s: States)
    requires |table| == MAX_PROCESSES
    ensures forall i :: 0 <= i < MAX_PROCESSES ==> s[i] == table[i].state
  {
    seq(MAX_PROCESSES, i requires 0 <= i < MAX_PROCESSES => table[i].state)
  }

  /** The process uses the kernel's table or one that create_user_page_table made. */
  predicate TableKnown(proc: Process, s: PT.State)
  {
    proc.pageTable == 0 || (proc.pageTable >= MEMORY_BASE && PT.IsUser(s, PageOf(proc.pageTable)))
  }

  predicate TablesKnown(table: seq<Process>, s: PT.State)
  {
    forall i :: 0 <= i < |table| ==> TableKnown(table[i], s)
  }

  /** Live stacks are disjoint and in use, no page table lies in one, only the current process runs, and all page tables
      are known. */
  ghost predicate Consistent(w: World, s: PT.State, cur: nat)
  {
    && Processes.Inv(w) && s.used == w.used
    && (forall p :: p in s.place ==> !Held(w.table, p))
    && OnlyCurrentRuns(StatesOf(w.table), cur) && TablesKnown(w.table, s)
  }

  lemma KnownLater(table: seq<Process>, s: PT.State, r: PT.State)
    requires TablesKnown(table, s) && r.kernel == s.kernel
    requires forall p :: p in s.place ==> p in r.place && r.place[p] == s.place[p]
    ensures TablesKnown(table, r)
  {
  }

  /** Zeroing a run of pages shows in their words only. */
  lemma ViewOutsideRun(ram: seq<u8>, pages: nat, start: nat, count: nat, p: nat)
    requires |ram| == pages * PAGE_SIZE && pages <= MAX_PAGES && start + count <= pages && p < pages
    requires !(start <= p < start + count)
    ensures View(ZeroedAt(ram, start * PAGE_SIZE, count * PAGE_SIZE), pages)[p] == View(ram, pages)[p]
  {
    var r := ZeroedAt(ram, start * PAGE_SIZE, count * PAGE_SIZE);
    forall i | 0 <= i < PT.ENTRIES ensures PageWords(r, p)[i] == PageWords(ram, p)[i] {
      var b := p * PAGE_SIZE + 8 * i;
      assert r[b..b + 8] == ram[b..b + 8];
    }
  }

  /** Pages in use stay in use and keep their words. */
  ghost predicate UsedKept(s: PT.State, r: PT.State)
    requires PT.Sized(s) && PT.Sized(r) && |r.mem| == |s.mem|
  {
    forall p :: 0 <= p < |s.mem| && s.used[p] ==> r.used[p] && r.mem[p] == s.mem[p]
  }

  /** What alloc_pages means for a stack, seen through the translation tables. */
  ghost predicate StackAllocated(s: PT.State, r: PT.State, addr: nat)
  {
    && PT.Sized(s) && PT.Inv(r) && PT.OnlyData(s, r) && UsedKept(s, r)
    && match LowestRun(s.used, 0)
       case None => addr == 0 && r == s
       case Some(k) => addr == PageAddress(k) != 0 && r.used == Filled(s.used, k, STACK_PAGES, true)
  }

  lemma StackTakenEffect(s: PT.State, r: PT.State, ram: seq<u8>, k: nat)
    requires PT.Inv(s) && |ram| == |s.mem| * PAGE_SIZE && s.mem == View(ram, |s.mem|)
    requires FreeRun(s.used, k, STACK_PAGES) && forall t :: 0 <= t < k ==> !FreeRun(s.used, t, STACK_PAGES)
    requires r == s.(mem := View(ZeroedAt(ram, k * PAGE_SIZE, STACK_PAGES * PAGE_SIZE), |s.mem|),
        used := Filled(s.used, k, STACK_PAGES, true))
    ensures StackAllocated(s, r, PageAddress(k))
  {
    LowestIsUnique(s.used, k);
    forall p | 0 <= p < |s.mem| && s.used[p] ensures r.mem[p] == s.mem[p] {
      ViewOutsideRun(ram, |s.mem|, k, STACK_PAGES, p);
    }
    PT.DataKeepsTables(s, r);
  }

  lemma NoRun(used: seq<bool>)
    requires forall t: nat :: !FreeRun(used, t, STACK_PAGES)
    ensures LowestRun(used, 0) == None
  {
  }

  /** Pages of a stack, one after the other. */
  lemma StackPage(stack: nat, j: nat, pages: nat)
    requires InRange(stack, pages) && j < STACK_PAGES
    ensures stack + j * PAGE_SIZE >= MEMORY_BASE && PageOf(stack + j * PAGE_SIZE) == PageOf(stack) + j < pages
  {
  }

  lemma NoStacks(table: seq<Process>)
    requires forall i :: 0 <= i < |table| ==> table[i].kernelStack == 0
    ensures forall p: nat :: !Held(table, p)
  {
  }

  /** A stack just taken holds no page table. */
  lemma TablesApart(s: PT.State, table: seq<Process>, slot: nat, proc: Process, k: nat)
    requires PT.Inv(s) && FreeRun(s.used, k, STACK_PAGES) && proc.kernelStack == PageAddress(k)
    requires slot < |table| && table[slot].state == Unused && forall p :: p in s.place ==> !Held(table, p)
    ensures forall p :: p in s.place ==> !Held(table[slot := proc], p)
  {
    forall p | p in s.place ensures !Held(table[slot := proc], p) {
      PutHeld(Processes.World.World(table, s.used, 0), slot, proc, p);
      AddressInRange(k, |s.used|);
      assert s.used[p];
    }
  }

  lemma CreateConsistent(w: World, s: PT.State, r: PT.State, cur: nat, name: string, entry: nat, wrapper: nat,
                         stack: nat)
    requires PT.Inv(s) && Consistent(w, s, cur) && FreeSlot(w.table, 1) < |w.table|
    requires StackAllocated(s, r, stack) && stack != 0
    ensures var slot := FreeSlot(w.table, 1);
      var v := Put(w, slot, Thread(w.nextPid, name, stack, entry, wrapper), r.used);
      && Create(w, name, entry, wrapper) == v && Consistent(v, r, cur)
      && w.table[slot].state == Unused && v.table[slot].state == Ready
  {
    hide PT.Inv, Held;
    CreateKeeps(w, name, entry, wrapper);
    var k := LowestRun(s.used, 0).value;
    AddressInRange(k, |s.used|);
    TablesApart(s, w.table, FreeSlot(w.table, 1), Thread(w.nextPid, name, stack, entry, wrapper), k);
  }

  /** Fewer live stacks hold fewer pages. */
  lemma TablesStayApart(place: set<nat>, table: seq<Process>, slot: nat, proc: Process)
    requires slot < |table| && proc.state == Unused && forall p :: p in place ==> !Held(table, p)
    ensures forall p :: p in place ==> !Held(table[slot := proc], p)
  {
    forall p | p in place ensures !Held(table[slot := proc], p) {
      var t := table[slot := proc];
      forall i | 0 <= i < |t| ensures !Holds(t[i], p) {
        assert i == slot || t[i] == table[i];
      }
    }
  }

  /** Giving up a stack keeps the page tables in use. */
  lemma TablesStillUsed(s: PT.State, w: World, i: nat, used: seq<bool>)
    requires PT.Inv(s) && Processes.Inv(w) && s.used == w.used && i < |w.table| && w.table[i].state != Unused
    requires used == FreeStack(w.used, w.table[i].kernelStack) && forall p :: p in s.place ==> !Held(w.table, p)
    ensures forall p :: p in s.place ==> p < |used| && used[p]
  {
    forall p | p in s.place ensures p < |used| && used[p] {
      assert !Holds(w.table[i], p);
    }
  }

  lemma RemoveConsistent(w: World, s: PT.State, cur: nat, i: nat, proc: Process)
    requires PT.Inv(s) && Consistent(w, s, cur) && 1 <= i < |w.table| && w.table[i].state != Unused
    requires proc.state == Unused && proc.pid == 0 && proc.pageTable == w.table[i].pageTable
    requires (proc.kernelStack == 0 || proc.kernelStack == w.table[i].kernelStack)
    ensures var r := Removed(w, i, proc); Consistent(r, s.(used := r.used), cur) && PT.Inv(s.(used := r.used))
  {
    hide PT.UserRootOk, PT.Level2Ok, PT.KernelOk, Held;
    RemoveKeeps(w, i, proc);
    TablesStayApart(s.place.Keys, w.table, i, proc);
    var used := Removed(w, i, proc).used;
    TablesStillUsed(s, w, i, used);
    PT.DataKeepsTables(s, s.(used := used));
  }

  lemma AheadSteps(start: nat, d: nat)
    requires start < MAX_PROCESSES && 1 <= d
    ensures Ahead(Ahead(start, d), 1) == Ahead(start, d + 1)
    ensures d <= MAX_PROCESSES ==> (Ahead(start, d) == start <==> d == MAX_PROCESSES)
  {
    AheadOne(start + d);
    if d <= MAX_PROCESSES { AheadReturns(start, d); }
  }

  lemma AheadOne(x: nat)
    ensures (x % MAX_PROCESSES + 1) % MAX_PROCESSES == (x + 1) % MAX_PROCESSES
  {
    var q, r := x / MAX_PROCESSES, x % MAX_PROCESSES;
    assert x + 1 == q * MAX_PROCESSES + (r + 1);
  }

  lemma AheadReturns(start: nat, d: nat)
    requires start < MAX_PROCESSES && 1 <= d <= MAX_PROCESSES
    ensures (start + d) % MAX_PROCESSES == if start + d < MAX_PROCESSES then start + d else start + d - MAX_PROCESSES
  {
  }

  /** The outcome of a call of schedule. */
  predicate Dispatched(before: seq<Process>, after: seq<Process>, cur: nat, next: nat, ttbr: Option<nat>)
  {
    && |before| == |after| == MAX_PROCESSES && cur < MAX_PROCESSES && next < MAX_PROCESSES
    && next == NextIndex(StatesOf(before), cur) && StatesOf(after) == Scheduled(StatesOf(before), cur)
    && (forall i :: 0 <= i < MAX_PROCESSES ==> after[i] == before[i].(state := after[i].state))
    && (ttbr.Some? <==>
          after[next].state == Running && before[next].pageTable !in {0, before[cur].pageTable})
    && (ttbr.Some? ==> ttbr.value == before[next].pageTable)
  }

  function MarkedTable(table: seq<Process>, cur: nat): (r: seq<Process>)
    requires cur < |table|
    ensures |r| == |table|
  {
    if table[cur].state == Running then table[cur := table[cur].(state := Ready)] else table
  }

  function NextSlot(table: seq<Process>, start: nat): (next: nat)
    requires |table| == MAX_PROCESSES && start < MAX_PROCESSES
    ensures next < MAX_PROCESSES
  {
    var e := FirstReady(StatesOf(table), start, 1);
    if e <= MAX_PROCESSES then Ahead(start, e) else start
  }

  function RunningTable(table: seq<Process>, next: nat): (r: seq<Process>)
    requires next < |table|
    ensures |r| == |table|
  {
    table[next := table[next].(state := Running)]
  }

  function SwitchTable(old_: Process, new_: Process): (ttbr: Option<nat>)
  {
    if new_.pageTable != 0 && new_.pageTable != old_.pageTable then Some(new_.pageTable) else None
  }

  lemma MarkedStates(table: seq<Process>, cur: nat)
    requires |table| == MAX_PROCESSES && cur < MAX_PROCESSES
    ensures StatesOf(MarkedTable(table, cur)) == Marked(StatesOf(table), cur)
    ensures NextSlot(MarkedTable(table, cur), cur) == NextIndex(StatesOf(table), cur)
  {
    assert StatesOf(MarkedTable(table, cur)) == Marked(StatesOf(table), cur);
  }

  lemma StayOutcome(w: World, cur: nat)
    requires Processes.Inv(w) && cur < MAX_PROCESSES
    requires var m := MarkedTable(w.table, cur); m[NextSlot(m, cur)].state != Ready
    ensures MarkedTable(w.table, cur) == w.table && Dispatched(w.table, w.table, cur, cur, None)
  {
    MarkedStates(w.table, cur);
    NothingReady(StatesOf(w.table), cur);
  }

  lemma SwitchOutcome(w: World, cur: nat)
    requires Processes.Inv(w) && |w.table| == MAX_PROCESSES && cur < MAX_PROCESSES
    requires OnlyCurrentRuns(StatesOf(w.table), cur)
    requires var m := MarkedTable(w.table, cur); m[NextSlot(m, cur)].state == Ready
    ensures var m := MarkedTable(w.table, cur);
      var next := NextSlot(m, cur);
      var r := RunningTable(m, next);
      && Processes.Inv(w.(table := r)) && (forall p: nat :: Held(r, p) <==> Held(w.table, p))
      && OnlyCurrentRuns(StatesOf(r), next) && Dispatched(w.table, r, cur, next, SwitchTable(r[cur], r[next]))
  {
    hide Held, Processes.Inv, NextIndex, NextSlot;
    var m := MarkedTable(w.table, cur);
    var next := NextSlot(m, cur);
    var r := RunningTable(m, next);
    MarkedStates(w.table, cur);
    SchedulesReady(StatesOf(w.table), cur);
    assert StatesOf(r) == Scheduled(StatesOf(w.table), cur);
    StatesOnly(w, r);
  }

  lemma AheadAround(cur: nat)
    requires cur < MAX_PROCESSES
    ensures Ahead(cur, MAX_PROCESSES) == cur
  {
  }

  /** If the search finds nothing, the current process was neither running nor ready. */
  lemma NothingReady(states: States, cur: nat)
    requires cur < MAX_PROCESSES && !Marked(states, cur)[NextIndex(states, cur)].Ready?
    ensures NextIndex(states, cur) == cur && Scheduled(states, cur) == states && !states[cur].Running?
    ensures !states[cur].Ready?
  {
    hide Ahead, FirstReady;
    AheadAround(cur);
    var marked := Marked(states, cur);
    assert FirstReady(marked, cur, 1) > MAX_PROCESSES;
    assert !marked[Ahead(cur, MAX_PROCESSES)].Ready?;
  }

  lemma StatesOnly(w: World, table: seq<Process>)
    requires Processes.Inv(w) && |table| == |w.table|
    requires forall i :: 0 <= i < |table| ==> table[i] == w.table[i].(state := table[i].state)
    requires forall i :: 0 <= i < |table| ==> (table[i].state == Unused <==> w.table[i].state == Unused)
    ensures Processes.Inv(w.(table := table)) && forall p: nat :: Held(table, p) <==> Held(w.table, p)
  {
    SameHolders(w.table, table);
  }

  /** The virtual page of the user stack's j-th page. */
  function StackVpn(j: nat): (vpn: nat)
    requires j < STACK_PAGES
    ensures vpn == 0x7FF_FFFB + j && vpn < PT.VPN_LIMIT && PT.Index1(vpn) >= PT.FIRST_PRIVATE
    ensures vpn == Vpn(USER_STACK_BASE - USER_STACK_SIZE + j * PAGE_SIZE)
  {
    0x7FF_FFFB + j
  }

  lemma StackShare(i: nat, j: nat)
    requires i < STACK_PAGES && j < STACK_PAGES
    ensures PT.Index1(StackVpn(i)) == PT.Index1(StackVpn(j)) && PT.Index2(StackVpn(i)) == PT.Index2(StackVpn(j))
  {
  }

  /** The first n pages of the user stack, exactly: mapped to the run at `stack` if the tables for the first one can be
      had, left alone otherwise. */
  ghost predicate StackSeen(s: PT.State, r: PT.State, u: nat, stack: nat, n: nat)
    requires PT.Sized(s) && PT.Sized(r) && |r.mem| == |s.mem| && u < |s.mem| && n <= STACK_PAGES
  {
    if PT.CanMap(s, u, StackVpn(0)) then
      forall j :: 0 <= j < n ==> PT.Walk(r.mem, u, StackVpn(j)) == PT.Leaf(3, stack + j * PAGE_SIZE + PTE_USER_RWX)
    else
      forall j :: 0 <= j < STACK_PAGES ==> PT.Walk(r.mem, u, StackVpn(j)) == PT.Walk(s.mem, u, StackVpn(j))
  }

  /** The tables below the stack are all there after the first page, or can never be had. */
  ghost predicate StackTables(s: PT.State, r: PT.State, u: nat, n: nat)
    requires PT.Sized(s) && PT.Sized(r) && |r.mem| == |s.mem| && u < |s.mem|
  {
    if n == 0 then r == s
    else if PT.CanMap(s, u, StackVpn(0)) then forall j :: 0 <= j < STACK_PAGES ==> PT.Missing(r, u, StackVpn(j)) == 0
    else CountFree(r.used) == 0 && forall j :: 0 <= j < STACK_PAGES ==> PT.Missing(r, u, StackVpn(j)) > 0
  }

  /** The virtual pages of the user stack. */
  const STACK_VPNS: seq<nat> := [StackVpn(0), StackVpn(1), StackVpn(2), StackVpn(3)]

  ghost predicate StackSoFar(s: PT.State, r: PT.State, u: nat, stack: nat, n: nat)
  {
    && PT.Sized(s) && PT.Inv(r) && PT.Extends(s, r) && PT.IsUser(r, u) && n <= STACK_PAGES && InRange(stack, |r.mem|)
    && |r.mem| == |s.mem| && u < |r.mem| && StackSeen(s, r, u, stack, n) && StackTables(s, r, u, n)
    && PT.WalksKept(s, r, u, STACK_VPNS)
  }

  lemma StackMapStep(s: PT.State, r: PT.State, u: nat, stack: nat, n: nat)
    requires PT.Inv(s) && StackSoFar(s, r, u, stack, n) && n < STACK_PAGES
    ensures PT.IsUser(r, u) && PT.Sized(r) && u < |r.mem| && stack + n * PAGE_SIZE < U64
    ensures var d := Descriptor(stack + n * PAGE_SIZE, PTE_USER_RWX);
      StackSoFar(s, PT.MapPage(r, u, StackVpn(n), d), u, stack, n + 1)
  {
    hide PT.Walk, PT.MapPage, CountFree, Descriptor, StackSeen;
    hide StackTables, PT.UserRootOk, PT.Level2Ok, PT.KernelOk, PT.Missing;
    var d := Descriptor(stack + n * PAGE_SIZE, PTE_USER_RWX);
    PT.MapPageRefines(r, u, StackVpn(n), d);
    StackCan(s, r, u, n);
    StackSeenNext(s, r, u, stack, n);
    StackTablesNext(s, r, u, n, d);
    var t := PT.MapPage(r, u, StackVpn(n), d);
    ExtendsOn(s, r, t);
    assert PT.WalksKept(r, t, u, [StackVpn(n)]);
    PT.WalksKeptOn(s, r, t, u, STACK_VPNS, [StackVpn(n)]);
    assert forall v :: v in STACK_VPNS + [StackVpn(n)] ==> v in STACK_VPNS;
  }

  /** Each page of the stack can be mapped exactly if the first one can. */
  lemma StackCan(s: PT.State, r: PT.State, u: nat, n: nat)
    requires PT.Sized(s) && PT.Sized(r) && |r.mem| == |s.mem| && u < |s.mem| && n < STACK_PAGES
    requires StackTables(s, r, u, n)
    ensures PT.CanMap(r, u, StackVpn(n)) <==> PT.CanMap(s, u, StackVpn(0))
  {
    hide PT.Missing, CountFree;
  }

  lemma StackSeenNext(s: PT.State, r: PT.State, u: nat, stack: nat, n: nat)
    requires PT.Inv(s) && PT.Inv(r) && PT.IsUser(r, u) && |r.mem| == |s.mem| && u < |s.mem| && n < STACK_PAGES
    requires InRange(stack, |r.mem|)
    requires StackSeen(s, r, u, stack, n) && (PT.CanMap(r, u, StackVpn(n)) <==> PT.CanMap(s, u, StackVpn(0)))
    ensures stack + n * PAGE_SIZE < U64
    ensures var d := Descriptor(stack + n * PAGE_SIZE, PTE_USER_RWX);
      StackSeen(s, PT.MapPage(r, u, StackVpn(n), d), u, stack, n + 1)
  {
    hide PT.Walk, PT.MapPage, CountFree, Descriptor, PT.Extends;
    hide PT.UserRootOk, PT.Level2Ok, PT.KernelOk, PT.Missing, PT.CanMap;
    var page: u64 := stack + n * PAGE_SIZE;
    StackPage(stack, n, |r.mem|);
    assert page == PageAddress(PageOf(page));
    UserDescriptor(PageOf(page), page);
    UserDescriptorIsPage(PageOf(page));
    PT.MapPageRefines(r, u, StackVpn(n), Descriptor(page, PTE_USER_RWX));
  }

  lemma StackTablesNext(s: PT.State, r: PT.State, u: nat, n: nat, d: nat)
    requires PT.Inv(s) && PT.Inv(r) && PT.IsUser(r, u) && |r.mem| == |s.mem| && u < |s.mem| && n < STACK_PAGES
    requires StackTables(s, r, u, n) && (PT.CanMap(r, u, StackVpn(n)) <==> PT.CanMap(s, u, StackVpn(0)))
    ensures StackTables(s, PT.MapPage(r, u, StackVpn(n), d), u, n + 1)
  {
    hide PT.Walk, PT.MapPage, CountFree, PT.UserRootOk, PT.Level2Ok, PT.KernelOk, PT.Missing, PT.CanMap;
    var t := PT.MapPage(r, u, StackVpn(n), d);
    PT.MapPageRefines(r, u, StackVpn(n), d);
    if PT.CanMap(r, u, StackVpn(n)) {
      forall j | 0 <= j < STACK_PAGES ensures PT.Missing(t, u, StackVpn(j)) == 0 {
        StackShare(n, j);
        TC.MapMissing(r, u, StackVpn(n), d, StackVpn(j));
      }
    } else {
      TC.FailedMissing(r, u, StackVpn(n), d);
      forall j | 0 <= j < STACK_PAGES ensures PT.Missing(t, u, StackVpn(j)) > 0 {
        StackShare(n, j);
        TC.SamePath(t, u, StackVpn(n), StackVpn(j));
      }
    }
  }

  lemma MapNothing(s: PT.State, u: nat, stack: nat)
    requires PT.Inv(s) && PT.IsUser(s, u) && InRange(stack, |s.mem|)
    ensures StackSoFar(s, s, u, stack, 0)
  {
  }

  lemma MapAll(s: PT.State, r: PT.State, u: nat, stack: nat)
    requires StackSoFar(s, r, u, stack, STACK_PAGES)
    ensures PT.Sized(s) && PT.Extends(s, r) && PT.IsUser(r, u) && u < |r.mem| == |s.mem|
    ensures StackSeen(s, r, u, stack, STACK_PAGES) && PT.WalksKept(s, r, u, STACK_VPNS)
  {
  }

  lemma ExtendsOn(a: PT.State, b: PT.State, c: PT.State)
    requires PT.Inv(b) && PT.Sized(a) && PT.Sized(c) && PT.Extends(a, b) && PT.Extends(b, c)
    ensures PT.Extends(a, c)
  {
    PT.ExtendsTransitive(a, b, c);
  }

  /** The two allocations of create_user, the first undone in part if the second fails. */
  ghost predicate BothAllocated(s: PT.State, r: PT.State, kstack: nat, ustack: nat)
  {
    && PT.Inv(s) && PT.Inv(r) && PT.Sized(s) && PT.Sized(r) && PT.OnlyData(s, r) && UsedKept(s, r)
    && match LowestRun(s.used, 0)
       case None => ustack == 0 && r == s
       case Some(k) =>
         kstack == PageAddress(k) &&
         var used1 := Filled(s.used, k, STACK_PAGES, true);
         match LowestRun(used1, 0)
         case None => ustack == 0 && r.used == used1[k := false]
         case Some(u) => ustack == PageAddress(u) && ustack != 0 && r.used == Filled(used1, u, STACK_PAGES, true)
  }

  lemma SecondFails(s: PT.State, s1: PT.State, kstack: nat)
    requires PT.Inv(s) && StackAllocated(s, s1, kstack) && kstack != 0 && LowestRun(s1.used, 0).None?
    ensures kstack >= MEMORY_BASE && PageOf(kstack) < |s1.used|
    ensures BothAllocated(s, s1.(used := s1.used[PageOf(kstack) := false]), kstack, 0)
  {
    var k := LowestRun(s.used, 0).value;
    AddressInRange(k, |s.used|);
    PT.DataKeepsTables(s1, s1.(used := s1.used[k := false]));
  }

  lemma BothSucceed(s: PT.State, s1: PT.State, s2: PT.State, kstack: nat, ustack: nat)
    requires PT.Inv(s) && StackAllocated(s, s1, kstack) && kstack != 0 && StackAllocated(s1, s2, ustack) && ustack != 0
    ensures BothAllocated(s, s2, kstack, ustack)
  {
  }

  lemma NoUserSlot(w: World, name: string, entry: nat, pgd: nat)
    requires |w.table| > 0 && FreeSlot(w.table, 1) == |w.table|
    ensures CreateUser(w, name, entry, pgd, []) == w
  {
  }

  /** create_user fails: the table stays, and at most three pages are lost. */
  lemma UserFails(w: World, s: PT.State, r: PT.State, cur: nat, kstack: nat, name: string, entry: nat, pgd: nat)
    requires Consistent(w, s, cur) && BothAllocated(s, r, kstack, 0) && FreeSlot(w.table, 1) < |w.table|
    ensures var v := w.(used := r.used); CreateUser(w, name, entry, pgd, []) == v && Consistent(v, r, cur)
    ensures UserRun(w.used).None?
  {
    hide PT.Inv, Held;
    var k := LowestRun(w.used, 0);
    if k.Some? {
      AddressInRange(k.value, |w.used|);
      FailedUserKeeps(w, k.value);
    }
  }

  /** create_user succeeds: whatever pages the mapping took, the table is as it should be. */
  lemma UserSucceeds(w: World, s: PT.State, s2: PT.State, r: PT.State, cur: nat, name: string, entry: nat, pgd: nat,
                     kstack: nat, ustack: nat)
    requires Consistent(w, s, cur) && FreeSlot(w.table, 1) < |w.table|
    requires BothAllocated(s, s2, kstack, ustack) && ustack != 0 && PT.Sized(r) && PT.Inv(r) && PT.Extends(s2, r)
    requires pgd >= MEMORY_BASE && PT.IsUser(r, PageOf(pgd))
    ensures var v := Put(w, FreeSlot(w.table, 1), User(w.nextPid, name, kstack, entry, pgd), r.used);
      CreateUser(w, name, entry, pgd, r.used) == v && Consistent(v, r, cur)
  {
    hide PT.Inv, Held, Processes.Inv;
    var k := LowestRun(w.used, 0).value;
    AddressInRange(k, |w.used|);
    var slot, proc := FreeSlot(w.table, 1), User(w.nextPid, name, kstack, entry, pgd);
    assert Union(s2.used, r.used) == r.used;
    CreateUserKeeps(w, name, entry, pgd, r.used);
    assert Union(s2.used, []) == s2.used;
    CreateUserKeeps(w, name, entry, pgd, []);
    TablesApart(s, w.table, slot, proc, k);
    GrownApart(s2, r, Put(w, slot, proc, s2.used));
    PutStates(w, slot, proc, cur);
    KnownLater(w.table, s, r);
  }

  lemma PutStates(w: World, slot: nat, proc: Process, cur: nat)
    requires Processes.Inv(w) && slot < |w.table| && proc.state == Ready && OnlyCurrentRuns(StatesOf(w.table), cur)
    ensures OnlyCurrentRuns(StatesOf(w.table[slot := proc]), cur)
  {
    assert StatesOf(w.table[slot := proc]) == StatesOf(w.table)[slot := Ready];
  }

  lemma UserStackIs(s: PT.State, r: PT.State, kstack: nat, ustack: nat)
    requires BothAllocated(s, r, kstack, ustack) && ustack != 0
    ensures InRange(ustack, |r.mem|) && forall u: nat :: PT.IsUser(s, u) ==> PT.IsUser(r, u)
  {
    hide PT.Inv;
    var used1 := Filled(s.used, LowestRun(s.used, 0).value, STACK_PAGES, true);
    AddressInRange(LowestRun(used1, 0).value, |r.mem|);
  }

  /** Where create_user puts the user stack: the lowest run left once the kernel stack is taken. */
  ghost function UserRun(used: seq<bool>): (k: Option<nat>)
  {
    var k := LowestRun(used, 0);
    if k.None? then None else LowestRun(Filled(used, k.value, STACK_PAGES, true), 0)
  }

  /** create_user finds a slot and both stacks. */
  ghost predicate UserFits(w: World)
    requires |w.table| > 0
  {
    FreeSlot(w.table, 1) < |w.table| && UserRun(w.used).Some?
  }

  /** A page of the user stack afterwards: mapped to the run exactly if two stacks and the tables they lack were free
      before, as it was otherwise. */
  ghost function UserStackPage(s: PT.State, u: nat, stack: nat, j: nat): (t: PT.Translation)
    requires PT.Sized(s) && u < |s.mem| && j < STACK_PAGES
  {
    if 2 * STACK_PAGES + PT.Missing(s, u, StackVpn(0)) <= CountFree(s.used)
    then PT.Leaf(3, stack + j * PAGE_SIZE + PTE_USER_RWX)
    else PT.Walk(s.mem, u, StackVpn(j))
  }

  ghost predicate UserStackSeen(s: PT.State, r: PT.State, u: nat, stack: nat)
  {
    && PT.Sized(s) && PT.Sized(r) && |r.mem| == |s.mem| && u < |s.mem|
    && forall j :: 0 <= j < STACK_PAGES ==> PT.Walk(r.mem, u, StackVpn(j)) == UserStackPage(s, u, stack, j)
  }

  /** The result of create_user: a slot exactly if there is room, the first one, with the stack in the second run. */
  ghost predicate UserResult(w: World, s: PT.State, r: PT.State, u: nat, slot: Option<nat>, stack: nat)
  {
    && |w.table| > 0 && (slot.Some? <==> UserFits(w))
    && (slot.Some? ==>
          && slot.value == FreeSlot(w.table, 1) && stack == PageAddress(UserRun(w.used).value)
          && UserStackSeen(s, r, u, stack))
  }

  /** The lowest run of four free pages. */
  ghost predicate LowestFree(used: seq<bool>, k: nat)
  {
    FreeRun(used, k, 4) && forall t: nat :: t < k ==> !FreeRun(used, t, 4)
  }

  /** A process as create_user leaves it: ready, on its own table, with an empty context on a kernel stack that takes
      the lowest free run. */
  ghost predicate StartsUser(p: Process, used: seq<bool>, pid: u32, name: string, entry: nat, pgd: nat)
  {
    && p.pid == pid && p.state == Ready && p.name == name
    && p.pageTable == pgd && p.userEntry == entry && p.userStack == 0x7F_FFFF_F000
    && p.x19 == 0 && p.x30 == 0 && p.sp == p.kernelStackTop == p.kernelStack + 16384
    && p.kernelStack >= MEMORY_BASE && p.kernelStack == PageAddress(PageOf(p.kernelStack))
    && LowestFree(used, PageOf(p.kernelStack))
  }

  /** Only the lowest unused slot from 1 on changed. */
  ghost predicate SlotFilled(before: seq<Process>, after: seq<Process>, i: nat)
  {
    && 1 <= i < |before| == |after| && before[i].state == Unused && after == before[i := after[i]]
    && forall k :: 1 <= k < i ==> before[k].state != Unused
  }

  /** The process in the slot that create_user returned; without one the table stays. */
  ghost predicate UserStarted(w: World, r: World, slot: Option<nat>, name: string, entry: nat, pgd: nat)
  {
    match slot
    case None => r.table == w.table && r.nextPid == w.nextPid
    case Some(i) =>
      && SlotFilled(w.table, r.table, i) && r.nextPid == (w.nextPid + 1) % U32
      && StartsUser(r.table[i], w.used, w.nextPid, name, entry, pgd)
  }

  lemma UserStarts(w: World, s: PT.State, s2: PT.State, r: World, name: string, entry: nat, pgd: nat, kstack: nat,
                   ustack: nat)
    requires BothAllocated(s, s2, kstack, ustack) && ustack != 0 && s.used == w.used
    requires |w.table| > 0 && FreeSlot(w.table, 1) < |w.table|
    requires r == Put(w, FreeSlot(w.table, 1), User(w.nextPid, name, kstack, entry, pgd), r.used)
    ensures UserStarted(w, r, Some(FreeSlot(w.table, 1)), name, entry, pgd)
  {
    hide PT.Inv, PT.OnlyData, UsedKept;
    AddressInRange(LowestRun(w.used, 0).value, |w.used|);
  }

  lemma NobodyStarted(w: World, r: World, name: string, entry: nat, pgd: nat)
    requires r.table == w.table && r.nextPid == w.nextPid
    ensures UserStarted(w, r, None, name, entry, pgd)
  {
  }

  lemma UserStackExact(s: PT.State, s2: PT.State, r: PT.State, u: nat, kstack: nat, ustack: nat)
    requires BothAllocated(s, s2, kstack, ustack) && ustack != 0 && PT.IsUser(s, u)
    requires PT.Sized(r) && |r.mem| == |s.mem| && u < |s.mem| && StackSeen(s2, r, u, ustack, STACK_PAGES)
    ensures UserStackSeen(s, r, u, ustack) && UserRun(s.used).Some? && ustack == PageAddress(UserRun(s.used).value)
  {
    hide PT.Walk, CountFree, PT.Missing, PT.UserRootOk, PT.Level2Ok, PT.KernelOk;
    var k := LowestRun(s.used, 0).value;
    var used1 := Filled(s.used, k, STACK_PAGES, true);
    CountFreeFilled(s.used, k, STACK_PAGES);
    CountFreeFilled(used1, LowestRun(used1, 0).value, STACK_PAGES);
    TC.DataMissing(s, s2, u, StackVpn(0));
    PT.DataKeepsTables(s, s2);
  }

  /** create_user changes no translation but those of the user stack, and no page that was in use. */
  ghost predicate StackOnly(s: PT.State, r: PT.State, u: nat)
  {
    PT.Sized(s) && PT.Sized(r) && |r.mem| == |s.mem| && PT.Extends(s, r) && PT.WalksKept(s, r, u, STACK_VPNS)
  }

  lemma NothingMapped(s: PT.State, u: nat)
    requires PT.Inv(s)
    ensures StackOnly(s, s, u)
  {
    hide PT.UserRootOk, PT.Level2Ok, PT.KernelOk;
  }

  lemma BothKeep(s: PT.State, r: PT.State, u: nat, kstack: nat, ustack: nat)
    requires BothAllocated(s, r, kstack, ustack)
    ensures StackOnly(s, r, u)
  {
    hide PT.Walk, PT.UserRootOk, PT.Level2Ok, PT.KernelOk, LowestRun;
    PT.DataKeepsTables(s, r);
  }

  lemma StackOnlyOn(s: PT.State, s2: PT.State, r: PT.State, u: nat)
    requires StackOnly(s, s2, u) && PT.Inv(s2) && PT.Sized(r) && PT.Extends(s2, r) && |r.mem| == |s2.mem|
    requires PT.WalksKept(s2, r, u, STACK_VPNS)
    ensures StackOnly(s, r, u)
  {
    hide PT.Walk, PT.UserRootOk, PT.Level2Ok, PT.KernelOk;
    ExtendsOn(s, s2, r);
    PT.WalksKeptOn(s, s2, r, u, STACK_VPNS, STACK_VPNS);
    assert forall v :: v in STACK_VPNS + STACK_VPNS ==> v in STACK_VPNS;
  }

  /** New page tables are taken from free pages, so never from a live stack. */
  lemma GrownApart(s: PT.State, r: PT.State, w: World)
    requires PT.Inv(s) && PT.Inv(r) && PT.Extends(s, r) && Processes.Inv(w) && w.used == s.used
    requires forall p :: p in s.place ==> !Held(w.table, p)
    ensures forall p :: p in r.place ==> !Held(w.table, p)
  {
    forall p | p in r.place ensures !Held(w.table, p) {
      if p !in s.place { UsedIsOthersAndStacks(w, p); }
    }
  }

  /** Page tables that grow by free pages leave the process table as it was. */
  lemma GrowConsistent(w: World, s: PT.State, r: PT.State, cur: nat)
    requires PT.Inv(s) && PT.Inv(r) && PT.Extends(s, r) && Consistent(w, s, cur)
    ensures Consistent(w.(used := r.used), r, cur)
  {
    hide PT.UserRootOk, PT.Level2Ok, PT.KernelOk;
    forall p | 0 <= p < |r.used| && Held(w.table, p) ensures r.used[p] {
      UsedIsOthersAndStacks(w, p);
    }
    GrowKeeps(w, r.used);
    GrownApart(s, r, w);
    KnownLater(w.table, s, r);
  }

  /** destroy finds a stale slot, and a page of its old stack is in a live stack or carries a page table by now. */
  ghost predicate StaleHurts(w: World, s: PT.State, pid: u32)
    requires |w.table| > 0
  {
    Stale(w, pid) && Needed(w, s, SlotOfPid(w.table, pid, 1))
  }

  ghost predicate Needed(w: World, s: PT.State, i: nat)
    requires i < |w.table|
  {
    exists p :: 0 <= p < |w.used| && InStack(w.table[i].kernelStack, p) && (Held(w.table, p) || p in s.place)
  }

  /** Freeing the stack of an unused slot breaks something exactly if a page of it is needed. */
  lemma StaleOutcome(w: World, s: PT.State, cur: nat, i: nat)
    requires PT.Inv(s) && Consistent(w, s, cur) && 1 <= i < |w.table| && w.table[i].state == Unused
    ensures var used := FreeStack(w.used, w.table[i].kernelStack);
      PT.Inv(s.(used := used)) && Consistent(w.(used := used), s.(used := used), cur) <==> !Needed(w, s, i)
    ensures Processes.SlotOk(w.table[i], |w.used|)
  {
    hide PT.UserRootOk, PT.Level2Ok, PT.KernelOk, Held;
    var stack := w.table[i].kernelStack;
    var used := FreeStack(w.used, stack);
    DestroyUnused(w, i);
    if !Needed(w, s, i) {
      forall p | p in s.place ensures used[p] {
        assert !InStack(stack, p);
      }
      PT.DataKeepsTables(s, s.(used := used));
    } else {
      var p :| 0 <= p < |w.used| && InStack(stack, p) && (Held(w.table, p) || p in s.place);
      assert !used[p];
    }
  }

  /** Exit brings back no stack that is gone, and none that carries a page table by now. */
  ghost predicate ExitHarmless(w: World, s: PT.State, cur: nat)
    requires cur < |w.table|
  {
    ExitSafe(w, cur)
    && (w.table[cur].state == Unused ==> forall p :: p in s.place ==> !InStack(w.table[cur].kernelStack, p))
  }

  lemma ExitOutcome(w: World, s: PT.State, cur: nat)
    requires Consistent(w, s, cur) && cur < |w.table|
    ensures Consistent(Exited(w, cur), s, cur) <==> ExitHarmless(w, s, cur)
  {
    hide Held, ExitSafe;
    ExitKeepsIff(w, cur);
    var r := Exited(w, cur);
    if w.table[cur].state != Unused {
      SameHolders(w.table, r.table);
    } else {
      forall p: nat ensures Held(r.table, p) <==> Held(w.table, p) || InStack(w.table[cur].kernelStack, p) {
        PutHeld(w, cur, r.table[cur], p);
      }
    }
  }

  // ------------------------------------------------------------ whole runs with the scheduler

  datatype Kernel = Kernel(w: World, cur: nat)

  /** Ends is the current thread returning or asking to end. */
  datatype KernelEvent = Does(e: Event) | Schedules | Ends

  ghost predicate KernelInv(k: Kernel)
  {
    Processes.Inv(k.w) && k.cur < MAX_PROCESSES && OnlyCurrentRuns(StatesOf(k.w.table), k.cur)
  }

  ghost predicate KernelEnabled(k: Kernel, e: KernelEvent)
    requires KernelInv(k)
  {
    match e
    case Does(d) => !d.Switches? && !d.Exits? && Enabled(k.w, d)
    case Schedules => true
    case Ends => ExitSafe(k.w, k.cur)
  }

  ghost function KernelStep(k: Kernel, e: KernelEvent): (r: Kernel)
    requires KernelInv(k) && KernelEnabled(k, e)
  {
    match e
    case Does(d) => k.(w := Step(k.w, d))
    case Ends => k.(w := Exited(k.w, k.cur))
    case Schedules =>
      var m := MarkedTable(k.w.table, k.cur);
      var next := NextSlot(m, k.cur);
      if m[next].state == Ready then Kernel(k.w.(table := RunningTable(m, next)), next) else k
  }

  /** No operation on the table but the scheduler sets a process running. */
  lemma NoNewRunner(w: World, e: Event)
    requires Processes.Inv(w) && Enabled(w, e) && !e.Switches? && !e.Exits?
    ensures var r := Step(w, e);
      |r.table| == |w.table| && forall i :: 0 <= i < |w.table| ==>
        r.table[i].state == Running ==> w.table[i].state == Running
  {
    hide LowestRun, Held, FreeStack, StaleHit, InRange, InStack;
  }

  lemma KernelStepKeeps(k: Kernel, e: KernelEvent)
    requires KernelInv(k) && KernelEnabled(k, e)
    ensures KernelInv(KernelStep(k, e))
  {
    hide Held, LowestRun, NextSlot, Step, Enabled, ExitSafe;
    match e
    case Does(d) =>
      StepKeeps(k.w, d);
      NoNewRunner(k.w, d);
    case Ends =>
      ExitKeepsIff(k.w, k.cur);
    case Schedules =>
      var m := MarkedTable(k.w.table, k.cur);
      if m[NextSlot(m, k.cur)].state == Ready { SwitchOutcome(k.w, k.cur); }
  }

  ghost predicate KernelRunAllowed(k: Kernel, es: seq<KernelEvent>)
    requires KernelInv(k)
    decreases |es|
  {
    || es == []
    || (&& KernelEnabled(k, es[0])
        && (KernelStepKeeps(k, es[0]); KernelRunAllowed(KernelStep(k, es[0]), es[1..])))
  }

  ghost function KernelRun(k: Kernel, es: seq<KernelEvent>): (r: Kernel)
    requires KernelInv(k) && KernelRunAllowed(k, es)
    decreases |es|
  {
    if es == [] then k else KernelStepKeeps(k, es[0]); KernelRun(KernelStep(k, es[0]), es[1..])
  }

  /** Over every run only the current process runs, and the live stacks stay apart. */
  lemma {:induction false} KernelRunKeeps(k: Kernel, es: seq<KernelEvent>)
    requires KernelInv(k) && KernelRunAllowed(k, es)
    ensures KernelInv(KernelRun(k, es))
    decreases |es|
  {
    hide KernelInv, KernelStep, KernelEnabled;
    if es != [] {
      KernelStepKeeps(k, es[0]);
      KernelRunKeeps(KernelStep(k, es[0]), es[1..]);
    }
  }

  // ------------------------------------------------------------ a run in which a destroyed process ends

  /** A thread is created, dispatched and destroyed: it is still current, on a stack that is free. */
  const ENDING_RUN: seq<KernelEvent> := [Does(Creates("", 0, 0)), Schedules, Does(Destroys(1))]

  /** The four kernels of the run. */
  function EndingKernel(n: nat): (k: Kernel)
    requires n <= 3
    ensures |k.w.table| == MAX_PROCESSES
  {
    var w := StaleWorld(1);
    var dispatched := RunningTable(MarkedTable(w.table, 0), 1);
    match n
    case 0 => Kernel(StaleWorld(0), 0)
    case 1 => Kernel(w, 0)
    case 2 => Kernel(w.(table := dispatched), 1)
    case _ => Kernel(World.World(dispatched[1 := Cleared(dispatched[1])], seq(8, p => false), 2), 1)
  }

  lemma DispatchOne(w: World)
    requires |w.table| == MAX_PROCESSES && w.table[0].state == Running && w.table[1].state == Ready
    ensures var m := MarkedTable(w.table, 0); NextSlot(m, 0) == 1 && m[1].state == Ready
  {
    var states := StatesOf(MarkedTable(w.table, 0));
    assert Ahead(0, 1) == 1 && states[1].Ready?;
    assert FirstReady(states, 0, 1) == 1;
  }

  /** The thread destroyed itself and returns: its stack is live again without being in use. */
  lemma DestroyedCanEnd()
    ensures KernelInv(Kernel(Booted(), 0)) && KernelRunAllowed(Kernel(Booted(), 0), ENDING_RUN)
    ensures var k := KernelRun(Kernel(Booted(), 0), ENDING_RUN);
      k.cur == 1 && !ExitSafe(k.w, 1) && !Processes.Inv(Exited(k.w, 1))
  {
    hide EndingKernel, KernelStep, KernelEnabled, ExitSafe, Processes.Inv;
    EndingStarts();
    EndingRunFrom(0);
    assert ENDING_RUN[0..] == ENDING_RUN;
    KernelRunKeeps(EndingKernel(0), ENDING_RUN);
    EndingEnds();
    ExitKeepsIff(EndingKernel(3).w, 1);
  }

  lemma EndingStarts()
    ensures EndingKernel(0) == Kernel(Booted(), 0) && KernelInv(EndingKernel(0))
  {
    BootedInv();
  }

  lemma EndingEnds()
    ensures EndingKernel(3).cur == 1 && !ExitSafe(EndingKernel(3).w, 1)
  {
    var w := EndingKernel(3).w;
    StackAddresses();
    assert InStack(w.table[1].kernelStack, 0) && !w.used[0];
  }

  lemma EndingStep(n: nat)
    requires n < 3 && KernelInv(EndingKernel(n))
    ensures KernelEnabled(EndingKernel(n), ENDING_RUN[n])
    ensures KernelStep(EndingKernel(n), ENDING_RUN[n]) == EndingKernel(n + 1)
  {
    hide Create, Destroy, Processes.Inv, NextSlot, Stale, StaleWorld;
    match n
    case 0 => StaleCreates(0, 1, 0);
    case 1 => EndingDispatch();
    case _ => EndingDestroy();
  }

  lemma EndingDispatch()
    requires KernelInv(EndingKernel(1))
    ensures KernelStep(EndingKernel(1), Schedules) == EndingKernel(2)
  {
    hide NextSlot;
    DispatchOne(StaleWorld(1));
  }

  lemma EndingDestroy()
    requires Processes.Inv(EndingKernel(2).w)
    ensures !Stale(EndingKernel(2).w, 1) && Destroy(EndingKernel(2).w, 1) == EndingKernel(3).w
    ensures EndingKernel(2).cur == EndingKernel(3).cur
  {
    var w, r := EndingKernel(2).w, EndingKernel(3).w;
    StackAddresses();
    LivePidIsNotStale(w, 1);
    assert SlotOfPid(w.table, 1, 1) == 1;
    assert FreeStack(w.used, w.table[1].kernelStack) == r.used;
  }

  lemma {:induction false} EndingRunFrom(n: nat)
    requires n <= 3 && KernelInv(EndingKernel(n))
    ensures KernelRunAllowed(EndingKernel(n), ENDING_RUN[n..])
    ensures KernelRun(EndingKernel(n), ENDING_RUN[n..]) == EndingKernel(3)
    decreases 3 - n
  {
    hide EndingKernel, KernelInv, KernelStep, KernelEnabled;
    if n < 3 {
      var k, es := EndingKernel(n), ENDING_RUN[n..];
      EndingStep(n);
      KernelStepKeeps(k, es[0]);
      EndingRunFrom(n + 1);
      assert es[0] == ENDING_RUN[n] && es[1..] == ENDING_RUN[n + 1..];
    }
  }

  class ProcessTable {
    const pages: PageAllocator
    const mmu: PageTables
    const table: array<Process>
    var nextPid: u32
    var current: Option<nat>
    var currentIndex: nat

    ghost predicate Shape()
      reads this, pages, pages.bitmap
    {
      && table.Length == MAX_PROCESSES && mmu.pages == pages && pages.Valid()
      && currentIndex < MAX_PROCESSES && (current == None || current == Some(currentIndex))
    }

    ghost function World(): (w: World)
      requires Shape()
      reads this, table, pages, pages.bitmap
    {
      Processes.World.World(table[..], pages.Used(), nextPid)
    }

    ghost predicate Valid()
      reads this, table, mmu, mmu.pages, mmu.pages.bitmap, mmu.pages.ram, pages, pages.bitmap
    {
      Shape() && mmu.Valid() && Consistent(World(), mmu.Tables(), currentIndex)
    }

    constructor (pages: PageAllocator, mmu: PageTables)
      requires mmu.pages == pages && mmu.Valid()
      ensures this.pages == pages && this.mmu == mmu && fresh(table)
      ensures Shape() && current == None && currentIndex == 0 && nextPid == 1
      ensures forall i :: 0 <= i < MAX_PROCESSES ==> table[i].kernelStack == 0 && table[i].pageTable == 0
    {
      this.pages := pages;
      this.mmu := mmu;
      table := new Process[MAX_PROCESSES](_ => Process(0, Unused, "", 0, 0, 0, 0, 0, 0, 0, 0));
      nextPid, current, currentIndex := 1, None, 0;
    }

    /** Process_::init, on the table as it is at boot. */
    method Init()
      requires Shape() && mmu.Valid() && currentIndex == 0
      requires forall i :: 0 <= i < MAX_PROCESSES ==> table[i].kernelStack == 0 && table[i].pageTable == 0
      modifies this, table
      ensures Valid() && current == Some(0) && currentIndex == 0 && nextPid == old(nextPid)
      ensures table[0].state == Running && forall i :: 1 <= i < MAX_PROCESSES ==> table[i].state == Unused
    {
      hide PT.Inv, Held;
      for i := 0 to MAX_PROCESSES
        invariant currentIndex == 0 && nextPid == old(nextPid) && current == old(current)
        invariant forall k :: 0 <= k < MAX_PROCESSES ==> table[k].kernelStack == 0 && table[k].pageTable == 0
        invariant forall k :: 0 <= k < i ==> table[k].state == Unused && table[k].pid == 0
      {
        table[i] := table[i].(state := Unused, pid := 0);
      }
      table[0] := table[0].(pid := 0, state := Running, name := "idle", kernelStack := 0);
      current := Some(0);
      NoStacks(table[..]);
    }

    method AllocStack() returns (addr: nat)
      requires mmu.pages == pages && mmu.Valid()
      modifies pages, pages.bitmap, pages.ram
      ensures mmu.Valid() && StackAllocated(old(mmu.Tables()), mmu.Tables(), addr)
    {
      ghost var s, ram := mmu.Tables(), pages.ram[..];
      addr := pages.AllocPages(STACK_PAGES);
      if addr == 0 {
        NoRun(s.used);
      } else {
        StackTakenEffect(s, mmu.Tables(), ram, PageOf(addr));
      }
    }

    method FreeStackPages(stack: nat)
      requires pages.Valid() && InRange(stack, pages.totalPages)
      modifies pages, pages.bitmap
      ensures pages.Valid() && pages.Used() == FreeStack(old(pages.Used()), stack)
    {
      ghost var before := pages.Used();
      for j := 0 to STACK_PAGES
        invariant pages.Valid() && pages.Used() == Filled(before, PageOf(stack), j, false)
      {
        StackPage(stack, j, pages.totalPages);
        pages.FreePage(stack + j * PAGE_SIZE);
      }
    }

    method FindFreeSlot() returns (slot: nat)
      requires table.Length == MAX_PROCESSES
      ensures slot == FreeSlot(table[..], 1)
    {
      slot := 1;
      while slot < MAX_PROCESSES && table[slot].state != Unused
        invariant 1 <= slot <= MAX_PROCESSES && FreeSlot(table[..], 1) == FreeSlot(table[..], slot)
      {
        slot := slot + 1;
      }
    }

    /** create(): the lowest free slot gets the lowest free run of stack pages. */
    method CreateThread(name: string, entry: nat, wrapper: nat) returns (slot: Option<nat>)
      requires Valid()
      modifies this, table, pages, pages.bitmap, pages.ram
      ensures Valid() && World() == Create(old(World()), name, entry, wrapper)
      ensures slot.None? <==> World() == old(World())
      ensures current == old(current) && currentIndex == old(currentIndex)
      ensures slot.Some? ==>
        slot.value < MAX_PROCESSES && old(table[slot.value]).state == Unused && table[slot.value].state == Ready
    {
      hide PT.Inv, Consistent, FreeSlot, Thread;
      ghost var w, s := World(), mmu.Tables();
      var free := FindFreeSlot();
      if free == MAX_PROCESSES { return None; }
      var stack := AllocStack();
      if stack == 0 { return None; }
      CreateConsistent(w, s, mmu.Tables(), currentIndex, name, entry, wrapper, stack);
      table[free] := Thread(nextPid, name, stack, entry, wrapper);
      nextPid := NextPid(nextPid);
      assert table[..] == w.table[free := table[free]];
      slot := Some(free);
    }

    /** A slot gives up its stack and is cleared. */
    method ClearSlot(i: nat, proc: Process)
      requires Valid() && 1 <= i < MAX_PROCESSES && table[i].state != Unused
      requires proc.state == Unused && proc.pid == 0 && proc.pageTable == table[i].pageTable
      requires (proc.kernelStack == 0 || proc.kernelStack == table[i].kernelStack)
      modifies table, pages, pages.bitmap
      ensures Valid()
      ensures World() == Removed(old(World()), i, proc)
    {
      hide PT.Inv, Held;
      ghost var w, s := World(), mmu.Tables();
      RemoveConsistent(w, s, currentIndex, i, proc);
      if table[i].kernelStack != 0 {
        FreeStackPages(table[i].kernelStack);
      }
      table[i] := proc;
      assert table[..] == w.table[i := proc];
    }

    /** destroy(): keeps the whole invariant exactly if it does not free pages of a stale stack that are needed. */
    method DestroyPid(pid: u32)
      requires Valid()
      modifies table, pages, pages.bitmap
      ensures Shape() && World() == Destroy(old(World()), pid)
      ensures Valid() <==> !StaleHurts(old(World()), old(mmu.Tables()), pid)
    {
      hide PT.Inv, Held, FreeStack, Consistent, Needed;
      ghost var w, s := World(), mmu.Tables();
      var i := 1;
      while i < MAX_PROCESSES && table[i].pid != pid
        invariant 1 <= i <= MAX_PROCESSES && SlotOfPid(w.table, pid, 1) == SlotOfPid(w.table, pid, i)
      {
        i := i + 1;
      }
      if i == MAX_PROCESSES { return; }
      if table[i].state != Unused {
        ClearSlot(i, Cleared(table[i]));
      } else {
        StaleOutcome(w, s, currentIndex, i);
        if table[i].kernelStack != 0 {
          FreeStackPages(table[i].kernelStack);
        }
        table[i] := Cleared(table[i]);
        assert table[..] == w.table;
      }
    }

    method ReapZombies()
      requires Valid()
      modifies table, pages, pages.bitmap
      ensures Valid() && World() == ReapFrom(old(World()), 1)
    {
      hide PT.Inv, Held, FreeStack;
      ghost var w := World();
      var i := 1;
      while i < MAX_PROCESSES
        invariant 1 <= i <= MAX_PROCESSES && Valid() && ReapFrom(w, 1) == ReapFrom(World(), i)
      {
        ReapSlotKeeps(World(), i);
        if table[i].state == Zombie {
          ClearSlot(i, Cleared(table[i]).(kernelStack := 0));
        }
        i := i + 1;
      }
    }

    /** get(): the first live slot with the pid. */
    method Get(pid: u32) returns (slot: Option<nat>)
      requires table.Length == MAX_PROCESSES
      ensures slot.None? <==> forall i :: 0 <= i < MAX_PROCESSES ==> !(table[i].pid == pid && table[i].state != Unused)
      ensures slot.Some? ==>
        slot.value < MAX_PROCESSES && table[slot.value].pid == pid && table[slot.value].state != Unused
      ensures slot.Some? ==> forall i :: 0 <= i < slot.value ==> !(table[i].pid == pid && table[i].state != Unused)
    {
      for i := 0 to MAX_PROCESSES
        invariant forall k :: 0 <= k < i ==> !(table[k].pid == pid && table[k].state != Unused)
      {
        if table[i].pid == pid && table[i].state != Unused { return Some(i); }
      }
      return None;
    }

    /** The do-while search for the next ready slot. */
    method FindNext(start: nat) returns (next: nat)
      requires table.Length == MAX_PROCESSES && start < MAX_PROCESSES
      ensures next == NextSlot(table[..], start)
    {
      hide Ahead;
      ghost var states, d := StatesOf(table[..]), 1;
      AheadSteps(start, 1);
      next := Ahead(start, 1);
      while table[next].state != Ready && next != start
        invariant 1 <= d <= MAX_PROCESSES && next == Ahead(start, d) && (next == start <==> d == MAX_PROCESSES)
        invariant FirstReady(states, start, 1) == FirstReady(states, start, d)
        decreases MAX_PROCESSES - d
      {
        AheadSteps(start, d);
        AheadSteps(start, d + 1);
        next := Ahead(next, 1);
        d := d + 1;
      }
    }

    /** schedule(), up to the context switch; the result is the page table to switch to, if any. */
    method Schedule() returns (ttbr: Option<nat>)
      requires Valid()
      modifies this`current, this`currentIndex, table
      ensures Valid() && (current.Some? <==> old(current).Some?)
      ensures old(current).None? ==> World() == old(World()) && currentIndex == old(currentIndex) && ttbr.None?
      ensures old(current).Some? ==> Dispatched(old(table[..]), table[..], old(currentIndex), currentIndex, ttbr)
      ensures ttbr.Some? ==> ttbr.value >= MEMORY_BASE && PT.IsUser(mmu.Tables(), PageOf(ttbr.value))
    {
      hide PT.Inv, Held, Processes.Inv, OnlyCurrentRuns, FirstReady, Dispatched, NextSlot;
      ghost var w, s := World(), mmu.Tables();
      if current.None? { return None; }
      var cur := current.value;
      if table[cur].state == Running {
        table[cur] := table[cur].(state := Ready);
      }
      assert table[..] == MarkedTable(w.table, cur);
      var next := FindNext(currentIndex);
      if table[next].state != Ready {
        StayOutcome(w, cur);
        return None;
      }
      SwitchOutcome(w, cur);
      current := Some(next);
      table[next] := table[next].(state := Running);
      currentIndex := next;
      assert table[..] == RunningTable(MarkedTable(w.table, cur), next);
      ttbr := SwitchTable(table[cur], table[next]);
    }

    /** Maps the four pages of the user stack below USER_STACK_BASE. */
    method MapUserStack(pgd: nat, stack: nat)
      requires mmu.pages == pages && mmu.Valid() && pgd >= MEMORY_BASE && PT.IsUser(mmu.Tables(), PageOf(pgd))
      requires InRange(stack, pages.totalPages)
      modifies mmu, pages, pages.bitmap, pages.ram
      ensures mmu.Valid() && PT.Extends(old(mmu.Tables()), mmu.Tables()) && PT.IsUser(mmu.Tables(), PageOf(pgd))
      ensures PageOf(pgd) < pages.totalPages
      ensures StackSeen(old(mmu.Tables()), mmu.Tables(), PageOf(pgd), stack, STACK_PAGES)
      ensures PT.WalksKept(old(mmu.Tables()), mmu.Tables(), PageOf(pgd), STACK_VPNS)
    {
      hide PT.Inv, StackSoFar, PT.MapPage, PT.IsUser, PT.MapEffect, Descriptor, PT.Extends, PT.WalksKept;
      ghost var s, u := mmu.Tables(), PageOf(pgd);
      MapNothing(s, u, stack);
      for j := 0 to STACK_PAGES
        invariant mmu.Valid() && StackSoFar(s, mmu.Tables(), u, stack, j)
      {
        ghost var r := mmu.Tables();
        StackMapStep(s, r, u, stack, j);
        mmu.MapUserPage(pgd, USER_STACK_BASE - USER_STACK_SIZE + j * PAGE_SIZE, stack + j * PAGE_SIZE, PTE_USER_RWX);
      }
      MapAll(s, mmu.Tables(), u, stack);
    }

    method AllocBoth() returns (kstack: nat, ustack: nat)
      requires mmu.pages == pages && mmu.Valid()
      modifies pages, pages.bitmap, pages.ram
      ensures mmu.Valid() && BothAllocated(old(mmu.Tables()), mmu.Tables(), kstack, ustack)
    {
      hide PT.Inv, FreeRun;
      ghost var s := mmu.Tables();
      ustack := 0;
      kstack := AllocStack();
      if kstack == 0 { return; }
      ghost var s1 := mmu.Tables();
      ustack := AllocStack();
      if ustack == 0 {
        SecondFails(s, s1, kstack);
        pages.FreePage(kstack);
      } else {
        BothSucceed(s, s1, mmu.Tables(), kstack, ustack);
      }
    }

    /** create_user(): two stacks, the second mapped below USER_STACK_BASE of the given table. */
    method CreateUserProcess(name: string, entry: nat,
                             pgd: nat) returns (slot: Option<nat>, ghost tables: seq<bool>, ghost userStack: nat)
      requires Valid() && pgd >= MEMORY_BASE && PT.IsUser(mmu.Tables(), PageOf(pgd))
      modifies this, table, mmu, pages, pages.bitmap, pages.ram
      ensures Valid() && World() == CreateUser(old(World()), name, entry, pgd, tables)
      ensures UserResult(old(World()), old(mmu.Tables()), mmu.Tables(), PageOf(pgd), slot, userStack)
      ensures StackOnly(old(mmu.Tables()), mmu.Tables(), PageOf(pgd))
      ensures UserStarted(old(World()), World(), slot, name, entry, pgd)
      ensures current == old(current) && currentIndex == old(currentIndex)
    {
      hide StackOnly, UserStarted, PT.WalksKept;
      hide PT.Inv, Consistent, StackSeen, UserStackSeen, PT.Extends, BothAllocated, FreeSlot, User, UserRun;
      hide CreateUser;
      ghost var w, s := World(), mmu.Tables();
      slot, tables, userStack := None, [], 0;
      var free := FindFreeSlot();
      if free == MAX_PROCESSES {
        NoUserSlot(w, name, entry, pgd);
        NothingMapped(s, PageOf(pgd));
        NobodyStarted(w, w, name, entry, pgd);
        return;
      }
      var kstack, ustack := AllocBoth();
      ghost var s2 := mmu.Tables();
      if ustack == 0 {
        UserFails(w, s, s2, currentIndex, kstack, name, entry, pgd);
        BothKeep(s, s2, PageOf(pgd), kstack, 0);
        NobodyStarted(w, World(), name, entry, pgd);
        return;
      }
      UserStackIs(s, s2, kstack, ustack);
      MapUserStack(pgd, ustack);
      UserStackExact(s, s2, mmu.Tables(), PageOf(pgd), kstack, ustack);
      UserSucceeds(w, s, s2, mmu.Tables(), currentIndex, name, entry, pgd, kstack, ustack);
      BothKeep(s, s2, PageOf(pgd), kstack, ustack);
      StackOnlyOn(s, s2, mmu.Tables(), PageOf(pgd));
      table[free] := User(nextPid, name, kstack, entry, pgd);
      nextPid := NextPid(nextPid);
      assert table[..] == w.table[free := table[free]];
      slot, tables, userStack := Some(free), pages.Used(), ustack;
      UserStarts(w, s, s2, World(), name, entry, pgd, kstack, ustack);
    }

    /** A thread that returns, or a process that asks to end, becomes a zombie. */
    method Exit()
      requires Valid()
      modifies table
      ensures Shape() && World() == if current.None? then old(World()) else Exited(old(World()), currentIndex)
      ensures Valid() <==> current.None? || ExitHarmless(old(World()), old(mmu.Tables()), currentIndex)
    {
      hide PT.Inv, Held, Consistent, ExitHarmless;
      ghost var w := World();
      if current.Some? {
        ExitOutcome(w, mmu.Tables(), currentIndex);
        table[currentIndex] := table[currentIndex].(state := Zombie);
        assert table[..] == Exited(w, currentIndex).table;
      }
    }
  }
}
