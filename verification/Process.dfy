/**
  The process table of src/process/process.cpp and its kernel stacks, as values.

  A process holds four pages for its kernel stack.  `Others` is what the rest of the kernel uses; the operations on
  kernel threads never change it, so the pages of a stack come back exactly.
 */
module Processes {
  import opened Machine
  import opened Pages
  import opened Scheduler

  const STACK_PAGES: nat := 4
  const KERNEL_STACK_SIZE: nat := 16384
  const USER_STACK_SIZE: nat := 16384
  const USER_STACK_BASE: nat := 0x7F_FFFF_F000

  datatype Process = Process(
    pid: u32, state: ProcessState, name: string, kernelStack: nat, kernelStackTop: nat,
    pageTable: nat, userEntry: nat, userStack: nat, x19: nat, x30: nat, sp: nat)

  datatype World = World(table: seq<Process>, used: seq<bool>, nextPid: u32)

  function NextPid(pid: u32): (r: u32) { (pid + 1) % U32 }

  // ------------------------------------------------------------ stacks

  predicate InRange(stack: nat, pages: nat)
  {
    stack >= MEMORY_BASE && stack == PageAddress(PageOf(stack)) && PageOf(stack) + STACK_PAGES <= pages
  }

  predicate InStack(stack: nat, p: nat)
  {
    stack >= MEMORY_BASE && PageOf(stack) <= p < PageOf(stack) + STACK_PAGES
  }

  predicate Holds(proc: Process, p: nat) { proc.state != Unused && InStack(proc.kernelStack, p) }

  ghost predicate Held(table: seq<Process>, p: nat) { exists i :: 0 <= i < |table| && Holds(table[i], p) }

  /** The pages used by the rest of the kernel. */
  ghost function Others(w: World): (r: seq<bool>)
    ensures |r| == |w.used| && forall p :: 0 <= p < |r| ==> r[p] == (w.used[p] && !Held(w.table, p))
  {
    seq(|w.used|, p requires 0 <= p < |w.used| => w.used[p] && !Held(w.table, p))
  }

  predicate SlotOk(proc: Process, pages: nat)
  {
    (proc.kernelStack == 0 || InRange(proc.kernelStack, pages)) && (proc.state == Unused ==> proc.pid == 0)
  }

  /** Live stacks are in use and disjoint. */
  predicate Inv(w: World)
  {
    && |w.table| == MAX_PROCESSES && w.table[0].kernelStack == 0
    && (forall i :: 0 <= i < |w.table| ==> SlotOk(w.table[i], |w.used|))
    && (forall i, p :: 0 <= i < |w.table| && 0 <= p < |w.used| && Holds(w.table[i], p) ==> w.used[p])
    && (forall i, j, p :: 0 <= i < |w.table| && 0 <= j < |w.table| && 0 <= p < |w.used| ==>
          Holds(w.table[i], p) && Holds(w.table[j], p) ==> i == j)
  }

  // ------------------------------------------------------------ operations

  /** The first slot from i on that is unused. */
  function FreeSlot(table: seq<Process>, i: nat): (s: nat)
    requires i <= |table|
    ensures i <= s <= |table| && (s < |table| ==> table[s].state == Unused)
    ensures forall k :: i <= k < s ==> table[k].state != Unused
    decreases |table| - i
  {
    if i == |table| || table[i].state == Unused then i else FreeSlot(table, i + 1)
  }

  /** The first slot from i on with this pid. */
  function SlotOfPid(table: seq<Process>, pid: u32, i: nat): (s: nat)
    requires i <= |table|
    ensures i <= s <= |table| && (s < |table| ==> table[s].pid == pid)
    ensures forall k :: i <= k < s ==> table[k].pid != pid
    decreases |table| - i
  {
    if i == |table| || table[i].pid == pid then i else SlotOfPid(table, pid, i + 1)
  }

  /** A free run of pages is taken for a stack at this address. */
  ghost predicate StackTaken(used: seq<bool>, stack: nat, r: seq<bool>)
  {
    InRange(stack, |used|) && FreeRun(used, PageOf(stack), STACK_PAGES)
        && r == Filled(used, PageOf(stack), STACK_PAGES, true)
  }

  function FreeStack(used: seq<bool>, stack: nat): (r: seq<bool>)
    requires stack == 0 || InRange(stack, |used|)
    ensures |r| == |used|
    ensures forall p :: 0 <= p < |used| ==> r[p] == (used[p] && !InStack(stack, p))
  {
    if stack == 0 then used else Filled(used, PageOf(stack), STACK_PAGES, false)
  }

  function Cleared(proc: Process): (r: Process) { proc.(state := Unused, pid := 0) }

  /** A process put into a slot, with the stack it was given. */
  function Put(w: World, slot: nat, proc: Process, used: seq<bool>): (r: World)
    requires slot < |w.table|
  {
    World(w.table[slot := proc], used, NextPid(w.nextPid))
  }

  /** A slot given up together with its stack. */
  function Removed(w: World, slot: nat, proc: Process): (r: World)
    requires Inv(w) && slot < |w.table|
  {
    w.(table := w.table[slot := proc], used := FreeStack(w.used, w.table[slot].kernelStack))
  }

  function Destroy(w: World, pid: u32): (r: World)
    requires Inv(w)
  {
    var s := SlotOfPid(w.table, pid, 1);
    if s == |w.table| then w
    else Removed(w, s, Cleared(w.table[s]))
  }

  function ReapSlot(w: World, i: nat): (r: World)
    requires Inv(w) && i < |w.table|
  {
    var proc := w.table[i];
    if proc.state != Zombie then w
    else Removed(w, i, Cleared(proc).(kernelStack := 0))
  }

  // ------------------------------------------------------------ every operation keeps the stacks apart

  lemma PutKeeps(w: World, slot: nat, proc: Process, used: seq<bool>)
    requires Inv(w) && 1 <= slot < |w.table| && w.table[slot].state == Unused && proc.state == Ready
    requires StackTaken(w.used, proc.kernelStack, used)
    ensures Inv(Put(w, slot, proc, used)) && Others(Put(w, slot, proc, used)) == Others(w)
  {
    var r := Put(w, slot, proc, used);
    forall i, p | 0 <= i < |r.table| && 0 <= p < |r.used| && Holds(r.table[i], p) ensures r.used[p] {
      if i != slot { assert Holds(w.table[i], p); }
    }
    forall i, p | 0 <= i < |r.table| && 0 <= p < |r.used| && Holds(r.table[i], p) && Holds(proc, p) ensures i == slot {
      assert !w.used[p];
    }
    forall p | 0 <= p < |r.used| ensures Others(r)[p] == Others(w)[p] {
      PutHeld(w, slot, proc, p);
    }
  }

  lemma PutHeld(w: World, slot: nat, proc: Process, p: nat)
    requires slot < |w.table| && w.table[slot].state == Unused
    ensures Held(w.table[slot := proc], p) <==> Held(w.table, p) || Holds(proc, p)
  {
    var t := w.table[slot := proc];
    if i :| 0 <= i < |w.table| && Holds(w.table[i], p) { assert Holds(t[i], p); }
    if Holds(proc, p) { assert Holds(t[slot], p); }
  }

  /** A slot gives up its stack: the pages in it belong to nobody else. */
  lemma RemoveKeeps(w: World, slot: nat, proc: Process)
    requires Inv(w) && 1 <= slot < |w.table| && w.table[slot].state != Unused
    requires proc.state == Unused && proc.pid == 0
    requires (proc.kernelStack == 0 || proc.kernelStack == w.table[slot].kernelStack)
    ensures Inv(Removed(w, slot, proc)) && Others(Removed(w, slot, proc)) == Others(w)
  {
    var r := Removed(w, slot, proc);
    forall i, p | 0 <= i < |r.table| && 0 <= p < |r.used| && Holds(r.table[i], p) ensures r.used[p] {
      assert Holds(w.table[i], p);
      assert InStack(w.table[slot].kernelStack, p) == Holds(w.table[slot], p);
    }
    forall p | 0 <= p < |r.used| ensures Others(r)[p] == Others(w)[p] {
      RemoveHeld(w, slot, proc, p);
    }
  }

  lemma RemoveHeld(w: World, slot: nat, proc: Process, p: nat)
    requires Inv(w) && slot < |w.table| && proc.state == Unused && p < |w.used|
    ensures Held(w.table[slot := proc], p) <==> Held(w.table, p) && !Holds(w.table[slot], p)
  {
    var t := w.table[slot := proc];
    if i :| 0 <= i < |t| && Holds(t[i], p) { assert Holds(w.table[i], p); }
    if !Holds(w.table[slot], p) && Held(w.table, p) {
      var i :| 0 <= i < |w.table| && Holds(w.table[i], p);
      assert Holds(t[i], p);
    }
  }

  /** More pages in use elsewhere. */
  lemma GrowKeeps(w: World, used: seq<bool>)
    requires Inv(w) && |used| == |w.used| && forall p :: 0 <= p < |used| && Held(w.table, p) ==> used[p]
    ensures Inv(w.(used := used))
  {
    forall i, p | 0 <= i < |w.table| && 0 <= p < |used| && Holds(w.table[i], p) ensures used[p] {
      assert Held(w.table, p);
    }
  }

  /** The pid search of destroy found a slot that is not in use but still names a stack. */
  predicate Stale(w: World, pid: u32)
    requires |w.table| > 0
  {
    var s := SlotOfPid(w.table, pid, 1);
    s < |w.table| && w.table[s].state == Unused && w.table[s].kernelStack != 0
  }

  /** ... and a live process holds a page of it by now. */
  ghost predicate StaleHit(w: World, pid: u32)
    requires |w.table| > 0
  {
    Stale(w, pid) && var stack := w.table[SlotOfPid(w.table, pid, 1)].kernelStack;
    exists p :: 0 <= p < |w.used| && InStack(stack, p) && Held(w.table, p)
  }

  lemma LivePidIsNotStale(w: World, pid: u32)
    requires Inv(w) && pid != 0
    ensures !Stale(w, pid)
  {
  }

  /** destroy keeps the live stacks intact exactly when it does not hit a stale one. */
  lemma DestroyKeepsIff(w: World, pid: u32)
    requires Inv(w)
    ensures Inv(Destroy(w, pid)) <==> !StaleHit(w, pid)
    ensures !Stale(w, pid) ==> Others(Destroy(w, pid)) == Others(w)
  {
    var s := SlotOfPid(w.table, pid, 1);
    if s < |w.table| {
      if w.table[s].state != Unused {
        RemoveKeeps(w, s, Cleared(w.table[s]));
      } else {
        assert w.table[s := Cleared(w.table[s])] == w.table;
        DestroyUnused(w, s);
      }
    }
  }

  lemma DestroyUnused(w: World, s: nat)
    requires Inv(w) && 1 <= s < |w.table| && w.table[s].state == Unused
    ensures var r := w.(used := FreeStack(w.used, w.table[s].kernelStack));
      Inv(r) <==> !(exists p :: 0 <= p < |w.used| && InStack(w.table[s].kernelStack, p) && Held(w.table, p))
  {
    var stack := w.table[s].kernelStack;
    var r := w.(used := FreeStack(w.used, stack));
    if p :| 0 <= p < |w.used| && InStack(stack, p) && Held(w.table, p) {
      var i :| 0 <= i < |w.table| && Holds(w.table[i], p);
      assert !r.used[p] && Holds(r.table[i], p);
    } else {
      forall p | 0 <= p < |w.used| && Held(r.table, p) ensures r.used[p] {
        var i :| 0 <= i < |w.table| && Holds(w.table[i], p);
        assert w.used[p];
      }
      GrowKeeps(w, r.used);
    }
  }

  /** The process in this slot ends: it becomes a zombie, even if it was destroyed before. */
  function Exited(w: World, slot: nat): (r: World)
    requires slot < |w.table|
  {
    w.(table := w.table[slot := w.table[slot].(state := Zombie)])
  }

  /** The slot is live, or the stack it still names is in use and in no other slot's stack. */
  ghost predicate ExitSafe(w: World, slot: nat)
    requires slot < |w.table|
  {
    || w.table[slot].state != Unused
    || forall p :: 0 <= p < |w.used| && InStack(w.table[slot].kernelStack, p) ==> w.used[p] && !Held(w.table, p)
  }

  /** Exit keeps the live stacks intact exactly when it does not bring back a stack that is gone. */
  lemma ExitKeepsIff(w: World, slot: nat)
    requires Inv(w) && slot < |w.table|
    ensures Inv(Exited(w, slot)) <==> ExitSafe(w, slot)
    ensures w.table[slot].state != Unused ==> Others(Exited(w, slot)) == Others(w)
  {
    if w.table[slot].state != Unused {
      SwitchKeeps(w, slot, Zombie);
    } else {
      ExitUnused(w, slot);
    }
  }

  lemma ExitUnused(w: World, slot: nat)
    requires Inv(w) && slot < |w.table| && w.table[slot].state == Unused
    ensures Inv(Exited(w, slot)) <==> ExitSafe(w, slot)
  {
    var r, stack := Exited(w, slot), w.table[slot].kernelStack;
    forall p: nat | p < |w.used| ensures Holds(r.table[slot], p) == InStack(stack, p) {
    }
    if ExitSafe(w, slot) {
      forall i, p | 0 <= i < |r.table| && 0 <= p < |r.used| && Holds(r.table[i], p) ensures r.used[p] {
        if i != slot { assert Holds(w.table[i], p); }
      }
      forall i, p | 0 <= i < |r.table| && i != slot && 0 <= p < |r.used| && InStack(stack, p)
        ensures !Holds(r.table[i], p)
      {
        assert !Held(w.table, p);
      }
    } else {
      var p :| 0 <= p < |w.used| && InStack(stack, p) && !(w.used[p] && !Held(w.table, p));
      assert Holds(r.table[slot], p);
      if Held(w.table, p) {
        var i :| 0 <= i < |w.table| && Holds(w.table[i], p);
        assert i != slot && Holds(r.table[i], p);
      }
    }
  }

  lemma ReapSlotKeeps(w: World, i: nat)
    requires Inv(w) && 1 <= i < |w.table|
    ensures Inv(ReapSlot(w, i)) && Others(ReapSlot(w, i)) == Others(w)
  {
    if w.table[i].state == Zombie { RemoveKeeps(w, i, Cleared(w.table[i]).(kernelStack := 0)); }
  }

  /** reap_zombies from slot i on: zombies are cleared, everything else stays. */
  function ReapFrom(w: World, i: nat): (r: World)
    requires Inv(w) && 1 <= i <= |w.table|
    ensures |r.table| == |w.table| && |r.used| == |w.used| && r.nextPid == w.nextPid
    ensures forall k :: 0 <= k < |w.table| ==>
      r.table[k] == if i <= k && w.table[k].state == Zombie then Cleared(w.table[k]).(kernelStack := 0) else w.table[k]
    decreases |w.table| - i
  {
    if i == |w.table| then w else ReapSlotKeeps(w, i); ReapFrom(ReapSlot(w, i), i + 1)
  }

  lemma {:induction false} ReapKeeps(w: World, i: nat)
    requires Inv(w) && 1 <= i <= |w.table|
    ensures Inv(ReapFrom(w, i)) && Others(ReapFrom(w, i)) == Others(w)
    decreases |w.table| - i
  {
    if i < |w.table| {
      ReapSlotKeeps(w, i);
      ReapKeeps(ReapSlot(w, i), i + 1);
    }
  }

  // ------------------------------------------------------------ whole runs

  /** Where the lowest run of free stack pages from s on starts. */
  ghost function LowestRun(used: seq<bool>, s: nat): (r: Option<nat>)
    ensures r.Some? ==> s <= r.value && FreeRun(used, r.value, STACK_PAGES)
    ensures r.Some? ==> forall t: nat :: s <= t < r.value ==> !FreeRun(used, t, STACK_PAGES)
    ensures r.None? ==> forall t: nat :: s <= t ==> !FreeRun(used, t, STACK_PAGES)
    decreases |used| - s
  {
    if s + STACK_PAGES > |used| then None
    else if FreeRun(used, s, STACK_PAGES) then Some(s)
    else LowestRun(used, s + 1)
  }

  /** What create and create_user write into the slot. */
  function Thread(pid: u32, name: string, stack: nat, entry: nat, wrapper: nat): (p: Process)
  {
    Process(pid, Ready, name, stack, stack + KERNEL_STACK_SIZE, 0, 0, 0, entry, wrapper, stack + KERNEL_STACK_SIZE)
  }

  function User(pid: u32, name: string, stack: nat, entry: nat, pageTable: nat): (p: Process)
  {
    Process(pid, Ready, name, stack, stack + KERNEL_STACK_SIZE, pageTable, entry, USER_STACK_BASE, 0, 0,
        stack + KERNEL_STACK_SIZE)
  }

  ghost function Create(w: World, name: string, entry: nat, wrapper: nat): (r: World)
    requires |w.table| > 0
  {
    var slot, k := FreeSlot(w.table, 1), LowestRun(w.used, 0);
    if slot == |w.table| || k.None? then w
    else
      var proc := Thread(w.nextPid, name, PageAddress(k.value), entry, wrapper);
      Put(w, slot, proc, Filled(w.used, k.value, STACK_PAGES, true))
  }

  function Union(a: seq<bool>, b: seq<bool>): (r: seq<bool>)
    ensures |r| == |a| && forall p :: 0 <= p < |r| ==> r[p] == (a[p] || (p < |b| && b[p]))
  {
    seq(|a|, p requires 0 <= p < |a| => a[p] || (p < |b| && b[p]))
  }

  /** create_user; `tables` are the pages that mapping the user stack takes for page tables. */
  ghost function CreateUser(w: World, name: string, entry: nat, pageTable: nat, tables: seq<bool>): (r: World)
    requires |w.table| > 0
  {
    var slot, k := FreeSlot(w.table, 1), LowestRun(w.used, 0);
    if slot == |w.table| || k.None? then w
    else
      var used1 := Filled(w.used, k.value, STACK_PAGES, true);
      var u := LowestRun(used1, 0);
      if u.None? then w.(used := used1[k.value := false])
      else
        var used2 := Filled(used1, u.value, STACK_PAGES, true);
        Put(w, slot, User(w.nextPid, name, PageAddress(k.value), entry, pageTable), Union(used2, tables))
  }

  datatype Event =
    | Creates(name: string, entry: nat, wrapper: nat)
    | CreatesUser(name: string, entry: nat, pageTable: nat, tables: seq<bool>)
    | Destroys(pid: u32)
    | Switches(slot: nat, state: ProcessState)   // scheduling and blocking
    | Exits(slot: nat)                           // the process ends itself, destroyed or not
    | Reaps
    | Elsewhere(used: seq<bool>)                 // the rest of the kernel takes and frees pages of its own

  ghost predicate Enabled(w: World, e: Event)
    requires |w.table| > 0
  {
    match e
    case Destroys(pid) => !StaleHit(w, pid)
    case Switches(slot, state) => slot < |w.table| && w.table[slot].state != Unused && state != Unused
    case Exits(slot) => slot < |w.table| && ExitSafe(w, slot)
    case Elsewhere(used) => |used| == |w.used| && forall p :: 0 <= p < |used| && Held(w.table, p) ==> used[p]
    case _ => true
  }

  ghost function Step(w: World, e: Event): (r: World)
    requires Inv(w) && Enabled(w, e)
  {
    match e
    case Creates(name, entry, wrapper) => Create(w, name, entry, wrapper)
    case CreatesUser(name, entry, pageTable, tables) => CreateUser(w, name, entry, pageTable, tables)
    case Destroys(pid) => Destroy(w, pid)
    case Switches(slot, state) => w.(table := w.table[slot := w.table[slot].(state := state)])
    case Exits(slot) => Exited(w, slot)
    case Reaps => ReapFrom(w, 1)
    case Elsewhere(used) => w.(used := used)
  }

  /** The operations on kernel threads alone. */
  predicate ThreadOnly(w: World, e: Event)
    requires |w.table| > 0
  {
    match e
    case Creates(_, _, _) => true
    case Switches(_, _) => true
    case Exits(slot) => slot < |w.table| && w.table[slot].state != Unused
    case Reaps => true
    case Destroys(pid) => !Stale(w, pid)
    case _ => false
  }

  lemma AddressInRange(k: nat, pages: nat)
    requires k + STACK_PAGES <= pages
    ensures PageOf(PageAddress(k)) == k && InRange(PageAddress(k), pages)
  {
  }

  lemma CreateKeeps(w: World, name: string, entry: nat, wrapper: nat)
    requires Inv(w)
    ensures var r := Create(w, name, entry, wrapper); Inv(r) && Others(r) == Others(w)
  {
    hide Others;
    var slot, k := FreeSlot(w.table, 1), LowestRun(w.used, 0);
    if slot < |w.table| && k.Some? {
      AddressInRange(k.value, |w.used|);
      var used := Filled(w.used, k.value, STACK_PAGES, true);
      PutKeeps(w, slot, Thread(w.nextPid, name, PageAddress(k.value), entry, wrapper), used);
    }
  }

  lemma CreateUserKeeps(w: World, name: string, entry: nat, pageTable: nat, tables: seq<bool>)
    requires Inv(w)
    ensures Inv(CreateUser(w, name, entry, pageTable, tables))
  {
    var slot, k := FreeSlot(w.table, 1), LowestRun(w.used, 0);
    if slot < |w.table| && k.Some? {
      AddressInRange(k.value, |w.used|);
      var used1 := Filled(w.used, k.value, STACK_PAGES, true);
      var u := LowestRun(used1, 0);
      if u.None? {
        FailedUserKeeps(w, k.value);
      } else {
        var proc := User(w.nextPid, name, PageAddress(k.value), entry, pageTable);
        PutKeeps(w, slot, proc, used1);
        PutGrown(w, slot, proc, used1, Union(Filled(used1, u.value, STACK_PAGES, true), tables));
      }
    }
  }

  lemma PutGrown(w: World, slot: nat, proc: Process, used: seq<bool>, grown: seq<bool>)
    requires slot < |w.table| && Inv(Put(w, slot, proc, used)) && |grown| == |used|
    requires forall p :: 0 <= p < |used| && used[p] ==> grown[p]
    ensures Inv(Put(w, slot, proc, grown))
  {
    var r := Put(w, slot, proc, used);
    GrowKeeps(r, grown);
  }

  /** The failure path gives back one page of four; the live stacks are not touched. */
  lemma FailedUserKeeps(w: World, k: nat)
    requires Inv(w) && FreeRun(w.used, k, STACK_PAGES)
    ensures Inv(w.(used := Filled(w.used, k, STACK_PAGES, true)[k := false]))
  {
    var used := Filled(w.used, k, STACK_PAGES, true)[k := false];
    forall p | 0 <= p < |used| && Held(w.table, p) ensures used[p] {
      var i :| 0 <= i < |w.table| && Holds(w.table[i], p);
      assert w.used[p];
    }
    GrowKeeps(w, used);
  }

  lemma SwitchKeeps(w: World, slot: nat, state: ProcessState)
    requires Inv(w) && slot < |w.table| && w.table[slot].state != Unused && state != Unused
    ensures var r := w.(table := w.table[slot := w.table[slot].(state := state)]); Inv(r) && Others(r) == Others(w)
  {
    var r := w.(table := w.table[slot := w.table[slot].(state := state)]);
    SameHolders(w.table, r.table);
    assert Others(r) == Others(w);
  }

  predicate SameHolder(a: Process, b: Process)
  {
    if a.state == Unused then b.state == Unused else b.state != Unused && b.kernelStack == a.kernelStack
  }

  lemma SameHolders(a: seq<Process>, b: seq<Process>)
    requires |a| == |b| && forall i :: 0 <= i < |a| ==> SameHolder(a[i], b[i])
    ensures forall i, p: nat :: 0 <= i < |a| ==> (Holds(a[i], p) <==> Holds(b[i], p))
    ensures forall p: nat :: Held(a, p) <==> Held(b, p)
  {
    forall p: nat ensures Held(a, p) <==> Held(b, p) {
      if i :| 0 <= i < |a| && Holds(a[i], p) { assert Holds(b[i], p); }
      if i :| 0 <= i < |b| && Holds(b[i], p) { assert Holds(a[i], p); }
    }
  }

  /** Every step keeps the live stacks apart and in use; those on kernel threads leave the other pages alone. */
  lemma StepKeeps(w: World, e: Event)
    requires Inv(w) && Enabled(w, e)
    ensures Inv(Step(w, e)) && (ThreadOnly(w, e) ==> Others(Step(w, e)) == Others(w))
  {
    hide Others, Create, CreateUser, Held, SlotOfPid, ExitSafe;
    match e
    case Creates(name, entry, wrapper) => CreateKeeps(w, name, entry, wrapper);
    case CreatesUser(name, entry, pageTable, tables) => CreateUserKeeps(w, name, entry, pageTable, tables);
    case Destroys(pid) => DestroyKeepsIff(w, pid);
    case Switches(slot, state) => SwitchKeeps(w, slot, state);
    case Exits(slot) => ExitKeepsIff(w, slot);
    case Reaps => ReapKeeps(w, 1);
    case Elsewhere(used) => GrowKeeps(w, used);
  }

  ghost predicate RunAllowed(w: World, es: seq<Event>)
    requires Inv(w)
    decreases |es|
  {
    es == [] || (Enabled(w, es[0]) && (StepKeeps(w, es[0]); RunAllowed(Step(w, es[0]), es[1..])))
  }

  ghost function Execute(w: World, es: seq<Event>): (r: World)
    requires Inv(w) && RunAllowed(w, es)
    decreases |es|
  {
    if es == [] then w else StepKeeps(w, es[0]); Execute(Step(w, es[0]), es[1..])
  }

  /** Live stacks stay disjoint and in use over every run. */
  lemma {:induction false} RunKeepsStacks(w: World, es: seq<Event>)
    requires Inv(w) && RunAllowed(w, es)
    ensures Inv(Execute(w, es))
    decreases |es|
  {
    hide Inv, Step, Enabled;
    if es != [] {
      StepKeeps(w, es[0]);
      RunKeepsStacks(Step(w, es[0]), es[1..]);
    }
  }

  ghost predicate ThreadRun(w: World, es: seq<Event>)
    requires Inv(w) && RunAllowed(w, es)
    decreases |es|
  {
    es == [] || (StepKeeps(w, es[0]); ThreadOnly(w, es[0]) && ThreadRun(Step(w, es[0]), es[1..]))
  }

  lemma {:induction false} ThreadsKeepOthers(w: World, es: seq<Event>)
    requires Inv(w) && RunAllowed(w, es) && ThreadRun(w, es)
    ensures Others(Execute(w, es)) == Others(w)
    decreases |es|
  {
    hide Others, Step, Held;
    if es != [] {
      StepKeeps(w, es[0]);
      ThreadsKeepOthers(Step(w, es[0]), es[1..]);
    }
  }

  /** The bitmap is the other pages and the live stacks. */
  lemma UsedIsOthersAndStacks(w: World, p: nat)
    requires Inv(w) && p < |w.used|
    ensures w.used[p] <==> Others(w)[p] || Held(w.table, p)
  {
  }

  /** Kernel threads may come and go in any order: when the same stacks are live again, the bitmap is the same again. */
  lemma ThreadsRestoreBitmap(w: World, es: seq<Event>)
    requires Inv(w) && RunAllowed(w, es) && ThreadRun(w, es)
    requires forall p: nat :: Held(w.table, p) <==> Held(Execute(w, es).table, p)
    ensures Execute(w, es).used == w.used
  {
    hide Held, Execute;
    RunKeepsStacks(w, es);
    ThreadsKeepOthers(w, es);
    RestoredBitmap(w, Execute(w, es));
  }

  /** Create, exit and reap one kernel thread while other processes live on: the bitmap is as before. */
  lemma CreateExitReap(w: World, name: string, entry: nat, wrapper: nat)
    requires Inv(w) && (forall i :: 0 <= i < |w.table| ==> w.table[i].state != Zombie)
    requires FreeSlot(w.table, 1) < |w.table| && LowestRun(w.used, 0).Some?
    ensures var slot, w1 := FreeSlot(w.table, 1), Create(w, name, entry, wrapper);
      && slot < |w1.table| && Inv(Exited(w1, slot))
      && var r := ReapFrom(Exited(w1, slot), 1);
      && r.used == w.used && r.table[slot].state == Unused
      && (forall i :: 0 <= i < |w.table| && i != slot ==> r.table[i] == w.table[i])
  {
    hide Others, LowestRun, Held;
    var slot, w1 := FreeSlot(w.table, 1), Create(w, name, entry, wrapper);
    CreateKeeps(w, name, entry, wrapper);
    SwitchKeeps(w1, slot, Zombie);
    var w2 := Exited(w1, slot);
    ReapKeeps(w2, 1);
    var r := ReapFrom(w2, 1);
    SameHolders(w.table, r.table);
    RestoredBitmap(w, r);
  }

  lemma RestoredBitmap(w: World, r: World)
    requires Inv(w) && Inv(r) && Others(w) == Others(r) && forall p: nat :: Held(w.table, p) <==> Held(r.table, p)
    ensures r.used == w.used
  {
    assert |Others(w)| == |w.used| && |Others(r)| == |r.used|;
    forall p: nat | p < |w.used| ensures r.used[p] == w.used[p] {
      UsedIsOthersAndStacks(w, p);
      UsedIsOthersAndStacks(r, p);
    }
  }

  /** A new thread starts at the top of four pages that were nobody's. */
  lemma CreateStarts(w: World, name: string, entry: nat, wrapper: nat)
    requires Inv(w) && FreeSlot(w.table, 1) < |w.table| && LowestRun(w.used, 0).Some?
    ensures var slot, r := FreeSlot(w.table, 1), Create(w, name, entry, wrapper);
      && slot < |r.table| && var p := r.table[slot];
      && p.pid == w.nextPid && p.state == Ready && p.name == name && p.x19 == entry && p.x30 == wrapper
      && p.pageTable == 0 && p.userEntry == 0 && p.userStack == 0 && p.kernelStackTop == p.kernelStack + 16384
      && InRange(p.kernelStack, |w.used|)
      && p.sp == p.kernelStackTop == PageAddress(PageOf(p.kernelStack) + STACK_PAGES)
      && forall q :: 0 <= q < |w.used| && InStack(p.kernelStack, q) ==> !w.used[q] && r.used[q]
  {
    AddressInRange(LowestRun(w.used, 0).value, |w.used|);
  }

  // ------------------------------------------------------------ pids

  predicate LiveSlot(w: World, i: nat) { 1 <= i < |w.table| && w.table[i].state != Unused }

  /** Before next_pid wraps, live processes have pids of their own, or the 0 that destroy leaves. */
  ghost predicate PidsOk(w: World)
  {
    && w.nextPid > 0
    && (forall i: nat :: LiveSlot(w, i) ==> w.table[i].pid < w.nextPid)
    && (forall i: nat, j: nat :: LiveSlot(w, i) && LiveSlot(w, j) && w.table[i].pid == w.table[j].pid != 0 ==> i == j)
  }

  ghost predicate AllNamed(w: World) { forall i: nat :: LiveSlot(w, i) ==> w.table[i].pid != 0 }

  /** Slots that live on keep their pids; a new one gets the next. */
  predicate PidStep(w: World, r: World)
  {
    && |r.table| == |w.table| && w.nextPid <= r.nextPid
    && ((forall i :: 1 <= i < |r.table| ==> PidKept(w.table[i], r.table[i]))
        || (exists s :: 1 <= s < |r.table| && PidAdded(w, r, s)))
  }

  predicate PidKept(p: Process, q: Process)
  {
    q.state == Unused || (q.pid == p.pid && (p.state != Unused || q.pid == 0))
  }

  /** A destroyed process ends. */
  predicate Revives(w: World, e: Event) { e.Exits? && e.slot < |w.table| && w.table[e.slot].state == Unused }

  predicate PidAdded(w: World, r: World, s: nat)
    requires |r.table| == |w.table|
  {
    && s < |w.table| && r.table == w.table[s := r.table[s]] && r.table[s].pid == w.nextPid < r.nextPid
  }

  lemma PidStepKeeps(w: World, r: World)
    requires PidsOk(w) && PidStep(w, r)
    ensures PidsOk(r)
  {
    forall i: nat | LiveSlot(r, i) ensures r.table[i].pid < r.nextPid {
      assert LiveSlot(w, i) || r.table[i].pid == w.nextPid || r.table[i].pid == 0;
    }
    forall i: nat, j: nat | LiveSlot(r, i) && LiveSlot(r, j) && r.table[i].pid == r.table[j].pid != 0 ensures i == j {
      assert LiveSlot(w, i) || r.table[i].pid == w.nextPid;
      assert LiveSlot(w, j) || r.table[j].pid == w.nextPid;
    }
  }

  lemma StepIsPidStep(w: World, e: Event)
    requires Inv(w) && Enabled(w, e) && w.nextPid < U32 - 1
    ensures PidStep(w, Step(w, e)) && Step(w, e).nextPid <= w.nextPid + 1
    ensures !Revives(w, e) ==> forall i: nat :: LiveSlot(Step(w, e), i) ==>
      (LiveSlot(w, i) && Step(w, e).table[i].pid == w.table[i].pid) || Step(w, e).table[i].pid == w.nextPid
  {
    hide LowestRun, Held, FreeStack, StaleHit, InRange, InStack, ExitSafe;
    var r, s := Step(w, e), FreeSlot(w.table, 1);
    if (e.Creates? || e.CreatesUser?) && r.nextPid != w.nextPid {
      assert PidAdded(w, r, s);
    } else {
      assert forall i :: 1 <= i < |r.table| ==> PidKept(w.table[i], r.table[i]);
    }
  }

  lemma StepKeepsPids(w: World, e: Event)
    requires Inv(w) && Enabled(w, e) && PidsOk(w) && w.nextPid < U32 - 1
    ensures PidsOk(Step(w, e)) && w.nextPid <= Step(w, e).nextPid <= w.nextPid + 1
    ensures AllNamed(w) && !Revives(w, e) ==> AllNamed(Step(w, e))
  {
    hide Step, Enabled, Inv;
    StepIsPidStep(w, e);
    PidStepKeeps(w, Step(w, e));
  }

  ghost predicate NobodyRevived(w: World, es: seq<Event>)
    requires Inv(w) && RunAllowed(w, es)
    decreases |es|
  {
    es == [] || (StepKeeps(w, es[0]); !Revives(w, es[0]) && NobodyRevived(Step(w, es[0]), es[1..]))
  }

  /** Pids stay distinct; they stay non-zero too unless a destroyed process ends. */
  lemma {:induction false} RunKeepsPids(w: World, es: seq<Event>)
    requires Inv(w) && RunAllowed(w, es) && PidsOk(w) && w.nextPid + |es| < U32
    ensures PidsOk(Execute(w, es))
    ensures AllNamed(w) && NobodyRevived(w, es) ==> AllNamed(Execute(w, es))
    decreases |es|
  {
    hide Inv, Step, Enabled, PidsOk, AllNamed, Revives;
    if es != [] {
      StepKeeps(w, es[0]);
      StepKeepsPids(w, es[0]);
      RunKeepsPids(Step(w, es[0]), es[1..]);
    }
  }

  /** destroy clears exactly the process with the pid. */
  lemma DestroyIsExact(w: World, i: nat)
    requires Inv(w) && PidsOk(w) && LiveSlot(w, i) && w.table[i].pid != 0
    ensures Destroy(w, w.table[i].pid) == Removed(w, i, Cleared(w.table[i]))
  {
    var s := SlotOfPid(w.table, w.table[i].pid, 1);
    assert LiveSlot(w, s);
  }

  lemma LowestIsUnique(used: seq<bool>, k: nat)
    requires FreeRun(used, k, STACK_PAGES) && forall t :: 0 <= t < k ==> !FreeRun(used, t, STACK_PAGES)
    ensures LowestRun(used, 0) == Some(k)
  {
    hide FreeRun;
    var r := LowestRun(used, 0);
    assert r.Some? ==> r.value <= k;
  }

  lemma LowestAt(used: seq<bool>, k: nat)
    requires FreeRun(used, k, STACK_PAGES) && forall t :: 0 <= t < k ==> used[t]
    ensures LowestRun(used, 0) == Some(k)
  {
    forall t | 0 <= t < k ensures !FreeRun(used, t, STACK_PAGES) {
      assert used[t];
    }
    LowestIsUnique(used, k);
  }

  // ------------------------------------------------------------ a run that leads destroy(0) to a live stack

  const NOBODY: Process := Process(0, Unused, "", 0, 0, 0, 0, 0, 0, 0, 0)

  /** The table after boot on a machine with eight free pages. */
  function Booted(): (w: World)
    ensures |w.table| == MAX_PROCESSES
  {
    var table := seq(MAX_PROCESSES, i => NOBODY);
    World(table[0 := NOBODY.(state := Running, name := "idle")], seq(8, p => false), 1)
  }

  lemma BootedInv()
    ensures Inv(Booted())
  {
  }

  lemma CreateAt(w: World, slot: nat, k: nat)
    requires 1 <= slot < |w.table| && FreeSlot(w.table, 1) == slot
    requires FreeRun(w.used, k, STACK_PAGES) && forall t :: 0 <= t < k ==> w.used[t]
    ensures var proc := Thread(w.nextPid, "", PageAddress(k), 0, 0);
      Create(w, "", 0, 0) == Put(w, slot, proc, Filled(w.used, k, STACK_PAGES, true))
  {
    LowestAt(w.used, k);
  }

  /** Two threads come and go, another part of the kernel takes a page in between, and a third thread gets pages 1 to 4:
      slot 2 is free but still names pages 4 to 7, so destroy(0) takes page 4 from the third thread. */
  const STALE_RUN: seq<Event> := [
    Creates("", 0, 0), Creates("", 0, 0), Destroys(1),
    Elsewhere([true, false, false, false, true, true, true, true]),
    Destroys(2), Creates("", 0, 0)]

  /** The six worlds of the run. */
  function StaleWorld(n: nat): (w: World)
    requires n <= 6
    ensures |w.table| == MAX_PROCESSES
  {
    var one := Thread(1, "", PageAddress(0), 0, 0);
    var two := Thread(2, "", PageAddress(4), 0, 0);
    var three := Thread(3, "", PageAddress(1), 0, 0);
    var table := Booted().table;
    match n
    case 0 => Booted()
    case 1 => World(table[1 := one], [true, true, true, true, false, false, false, false], 2)
    case 2 => World(table[1 := one][2 := two], [true, true, true, true, true, true, true, true], 3)
    case 3 => World(table[1 := Cleared(one)][2 := two], [false, false, false, false, true, true, true, true], 3)
    case 4 => World(table[1 := Cleared(one)][2 := two], [true, false, false, false, true, true, true, true], 3)
    case 5 =>
      World(table[1 := Cleared(one)][2 := Cleared(two)], [true, false, false, false, false, false, false, false], 3)
    case _ => World(table[1 := three][2 := Cleared(two)], [true, true, true, true, true, false, false, false], 4)
  }

  lemma StackAddresses()
    ensures PageOf(PageAddress(0)) == 0 && PageOf(PageAddress(1)) == 1 && PageOf(PageAddress(4)) == 4
  {
  }

  lemma StaleCreates(n: nat, slot: nat, k: nat)
    requires (n == 0 && slot == 1 && k == 0) || (n == 1 && slot == 2 && k == 4) || (n == 5 && slot == 1 && k == 1)
    ensures Create(StaleWorld(n), "", 0, 0) == StaleWorld(n + 1)
  {
    var w, r := StaleWorld(n), StaleWorld(n + 1);
    assert FreeSlot(w.table, slot) == slot;
    CreateAt(w, slot, k);
    assert Filled(w.used, k, STACK_PAGES, true) == r.used;
    assert w.table[slot := Thread(w.nextPid, "", PageAddress(k), 0, 0)] == r.table;
  }

  lemma StaleDestroys(n: nat, pid: u32)
    requires (n == 2 && pid == 1) || (n == 4 && pid == 2)
    requires Inv(StaleWorld(n))
    ensures !Stale(StaleWorld(n), pid) && Destroy(StaleWorld(n), pid) == StaleWorld(n + 1)
  {
    var w, r := StaleWorld(n), StaleWorld(n + 1);
    StackAddresses();
    LivePidIsNotStale(w, pid);
    assert SlotOfPid(w.table, pid, pid) == pid;
    assert SlotOfPid(w.table, pid, 1) == pid;
    assert FreeStack(w.used, w.table[pid].kernelStack) == r.used;
    assert w.table[pid := Cleared(w.table[pid])] == r.table;
  }

  lemma StaleElsewhere()
    requires Inv(StaleWorld(3))
    ensures Enabled(StaleWorld(3), STALE_RUN[3]) && Step(StaleWorld(3), STALE_RUN[3]) == StaleWorld(4)
  {
    var w := StaleWorld(3);
    forall p | 0 <= p < 8 && Held(w.table, p) ensures StaleWorld(4).used[p] {
      UsedIsOthersAndStacks(w, p);
    }
  }

  lemma StaleStep(n: nat)
    requires n < 6 && Inv(StaleWorld(n))
    ensures Enabled(StaleWorld(n), STALE_RUN[n]) && Step(StaleWorld(n), STALE_RUN[n]) == StaleWorld(n + 1)
  {
    hide StaleWorld, Create, Destroy, Stale, Inv, Held;
    match n
    case 0 => StaleCreates(0, 1, 0);
    case 1 => StaleCreates(1, 2, 4);
    case 2 => StaleDestroys(2, 1);
    case 3 => StaleElsewhere();
    case 4 => StaleDestroys(4, 2);
    case _ => StaleCreates(5, 1, 1);
  }

  lemma {:induction false} StaleRunFrom(n: nat)
    requires n <= 6 && Inv(StaleWorld(n))
    ensures RunAllowed(StaleWorld(n), STALE_RUN[n..]) && Execute(StaleWorld(n), STALE_RUN[n..]) == StaleWorld(6)
    decreases 6 - n
  {
    hide StaleWorld, Inv, Step, Enabled;
    if n < 6 {
      var w, es := StaleWorld(n), STALE_RUN[n..];
      StaleStep(n);
      StepKeeps(w, es[0]);
      StaleRunFrom(n + 1);
      assert es[0] == STALE_RUN[n] && es[1..] == STALE_RUN[n + 1..];
    }
  }

  /** destroy(0) can take a page from under a live process: a run from boot leads there. */
  lemma DestroyZeroCanHit()
    ensures Inv(Booted()) && RunAllowed(Booted(), STALE_RUN)
    ensures var w := Execute(Booted(), STALE_RUN); Inv(w) && StaleHit(w, 0) && !Inv(Destroy(w, 0))
  {
    hide Inv;
    BootedInv();
    StaleRunFrom(0);
    assert STALE_RUN[0..] == STALE_RUN;
    RunKeepsStacks(Booted(), STALE_RUN);
    StaleAtEnd();
    DestroyKeepsIff(StaleWorld(6), 0);
  }

  lemma StaleAtEnd()
    ensures StaleHit(StaleWorld(6), 0)
  {
    var w := StaleWorld(6);
    StackAddresses();
    assert SlotOfPid(w.table, 0, 2) == 2;
    assert SlotOfPid(w.table, 0, 1) == 2;
    assert Holds(w.table[1], 4) && InStack(w.table[2].kernelStack, 4);
  }
}
