/**
  The receive virtqueue of src/net/virtio_net.cpp.

  Driver and device run concurrently and exchange up to eight buffers through two rings with
  wrapping 16-bit indices.  `Step` is one access of either side, so a completion takes the
  device three: it writes the buffer, puts an element into the used ring, and raises the
  index.  The invariant holds after any interleaving.  `RxQueue.Receive` lets the device do
  anything it may between its own accesses, and between the bytes it copies.

  Ghost logs record everything ever published and completed; the 16-bit indices are the
  lengths of their prefixes modulo 2^16.
 */
module VirtioNet {
  import opened Machine
  import opened Pages

  const QUEUE_SIZE: nat := 16
  const RX_BUF_COUNT: nat := 8
  const NET_HEADER: nat := 10
  const DESC_F_WRITE: nat := 2

  datatype Desc = Desc(addr: nat, len: nat, flags: nat, next: nat)

  /** A used element and the bytes the device put into the buffer. */
  datatype Completion = Completion(id: nat, data: seq<u8>)

  function Ids(cs: seq<Completion>): (ids: seq<nat>)
    ensures |ids| == |cs| && forall i :: 0 <= i < |cs| ==> ids[i] == cs[i].id
  {
    seq(|cs|, i requires 0 <= i < |cs| => cs[i].id)
  }

  /** The first n buffer numbers, as published by populate_rx_queue. */
  function Numbers(n: nat): (s: seq<nat>)
    ensures |s| == n && forall i :: 0 <= i < n ==> s[i] == i
  {
    seq(n, i => i)
  }

  /** The n buffers, each once. */
  function Pool(n: nat): (m: multiset<nat>) { multiset(Numbers(n)) }

  /** The ring slot of an index. */
  function Slot(i: nat): (k: nat)
    ensures k < QUEUE_SIZE
  {
    i % QUEUE_SIZE
  }

  /** A count as a 16-bit index. */
  function Index16(n: nat): (i: nat)
    ensures i < U16
  {
    n % U16
  }

  function Next16(i: nat): (r: nat) { (i + 1) % U16 }

  lemma WrapSlot(n: nat)
    ensures Slot(Index16(n)) == Slot(n)
    ensures Next16(Index16(n)) == Index16(n + 1)
  {
    var q, r := n / U16, n % U16;
    assert n == q * U16 + r;
    SlotOfSum(q, r);
    NextOfSum(q, r);
  }

  lemma SlotOfSum(q: nat, r: nat)
    ensures Slot(q * U16 + r) == Slot(r)
  {
    assert q * U16 + r == 16 * (q * 4096 + r / 16) + r % 16;
  }

  lemma NextOfSum(q: nat, r: nat)
    requires r < U16
    ensures Next16(r) == Index16(q * U16 + r + 1)
  {
    if r + 1 == U16 {
      assert q * U16 + r + 1 == (q + 1) * U16;
    } else {
      assert q * U16 + r + 1 == q * U16 + (r + 1);
    }
  }

  /** Positions less than a queue apart use different slots. */
  lemma SlotsDiffer(m: nat, n: nat)
    requires m < n < m + QUEUE_SIZE
    ensures Slot(m) != Slot(n)
  {
  }

  // ------------------------------------------------------------ the protocol

  /** Where receive stands: it holds a filled buffer, or has put its id into the ring without publishing it. */
  datatype Driver = Idle | Holding(id: nat, len: nat) | Staged(id: nat)

  /** Where the device stands: it has put an element into the used ring without publishing it, or not. */
  datatype Device = Working | Recorded(id: nat, len: nat)

  datatype Queue = Queue(
    availRing: seq<nat>, availIdx: nat,
    usedId: seq<nat>, usedLen: seq<nat>, usedIdx: nat,
    lastUsed: nat, driver: Driver,
    buffers: seq<seq<u8>>,
    deviceAvail: nat, held: multiset<nat>, device: Device)

  /** The size of the pool; everything published, the first `taken` of which the device took; everything
      completed, the first `consumed` of which the driver picked up; and the buffers dropped by short completions. */
  datatype Log = Log(pool: nat, published: seq<nat>, taken: nat, completed: seq<Completion>, consumed: nat,
      lost: multiset<nat>)

  datatype World = World(q: Queue, log: Log)

  datatype Event =
    | DeviceTakes
    | DeviceWrites(id: nat, data: seq<u8>)
    | DeviceRecords(id: nat, len: nat)
    | DeviceCompletes
    | DriverAdds
    | DriverPicks
    | DriverStages
    | DriverPublishes

  predicate Sized(q: Queue)
  {
    && |q.availRing| == |q.usedId| == |q.usedLen| == QUEUE_SIZE
    && |q.buffers| == RX_BUF_COUNT
  }

  predicate Enabled(w: World, e: Event)
  {
    match e
    case DeviceTakes => w.q.deviceAvail != w.q.availIdx
    case DeviceWrites(id, data) => id in w.q.held && |data| <= PAGE_SIZE
    case DeviceRecords(id, len) => w.q.device.Working? && id in w.q.held && id < |w.q.buffers|
        && len <= |w.q.buffers[id]|
    case DeviceCompletes => w.q.device.Recorded?
    case DriverAdds => w.q.driver.Idle? && w.log.pool < RX_BUF_COUNT
    case DriverPicks => w.q.driver.Idle? && w.q.usedIdx != w.q.lastUsed
    case DriverStages => w.q.driver.Holding?
    case DriverPublishes => w.q.driver.Staged?
  }

  function Overwritten(buffer: seq<u8>, data: seq<u8>): (r: seq<u8>)
  {
    if |data| <= |buffer| then data + buffer[|data|..] else data
  }

  /** The device only touches buffers it was given. */
  predicate InBounds(w: World, e: Event)
  {
    && (e.DeviceWrites? ==> e.id < RX_BUF_COUNT)
    && (e.DeviceCompletes? && w.q.device.Recorded? ==>
          w.q.device.id < |w.q.buffers| && w.q.device.len <= |w.q.buffers[w.q.device.id]|)
  }

  function Step(w: World, e: Event): (r: World)
    requires Sized(w.q) && Enabled(w, e) && InBounds(w, e)
    ensures Sized(r.q)
  {
    var q, l := w.q, w.log;
    match e
    case DeviceTakes =>
      World(q.(held := q.held + multiset{q.availRing[Slot(q.deviceAvail)]}, deviceAvail := Next16(q.deviceAvail)),
            l.(taken := l.taken + 1))
    case DeviceWrites(id, data) =>
      World(q.(buffers := q.buffers[id := Overwritten(q.buffers[id], data)]), l)
    case DeviceRecords(id, len) =>
      var slot := Slot(q.usedIdx);
      World(q.(usedId := q.usedId[slot := id], usedLen := q.usedLen[slot := len], device := Recorded(id, len)), l)
    case DeviceCompletes =>
      var id, len := q.device.id, q.device.len;
      World(q.(usedIdx := Next16(q.usedIdx), held := q.held - multiset{id}, device := Working),
            l.(completed := l.completed + [Completion(id, q.buffers[id][..len])]))
    case DriverAdds =>
      World(q.(availRing := q.availRing[Slot(q.availIdx) := l.pool], driver := Staged(l.pool)), l.(pool := l.pool + 1))
    case DriverPicks =>
      var slot := Slot(q.lastUsed);
      var id, len := q.usedId[slot], q.usedLen[slot];
      if len <= NET_HEADER then
        World(q.(lastUsed := Next16(q.lastUsed)), l.(consumed := l.consumed + 1, lost := l.lost + multiset{id}))
      else
        World(q.(lastUsed := Next16(q.lastUsed), driver := Holding(id, len)), l.(consumed := l.consumed + 1))
    case DriverStages =>
      var id := q.driver.id;
      World(q.(availRing := q.availRing[Slot(q.availIdx) := id], driver := Staged(id)), l)
    case DriverPublishes =>
      World(q.(availIdx := Next16(q.availIdx), driver := Idle), l.(published := l.published + [q.driver.id]))
  }

  // ------------------------------------------------------------ the invariant

  function InDriver(d: Driver): (m: multiset<nat>)
  {
    match d
    case Idle => multiset{}
    case Holding(id, _) => multiset{id}
    case Staged(id) => multiset{id}
  }

  predicate Indices(w: World)
  {
    var q, l := w.q, w.log;
    && l.taken <= |l.published| && l.consumed <= |l.completed|
    && q.availIdx == Index16(|l.published|) && q.deviceAvail == Index16(l.taken)
    && q.usedIdx == Index16(|l.completed|) && q.lastUsed == Index16(l.consumed)
  }

  /** How many completions carry no more than a header. */
  function Short(cs: seq<Completion>): (n: nat)
  {
    if cs == [] then 0 else Short(cs[..|cs| - 1]) + (if |cs[|cs| - 1].data| <= NET_HEADER then 1 else 0)
  }

  /** What was taken is held or completed; what was dropped was short. */
  predicate Counts(w: World)
  {
    var l := w.log;
    l.taken == |l.completed| + |w.q.held| && l.consumed <= |l.completed| && |l.lost| == Short(l.completed[..l.consumed])
  }

  /** Slots the device has yet to take, and slots the driver has yet to read, hold what was put there. */
  predicate LiveSlots(w: World)
    requires Sized(w.q)
  {
    var q, l := w.q, w.log;
    && (forall n :: l.taken <= n < |l.published| ==> q.availRing[Slot(n)] == l.published[n])
    && (forall n :: l.consumed <= n < |l.completed| ==> q.usedId[Slot(n)] == l.completed[n].id)
    && (forall n :: l.consumed <= n < |l.completed| ==> q.usedLen[Slot(n)] == |l.completed[n].data|)
  }

  predicate InBuffer(buffers: seq<seq<u8>>, c: Completion)
  {
    c.id < |buffers| == RX_BUF_COUNT && c.data <= buffers[c.id]
  }

  predicate Contents(w: World)
    requires Sized(w.q)
  {
    var q, l := w.q, w.log;
    && (forall n :: l.consumed <= n < |l.completed| ==> InBuffer(q.buffers, l.completed[n]))
    && (q.driver.Holding? ==>
          && 0 < l.consumed <= |l.completed|
          && InBuffer(q.buffers, l.completed[l.consumed - 1])
          && l.completed[l.consumed - 1].id == q.driver.id && |l.completed[l.consumed - 1].data| ==
              q.driver.len > NET_HEADER)
    && (q.driver.Staged? ==> q.availRing[Slot(|l.published|)] == q.driver.id)
  }

  function Waiting(published: seq<nat>, taken: nat): (m: multiset<nat>)
    requires taken <= |published|
  {
    multiset(published[taken..])
  }

  function Unread(completed: seq<Completion>, consumed: nat): (m: multiset<nat>)
    requires consumed <= |completed|
  {
    multiset(Ids(completed[consumed..]))
  }

  /** Every buffer is in exactly one place. */
  predicate Conserved(w: World)
    requires Indices(w)
  {
    var l := w.log;
    && l.pool <= RX_BUF_COUNT
    && Waiting(l.published, l.taken) + w.q.held + Unread(l.completed,
        l.consumed) + InDriver(w.q.driver) + l.lost == Pool(l.pool)
  }

  /** An element recorded but not published sits in the next slot and names a buffer the device holds. */
  predicate Pending(w: World)
    requires Sized(w.q)
  {
    w.q.device.Recorded? ==>
      var q, slot := w.q, Slot(|w.log.completed|);
      && q.device.id in q.held && q.device.id < RX_BUF_COUNT && q.device.len <= |q.buffers[q.device.id]|
      && q.usedId[slot] == q.device.id && q.usedLen[slot] == q.device.len
  }

  predicate Inv(w: World)
  {
    Sized(w.q) && Indices(w) && Counts(w) && LiveSlots(w) && Contents(w) && Pending(w) && Conserved(w)
  }

  // ------------------------------------------------------------ windows

  lemma WindowSizes(w: World)
    requires Indices(w) && Conserved(w)
    ensures var l := w.log;
      (|l.published| - l.taken) + |w.q.held| + (|l.completed| - l.consumed) + |InDriver(w.q.driver)|
          + |l.lost| == l.pool <= RX_BUF_COUNT
  {
    var l := w.log;
    assert |Pool(l.pool)| == l.pool;
    assert |Waiting(l.published, l.taken)| == |l.published| - l.taken;
    assert |Unread(l.completed, l.consumed)| == |l.completed| - l.consumed;
  }

  /** The 16-bit comparison of the indices tells whether the window is empty. */
  lemma IndexTest(m: nat, n: nat)
    requires m <= n <= m + RX_BUF_COUNT
    ensures Index16(m) == Index16(n) <==> m == n
  {
    var q := m / U16;
    assert m == q * U16 + m % U16;
  }

  lemma {:induction false} PoolMember(n: nat, id: nat)
    ensures Pool(n)[id] == if id < n then 1 else 0
  {
    if n > 0 {
      PoolMember(n - 1, id);
      assert Numbers(n) == Numbers(n - 1) + [n - 1];
    }
  }

  lemma FirstWaiting(published: seq<nat>, taken: nat)
    requires taken < |published|
    ensures Waiting(published, taken) == multiset{published[taken]} + Waiting(published, taken + 1)
  {
    assert published[taken..] == [published[taken]] + published[taken + 1..];
  }

  lemma FirstUnread(completed: seq<Completion>, consumed: nat)
    requires consumed < |completed|
    ensures Unread(completed, consumed) == multiset{completed[consumed].id} + Unread(completed, consumed + 1)
  {
    assert Ids(completed[consumed..]) == [completed[consumed].id] + Ids(completed[consumed + 1..]);
  }

  lemma AddWaiting(published: seq<nat>, taken: nat, id: nat)
    requires taken <= |published|
    ensures Waiting(published + [id], taken) == Waiting(published, taken) + multiset{id}
  {
    assert (published + [id])[taken..] == published[taken..] + [id];
  }

  lemma AddUnread(completed: seq<Completion>, consumed: nat, c: Completion)
    requires consumed <= |completed|
    ensures Unread(completed + [c], consumed) == Unread(completed, consumed) + multiset{c.id}
  {
    assert Ids((completed + [c])[consumed..]) == Ids(completed[consumed..]) + [c.id];
  }

  lemma UnreadMember(completed: seq<Completion>, consumed: nat, n: nat)
    requires consumed <= n < |completed|
    ensures completed[n].id in Unread(completed, consumed)
  {
    var ids := Ids(completed[consumed..]);
    assert ids[n - consumed] == completed[n].id;
  }

  // ------------------------------------------------------------ every step keeps the invariant

  lemma TakeRings(w: World)
    requires Inv(w) && Enabled(w, DeviceTakes)
    ensures var r := Step(w, DeviceTakes);
      && Indices(r) && LiveSlots(r) && Contents(r) && Pending(r)
      && w.log.taken < |w.log.published| && w.q.availRing[Slot(w.q.deviceAvail)] == w.log.published[w.log.taken]
  {
    hide Slot, Index16, Next16, Conserved, InBuffer;
    var l := w.log;
    WindowSizes(w);
    IndexTest(l.taken, |l.published|);
    WrapSlot(l.taken);
  }

  lemma TakeKeeps(w: World)
    requires Inv(w) && Enabled(w, DeviceTakes)
    ensures Inv(Step(w, DeviceTakes))
  {
    hide Short, LiveSlots, Contents, Pending, Slot, Index16, Next16, Pool, Waiting, Unread;
    TakeRings(w);
    CountsKept(w, DeviceTakes);
    FirstWaiting(w.log.published, w.log.taken);
  }

  /** A buffer of the pool is in one place, any other number in none. */
  lemma OnePlace(w: World, id: nat)
    requires Inv(w)
    ensures var l := w.log;
      Waiting(l.published, l.taken)[id] + w.q.held[id] + Unread(l.completed,
          l.consumed)[id] + InDriver(w.q.driver)[id] + l.lost[id]
        == if id < l.pool then 1 else 0
  {
    hide LiveSlots, Contents, Slot, Index16, Pool, Waiting, Unread, InDriver;
    PoolMember(w.log.pool, id);
    var l := w.log;
    assert Pool(l.pool)[id] ==
      Waiting(l.published, l.taken)[id] + w.q.held[id] + Unread(l.completed,
          l.consumed)[id] + InDriver(w.q.driver)[id] + l.lost[id];
  }

  /** The device completes a buffer it holds: no other buffer has that number. */
  lemma HeldIsExclusive(w: World, id: nat)
    requires Inv(w) && id in w.q.held
    ensures id < RX_BUF_COUNT && id !in Unread(w.log.completed, w.log.consumed) && id !in InDriver(w.q.driver)
    ensures id !in Waiting(w.log.published, w.log.taken) && id !in w.log.lost
  {
    hide LiveSlots, Contents, Slot, Index16, Pool, Waiting, Unread, InDriver;
    OnePlace(w, id);
  }

  lemma WriteKeepsContents(w: World, id: nat, data: seq<u8>)
    requires Inv(w) && Enabled(w, DeviceWrites(id, data)) && id < RX_BUF_COUNT
    ensures Contents(Step(w, DeviceWrites(id, data)))
  {
    hide LiveSlots, Conserved, Slot, Index16, Next16, Unread, Counts, Pending;
    var l, r := w.log, Step(w, DeviceWrites(id, data));
    HeldIsExclusive(w, id);
    forall n | l.consumed <= n < |l.completed| ensures InBuffer(r.q.buffers, l.completed[n]) {
      UnreadMember(l.completed, l.consumed, n);
      assert InBuffer(w.q.buffers, l.completed[n]);
    }
    if w.q.driver.Holding? { assert l.completed[l.consumed - 1].id in InDriver(w.q.driver); }
  }

  lemma WriteKeeps(w: World, id: nat, data: seq<u8>)
    requires Inv(w) && Enabled(w, DeviceWrites(id, data))
    ensures id < RX_BUF_COUNT && Inv(Step(w, DeviceWrites(id, data)))
  {
    hide Short, Contents, Slot, Index16, Next16, Pool, Waiting, Unread, InDriver;
    HeldIsExclusive(w, id);
    WriteKeepsContents(w, id, data);
  }

  /** The slot the device writes is none the driver has yet to read. */
  lemma RecordKeepsSlots(w: World, id: nat, len: nat)
    requires Inv(w) && Enabled(w, DeviceRecords(id, len))
    ensures var r := Step(w, DeviceRecords(id, len)); LiveSlots(r) && Pending(r)
  {
    hide Contents, Conserved, Slot, Index16, Next16, Counts;
    var l, r := w.log, Step(w, DeviceRecords(id, len));
    WindowSizes(w);
    WrapSlot(|l.completed|);
    forall n | l.consumed <= n < |l.completed|
      ensures r.q.usedId[Slot(n)] == l.completed[n].id && r.q.usedLen[Slot(n)] == |l.completed[n].data|
    {
      SlotsDiffer(n, |l.completed|);
    }
  }

  lemma RecordKeeps(w: World, id: nat, len: nat)
    requires Inv(w) && Enabled(w, DeviceRecords(id, len))
    ensures Inv(Step(w, DeviceRecords(id, len)))
  {
    hide Short, LiveSlots, Pending, Slot, Index16, Next16, Pool, Waiting, Unread, InDriver, InBuffer;
    RecordKeepsSlots(w, id, len);
  }

  lemma CompleteKeepsSlots(w: World)
    requires Inv(w) && Enabled(w, DeviceCompletes)
    ensures InBounds(w, DeviceCompletes)
    ensures var r := Step(w, DeviceCompletes); Indices(r) && LiveSlots(r) && Contents(r) && Pending(r)
  {
    hide Conserved, Slot, Index16, Next16, Counts;
    var l, r := w.log, Step(w, DeviceCompletes);
    WrapSlot(|l.completed|);
    forall n | l.consumed <= n < |r.log.completed|
      ensures r.q.usedId[Slot(n)] == r.log.completed[n].id && r.q.usedLen[Slot(n)] == |r.log.completed[n].data|
      ensures InBuffer(r.q.buffers, r.log.completed[n])
    {
      if n < |l.completed| { assert InBuffer(w.q.buffers, l.completed[n]); }
    }
  }

  lemma CompleteKeeps(w: World)
    requires Inv(w) && Enabled(w, DeviceCompletes)
    ensures InBounds(w, DeviceCompletes) && Inv(Step(w, DeviceCompletes))
  {
    hide Short, LiveSlots, Contents, Slot, Index16, Next16, Pool, Waiting, Unread, InDriver;
    var id := w.q.device.id;
    CompleteKeepsSlots(w);
    CompleteCounts(w);
    AddUnread(w.log.completed, w.log.consumed, Completion(id, w.q.buffers[id][..w.q.device.len]));
    assert w.q.held == (w.q.held - multiset{id}) + multiset{id};
  }

  /** One more buffer joins the pool, in the driver's hands. */
  lemma AddKeeps(w: World)
    requires Inv(w) && Enabled(w, DriverAdds)
    ensures Inv(Step(w, DriverAdds))
  {
    hide Short, Slot, Index16, Next16, Waiting, Unread, InBuffer;
    var l, r := w.log, Step(w, DriverAdds);
    WindowSizes(w);
    WrapSlot(|l.published|);
    forall n | l.taken <= n < |l.published| ensures r.q.availRing[Slot(n)] == l.published[n] {
      SlotsDiffer(n, |l.published|);
    }
    assert Numbers(l.pool + 1) == Numbers(l.pool) + [l.pool];
  }

  /** What the driver reads from the used ring is the oldest completion it has not seen. */
  lemma PickReads(w: World)
    requires Inv(w) && w.q.usedIdx != w.q.lastUsed
    ensures w.log.consumed < |w.log.completed|
    ensures var c := w.log.completed[w.log.consumed];
      && w.q.usedId[Slot(w.q.lastUsed)] == c.id && w.q.usedLen[Slot(w.q.lastUsed)] == |c.data|
      && InBuffer(w.q.buffers, c)
  {
    hide Conserved, Slot, Index16;
    var l := w.log;
    WindowSizes(w);
    IndexTest(l.consumed, |l.completed|);
    WrapSlot(l.consumed);
  }

  lemma PickRings(w: World)
    requires Inv(w) && Enabled(w, DriverPicks)
    ensures var r := Step(w, DriverPicks); Indices(r) && LiveSlots(r) && Contents(r) && Pending(r)
  {
    hide Conserved, Slot, Index16, Next16, InBuffer;
    PickReads(w);
    WrapSlot(w.log.consumed);
  }

  lemma PickKeeps(w: World)
    requires Inv(w) && Enabled(w, DriverPicks)
    ensures Inv(Step(w, DriverPicks))
  {
    hide Short, LiveSlots, Contents, Pending, Counts, Slot, Index16, Next16, Pool, Waiting, Unread, InBuffer;
    PickReads(w);
    PickRings(w);
    CountsKept(w, DriverPicks);
    FirstUnread(w.log.completed, w.log.consumed);
  }

  lemma StageKeeps(w: World)
    requires Inv(w) && Enabled(w, DriverStages)
    ensures Inv(Step(w, DriverStages))
  {
    hide Short, Slot, Index16, Next16, Pool, Waiting, Unread, InBuffer;
    var l, r := w.log, Step(w, DriverStages);
    WindowSizes(w);
    WrapSlot(|l.published|);
    forall n | l.taken <= n < |l.published| ensures r.q.availRing[Slot(n)] == l.published[n] {
      SlotsDiffer(n, |l.published|);
    }
  }

  lemma PublishRings(w: World)
    requires Inv(w) && Enabled(w, DriverPublishes)
    ensures var r := Step(w, DriverPublishes); Indices(r) && LiveSlots(r) && Contents(r) && Pending(r)
  {
    hide Slot, Index16, Next16, Conserved, InBuffer;
    WrapSlot(|w.log.published|);
  }

  lemma PublishKeeps(w: World)
    requires Inv(w) && Enabled(w, DriverPublishes)
    ensures Inv(Step(w, DriverPublishes))
  {
    hide Short, LiveSlots, Contents, Pending, Slot, Index16, Next16, Pool, Waiting, Unread;
    PublishRings(w);
    CountsKept(w, DriverPublishes);
    AddWaiting(w.log.published, w.log.taken, w.q.driver.id);
  }

  lemma CountsKept(w: World, e: Event)
    requires Inv(w) && Enabled(w, e) && InBounds(w, e) && !e.DeviceCompletes?
    ensures Counts(Step(w, e))
  {
    hide LiveSlots, Contents, Slot, Index16, Next16, Conserved, InBuffer, Overwritten, Pending;
    var l := w.log;
    match e
    case DriverPicks =>
      PickReads(w);
      assert l.completed[..l.consumed + 1][..l.consumed] == l.completed[..l.consumed];
    case _ =>
  }

  lemma CompleteCounts(w: World)
    requires Inv(w) && Enabled(w, DeviceCompletes) && InBounds(w, DeviceCompletes)
    ensures Counts(Step(w, DeviceCompletes))
  {
    hide LiveSlots, Contents, Slot, Index16, Next16, Conserved;
    var l := w.log;
    var c := Completion(w.q.device.id, w.q.buffers[w.q.device.id][..w.q.device.len]);
    assert (l.completed + [c])[..l.consumed] == l.completed[..l.consumed];
  }

  /** No step of driver or device, in any order, breaks the invariant. */
  lemma StepKeeps(w: World, e: Event)
    requires Inv(w) && Enabled(w, e)
    ensures InBounds(w, e) && Inv(Step(w, e))
  {
    hide Inv;
    match e
    case DeviceTakes => TakeKeeps(w);
    case DeviceWrites(id, data) => WriteKeeps(w, id, data);
    case DeviceRecords(id, len) => RecordKeeps(w, id, len);
    case DeviceCompletes => CompleteKeeps(w);
    case DriverAdds => AddKeeps(w);
    case DriverPicks => PickKeeps(w);
    case DriverStages => StageKeeps(w);
    case DriverPublishes => PublishKeeps(w);
  }

  // ------------------------------------------------------------ whole runs

  ghost predicate RunAllowed(w: World, es: seq<Event>)
    requires Inv(w)
    decreases |es|
  {
    es == [] || (Enabled(w, es[0]) && (StepKeeps(w, es[0]); RunAllowed(Step(w, es[0]), es[1..])))
  }

  /** Any interleaving of driver and device steps. */
  ghost function Execute(w: World, es: seq<Event>): (r: World)
    requires Inv(w) && RunAllowed(w, es)
    decreases |es|
  {
    if es == [] then w else StepKeeps(w, es[0]); Execute(Step(w, es[0]), es[1..])
  }

  lemma {:induction false} RunKeeps(w: World, es: seq<Event>)
    requires Inv(w) && RunAllowed(w, es)
    ensures Inv(Execute(w, es))
    decreases |es|
  {
    hide Step, Counts, LiveSlots, Contents, Conserved, Indices;
    if es != [] {
      StepKeeps(w, es[0]);
      RunKeeps(Step(w, es[0]), es[1..]);
    }
  }

  /** Between calls of receive each buffer is with the device, or completed and unread, or was dropped for being
      short. */
  lemma IdleConservation(w: World, id: nat)
    requires Inv(w) && w.q.driver.Idle? && id < w.log.pool
    ensures (Waiting(w.log.published, w.log.taken) + w.q.held)[id] + Unread(w.log.completed,
        w.log.consumed)[id] + w.log.lost[id] == 1
    ensures |w.log.published| - w.log.consumed == w.log.pool - |w.log.lost|
    ensures (w.q.availIdx - w.q.lastUsed) % U16 == w.log.pool - |w.log.lost|
    ensures |w.log.lost| == Short(w.log.completed[..w.log.consumed])
  {
    hide LiveSlots, Contents, Slot, Pool, Waiting, Unread, Short;
    OnePlace(w, id);
    WindowSizes(w);
    IndexDifference(w.log.consumed, |w.log.published|);
  }

  lemma IndexDifference(m: nat, n: nat)
    requires m <= n <= m + RX_BUF_COUNT
    ensures (Index16(n) - Index16(m)) % U16 == n - m
  {
    var p, q := m / U16, n / U16;
    assert m == p * U16 + Index16(m) && n == q * U16 + Index16(n);
    assert Index16(n) - Index16(m) == (n - m) + (p - q) * U16;
  }

  /** While receive copies a packet, the device owns neither the buffer nor an index to it, and the bytes are those
      completed. */
  lemma CopyIsSafe(w: World)
    requires Inv(w) && w.q.driver.Holding?
    ensures var id, c := w.q.driver.id, w.log.completed[w.log.consumed - 1];
      && id !in w.q.held && id !in Waiting(w.log.published, w.log.taken)
          && id !in Unread(w.log.completed, w.log.consumed)
      && c.id == id < RX_BUF_COUNT && |c.data| == w.q.driver.len > NET_HEADER && c.data <= w.q.buffers[id]
  {
    hide LiveSlots, Slot, Index16, Pool, Waiting, Unread;
    var id := w.q.driver.id;
    OnePlace(w, id);
  }

  // ------------------------------------------------------------ what the driver relies on

  predicate ByDevice(e: Event) { e.DeviceTakes? || e.DeviceWrites? || e.DeviceRecords? || e.DeviceCompletes? }

  /** The device may only append completions; a buffer in the driver's hands stays as it is. */
  ghost predicate DeviceOnly(w: World, r: World)
  {
    && Inv(r) && Sized(w.q)
    && r.q.driver == w.q.driver && r.q.lastUsed == w.q.lastUsed && r.q.availIdx == w.q.availIdx
        && r.q.availRing == w.q.availRing
    && r.log.published == w.log.published && r.log.consumed == w.log.consumed && r.log.lost == w.log.lost
        && r.log.pool == w.log.pool
    && w.log.completed <= r.log.completed
    && (w.q.driver.Holding? && w.q.driver.id < RX_BUF_COUNT ==>
          r.q.buffers[w.q.driver.id] == w.q.buffers[w.q.driver.id])
  }

  lemma DeviceStepOnly(w: World, e: Event)
    requires Inv(w) && Enabled(w, e) && ByDevice(e)
    ensures InBounds(w, e) && DeviceOnly(w, Step(w, e))
  {
    hide Indices, Counts, LiveSlots, Contents, Pending, Conserved, Slot, Next16, Overwritten, Waiting, Unread;
    StepKeeps(w, e);
    match e
    case DeviceWrites(id, data) =>
      HeldIsExclusive(w, id);
      assert w.q.driver.Holding? ==> w.q.driver.id != id;
    case _ =>
  }

  lemma DeviceOnlyReflexive(w: World)
    requires Inv(w)
    ensures DeviceOnly(w, w)
  {
  }

  lemma DeviceOnlyTransitive(w: World, v: World, r: World)
    requires DeviceOnly(w, v) && DeviceOnly(v, r)
    ensures DeviceOnly(w, r)
  {
    hide Inv;
  }

  /** The test of the indices finds a completion exactly when there is one. */
  lemma PickEnabled(w: World)
    requires Inv(w)
    ensures w.log.consumed <= |w.log.completed| && (w.q.usedIdx != w.q.lastUsed <==> w.log.consumed < |w.log.completed|)
  {
    hide LiveSlots, Contents, Conserved, Counts;
    WindowSizes(w);
    IndexTest(w.log.consumed, |w.log.completed|);
  }

  lemma LogsGrow(w: World, v: World)
    requires DeviceOnly(w, v)
    ensures w.log.completed <= v.log.completed && v.q.driver == w.q.driver
    ensures v.log == w.log.(completed := v.log.completed, taken := v.log.taken)
  {
    hide Inv;
  }

  /** Once a completion is there, it is what the driver reads, however long it takes. */
  lemma PickLater(w: World, v: World)
    requires Inv(w) && w.log.consumed < |w.log.completed| && DeviceOnly(w, v)
    ensures v.log.consumed == w.log.consumed < |v.log.completed|
    ensures v.log.completed[v.log.consumed] == w.log.completed[w.log.consumed]
    ensures var c := w.log.completed[w.log.consumed];
      |v.q.usedId| == |v.q.usedLen| == QUEUE_SIZE && v.q.usedId[Slot(v.q.lastUsed)] == c.id
          && v.q.usedLen[Slot(v.q.lastUsed)] == |c.data|
  {
    hide Indices, Counts, LiveSlots, Contents, Conserved, Slot;
    PickEnabled(v);
    PickReads(v);
  }

  /** The world after picking up a completion whose id and length were read beforehand. */
  function PickedWorld(w: World, id: nat, len: nat): (r: World)
  {
    var q := w.q.(lastUsed := Next16(w.q.lastUsed));
    var l := w.log.(consumed := w.log.consumed + 1);
    if len <= NET_HEADER then World(q, l.(lost := l.lost + multiset{id})) else World(q.(driver := Holding(id, len)), l)
  }

  lemma PickWithRead(w: World, id: nat, len: nat)
    requires Inv(w) && w.q.driver.Idle? && w.log.consumed < |w.log.completed|
    requires id == w.log.completed[w.log.consumed].id && len == |w.log.completed[w.log.consumed].data|
    ensures Enabled(w, DriverPicks) && PickedWorld(w, id, len) == Step(w, DriverPicks)
    ensures Inv(PickedWorld(w, id, len)) && id < RX_BUF_COUNT
  {
    hide Indices, Counts, LiveSlots, Contents, Conserved, Slot, Next16;
    PickEnabled(w);
    PickReads(w);
    StepKeeps(w, DriverPicks);
  }

  /** A byte copied later is the byte completed. */
  lemma CopyLater(w: World, v: World, i: nat)
    requires Inv(w) && w.q.driver.Holding? && i < w.q.driver.len && DeviceOnly(w, v)
    ensures 0 < w.log.consumed <= |w.log.completed| && |w.log.completed[w.log.consumed - 1].data| == w.q.driver.len
    ensures v.log.consumed == w.log.consumed
    ensures v.log.completed[v.log.consumed - 1] == w.log.completed[w.log.consumed - 1]
    ensures |v.q.buffers| == RX_BUF_COUNT && w.q.driver.id < RX_BUF_COUNT && i < |v.q.buffers[w.q.driver.id]|
    ensures v.q.buffers[w.q.driver.id][i] == w.log.completed[w.log.consumed - 1].data[i]
  {
    hide Indices, Counts, LiveSlots, Conserved, Slot;
    CopyIsSafe(w);
  }

  /** A fresh queue with no buffers yet. */
  lemma EmptyInv(w: World)
    requires Sized(w.q) && w.log == Log(0, [], 0, [], 0, multiset{})
    requires w.q.availIdx == w.q.deviceAvail == w.q.usedIdx == w.q.lastUsed == 0
    requires w.q.driver == Idle && w.q.device == Working && w.q.held == multiset{}
    ensures Inv(w)
  {
    assert Ids([]) == [];
  }

  /** Picking up a completion: the oldest one, or none if there is none. */
  predicate Picked(before: Log, after: Log, found: bool)
  {
    && before.completed <= after.completed && after.consumed <= |after.completed|
    && after.pool == before.pool && after.published == before.published
    && after.consumed == (if found then before.consumed + 1 else before.consumed)
    && (!found ==> after.lost == before.lost && after.consumed == |after.completed|)
    && (found ==> var c := after.completed[before.consumed];
          after.lost == before.lost + (if |c.data| <= NET_HEADER then multiset{c.id} else multiset{}))
  }

  /** What one call of receive means for the logs: completions are delivered in order, once each, without their
      header. */
  predicate Received(before: Log, after: Log, bufSize: nat, r: Option<seq<u8>>)
  {
    && before.completed <= after.completed && before.consumed <= |before.completed|
        && after.consumed <= |after.completed|
    && after.pool == before.pool
    && match r {
      case Some(p) =>
        && after.consumed == before.consumed + 1
        && var c := after.completed[before.consumed];
          && |c.data| > 10 && |p| == Min(|c.data| - 10, bufSize)
          && (forall i :: 0 <= i < |p| ==> p[i] == c.data[10 + i])
          && after.published == before.published + [c.id] && after.lost == before.lost
      case None =>
        && after.published == before.published
        && (|| (after.consumed == before.consumed == |after.completed| && after.lost == before.lost)
            || (after.consumed == before.consumed + 1 && var c := after.completed[before.consumed];
                 |c.data| <= 10 && after.lost == before.lost + multiset{c.id}))
    }
  }
}
