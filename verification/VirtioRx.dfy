/**
  The driver side of the receive queue of src/net/virtio_net.cpp as it runs, beside a device that may act at any time.

  `device(k)` is what the device does at the k-th point of a call; events it may not perform are skipped, so every
  behaviour of a well-behaved device is some such function.
 */
module VirtioRx {
  import opened Machine
  import opened Pages
  import opened VirtioNet

  class RxQueue {
    const desc: array<Desc>
    var bufferAddr: seq<nat>
    const availRing: array<nat>
    const usedId: array<nat>
    const usedLen: array<nat>
    const buffers: array<seq<u8>>
    var availIdx: nat
    var usedIdx: nat
    var lastUsed: nat
    var deviceAvail: nat
    var held: multiset<nat>
    var deviceState: Device
    ghost var driver: Driver
    ghost var log: Log

    ghost predicate Shape()
      reads this
    {
      && |bufferAddr| == RX_BUF_COUNT
      && desc.Length == availRing.Length == usedId.Length == usedLen.Length == QUEUE_SIZE
          && buffers.Length == RX_BUF_COUNT
      && availRing != usedId && availRing != usedLen && usedId != usedLen
    }

    ghost function State(): (w: World)
      reads this, availRing, usedId, usedLen, buffers
    {
      World(Queue(availRing[..], availIdx, usedId[..], usedLen[..], usedIdx, lastUsed, driver, buffers[..],
          deviceAvail, held, deviceState), log)
    }

    ghost predicate Valid()
      reads this, availRing, usedId, usedLen, buffers
    {
      Shape() && Inv(State())
    }

    /** Each published descriptor offers the whole page of its buffer for writing. */
    ghost predicate DescsOk()
      reads this, desc
    {
      && |bufferAddr| == RX_BUF_COUNT && desc.Length == QUEUE_SIZE
      && forall i :: 0 <= i < log.pool && i < RX_BUF_COUNT ==> desc[i] == Desc(bufferAddr[i], PAGE_SIZE,
          DESC_F_WRITE, 0)
    }

    /** Empty rings, as the zeroed pages of setup_queue give them. */
    constructor ()
      ensures Valid() && DescsOk() && driver == Idle && log == Log(0, [], 0, [], 0, multiset{})
      ensures fresh(desc) && fresh(availRing) && fresh(usedId) && fresh(usedLen) && fresh(buffers)
    {
      desc := new Desc[QUEUE_SIZE](_ => Desc(0, 0, 0, 0));
      availRing := new nat[QUEUE_SIZE](_ => 0);
      usedId := new nat[QUEUE_SIZE](_ => 0);
      usedLen := new nat[QUEUE_SIZE](_ => 0);
      buffers := new seq<u8>[RX_BUF_COUNT](_ => []);
      bufferAddr := seq(RX_BUF_COUNT, _ => 0);
      availIdx, usedIdx, lastUsed, deviceAvail, held, deviceState := 0, 0, 0, 0, multiset{}, Working;
      driver, log := Idle, Log(0, [], 0, [], 0, multiset{});
      new;
      EmptyInv(State());
    }

    /** The device takes the next published buffer, if there is one. */
    method DeviceTake()
      requires Valid()
      modifies this
      ensures Valid() && DeviceOnly(old(State()), State()) && bufferAddr == old(bufferAddr)
      ensures State() == if Enabled(old(State()), DeviceTakes) then Step(old(State()), DeviceTakes) else old(State())
    {
      hide Indices, Counts, LiveSlots, Contents, Pending, Conserved, Slot, Next16;
      ghost var w := State();
      if deviceAvail == availIdx {
        DeviceOnlyReflexive(w);
      } else {
        DeviceStepOnly(w, DeviceTakes);
        held := held + multiset{availRing[Slot(deviceAvail)]};
        deviceAvail := Next16(deviceAvail);
        log := log.(taken := log.taken + 1);
        assert State() == Step(w, DeviceTakes);
      }
    }

    /** The device writes into a buffer it holds. */
    method DeviceWrite(id: nat, data: seq<u8>)
      requires Valid() && id in held && |data| <= PAGE_SIZE
      modifies buffers
      ensures Valid() && DeviceOnly(old(State()), State())
      ensures id < RX_BUF_COUNT && State() == Step(old(State()), DeviceWrites(id, data))
    {
      hide Indices, Counts, LiveSlots, Contents, Pending, Conserved, Slot, Next16, Overwritten;
      ghost var w := State();
      DeviceStepOnly(w, DeviceWrites(id, data));
      buffers[id] := Overwritten(buffers[id], data);
      assert buffers[..] == w.q.buffers[id := Overwritten(w.q.buffers[id], data)];
    }

    /** The device puts an element into the used ring. */
    method DeviceRecord(id: nat, len: nat)
      requires Valid() && deviceState.Working? && id in held && id < RX_BUF_COUNT && len <= |buffers[id]|
      modifies this`deviceState, usedId, usedLen
      ensures Valid() && DeviceOnly(old(State()), State())
      ensures State() == Step(old(State()), DeviceRecords(id, len))
    {
      hide Indices, Counts, LiveSlots, Contents, Pending, Conserved, Slot, Next16;
      ghost var w := State();
      DeviceStepOnly(w, DeviceRecords(id, len));
      usedId[Slot(usedIdx)] := id;
      usedLen[Slot(usedIdx)] := len;
      deviceState := Recorded(id, len);
      assert State() == Step(w, DeviceRecords(id, len));
    }

    /** The device raises the used index and lets go of the buffer. */
    method DeviceComplete()
      requires Valid() && deviceState.Recorded?
      modifies this`deviceState, this`usedIdx, this`held, this`log
      ensures Valid() && DeviceOnly(old(State()), State())
      ensures InBounds(old(State()), DeviceCompletes) && State() == Step(old(State()), DeviceCompletes)
    {
      hide Indices, Counts, LiveSlots, Contents, Pending, Conserved, Slot, Next16;
      ghost var w := State();
      DeviceStepOnly(w, DeviceCompletes);
      usedIdx := Next16(usedIdx);
      held := held - multiset{deviceState.id};
      log := log.(completed := log.completed + [Completion(deviceState.id,
          buffers[deviceState.id][..deviceState.len])]);
      deviceState := Working;
      assert State() == Step(w, DeviceCompletes);
    }

    method DeviceRuns(es: seq<Event>)
      requires Valid()
      modifies this, usedId, usedLen, buffers
      ensures Valid() && DeviceOnly(old(State()), State()) && bufferAddr == old(bufferAddr)
    {
      hide Inv, DeviceOnly, Step, Enabled;
      ghost var w := State();
      DeviceOnlyReflexive(w);
      for i := 0 to |es|
        invariant Valid() && DeviceOnly(w, State()) && bufferAddr == old(bufferAddr)
      {
        ghost var v := State();
        var e := es[i];
        if e.DeviceTakes? {
          DeviceTake();
        } else if e.DeviceWrites? && e.id in held && |e.data| <= PAGE_SIZE {
          DeviceWrite(e.id, e.data);
        } else if e.DeviceRecords? && deviceState.Working? && e.id in held && e.id < RX_BUF_COUNT
            && e.len <= |buffers[e.id]| {
          DeviceRecord(e.id, e.len);
        } else if e.DeviceCompletes? && deviceState.Recorded? {
          DeviceComplete();
        } else {
          DeviceOnlyReflexive(v);
        }
        DeviceOnlyTransitive(w, v, State());
      }
    }

    /** The index goes up; what was staged is the device's. */
    method PublishStaged(id: nat, after: seq<Event>)
      requires Valid() && driver == Staged(id)
      modifies this, usedId, usedLen, buffers
      ensures Valid() && driver == Idle && bufferAddr == old(bufferAddr) && old(log.completed) <= log.completed
      ensures log == old(log).(completed := log.completed, taken := log.taken, published := old(log.published) + [id])
    {
      hide Inv, Slot, Next16, DeviceOnly;
      ghost var w := State();
      StepKeeps(w, DriverPublishes);
      availIdx := Next16(availIdx);
      driver := Idle;
      log := log.(published := log.published + [id]);
      assert State() == Step(w, DriverPublishes);
      DeviceRuns(after);
      LogsGrow(Step(w, DriverPublishes), State());
    }

    /** Descriptor and ring slot of a new buffer. */
    method StageNew(id: nat, page: nat)
      requires Valid() && DescsOk() && driver == Idle && id == log.pool < RX_BUF_COUNT
      modifies this, desc, availRing
      ensures Valid() && DescsOk() && driver == Staged(id) && bufferAddr == old(bufferAddr)[id := page]
      ensures log == old(log).(pool := id + 1)
    {
      hide Inv, Slot, Next16;
      bufferAddr := bufferAddr[id := page];
      desc[id] := Desc(page, PAGE_SIZE, DESC_F_WRITE, 0);
      ghost var w := State();
      StepKeeps(w, DriverAdds);
      availRing[Slot(availIdx)] := id;
      driver := Staged(id);
      log := log.(pool := log.pool + 1);
      assert State() == Step(w, DriverAdds);
    }

    /** One buffer joins the queue: its descriptor, its slot, then the index. */
    method AddBuffer(id: nat, page: nat, device: nat -> seq<Event>)
      requires Valid() && DescsOk() && driver == Idle && id == log.pool < RX_BUF_COUNT
      modifies this, desc, availRing, usedId, usedLen, buffers
      ensures Valid() && DescsOk() && driver == Idle && bufferAddr == old(bufferAddr)[id := page]
      ensures old(log.completed) <= log.completed
      ensures log == old(log).(pool := id + 1, published := old(log.published) + [id],
          completed := log.completed, taken := log.taken)
    {
      hide Inv, Slot, Next16, DeviceOnly;
      StageNew(id, page);
      ghost var w := State();
      DeviceRuns(device(0));
      LogsGrow(w, State());
      PublishStaged(id, device(1));
    }

    /** Publishes one buffer per allocated page, up to the first failed allocation, while the device may already use
        those that are there. */
    method PopulateRxQueue(pages: seq<nat>, device: nat -> seq<Event>) returns (n: nat)
      requires Valid() && DescsOk() && driver == Idle && |pages| == RX_BUF_COUNT && log.pool == 0 && log.published == []
      modifies this, desc, availRing, usedId, usedLen, buffers
      ensures Valid() && DescsOk() && driver == Idle
      ensures log == old(log).(pool := n, published := Numbers(n), completed := log.completed, taken := log.taken)
      ensures n <= RX_BUF_COUNT && (forall i :: 0 <= i < n ==> pages[i] != 0) && (n < RX_BUF_COUNT ==> pages[n] == 0)
      ensures bufferAddr[..n] == pages[..n]
    {
      hide Inv;
      n := 0;
      while n < RX_BUF_COUNT && pages[n] != 0
        invariant n <= RX_BUF_COUNT && Valid() && DescsOk() && driver == Idle
        invariant log == old(log).(pool := n, published := Numbers(n), completed := log.completed, taken := log.taken)
        invariant forall i :: 0 <= i < n ==> pages[i] != 0
        invariant bufferAddr[..n] == pages[..n]
      {
        var k := n;
        AddBuffer(n, pages[n], (i: nat) => device(2 * k + i));
        assert Numbers(n + 1) == Numbers(n) + [n];
        n := n + 1;
      }
    }

    /** Reads the used element; the device may act between the test and each read. */
    method ReadUsed(device: nat -> seq<Event>) returns (id: nat, len: nat)
      requires Valid() && log.consumed < |log.completed|
      modifies this, usedId, usedLen, buffers
      ensures Valid() && bufferAddr == old(bufferAddr) && DeviceOnly(old(State()), State())
      ensures log.consumed < |log.completed| && id == log.completed[log.consumed].id
      ensures len == |log.completed[log.consumed].data|
    {
      hide Inv, Slot, DeviceOnly;
      ghost var w := State();
      DeviceRuns(device(1));
      PickLater(w, State());
      id := usedId[Slot(lastUsed)];
      ghost var v := State();
      DeviceRuns(device(2));
      DeviceOnlyTransitive(w, v, State());
      PickLater(w, State());
      len := usedLen[Slot(lastUsed)];
      v := State();
      DeviceRuns(device(3));
      DeviceOnlyTransitive(w, v, State());
      PickLater(w, State());
    }

    /** Picks up the oldest completion not seen yet. */
    method PickUsed(device: nat -> seq<Event>) returns (found: bool, id: nat, len: nat)
      requires Valid() && driver == Idle
      modifies this, usedId, usedLen, buffers
      ensures Valid() && bufferAddr == old(bufferAddr) && Picked(old(log), log, found)
      ensures found ==> var c := log.completed[log.consumed - 1];
        id == c.id < RX_BUF_COUNT && len == |c.data| && driver == if len <= NET_HEADER then Idle else Holding(id, len)
      ensures !found ==> driver == Idle
    {
      hide Inv, Slot, Next16, Step, DeviceOnly, Enabled;
      found, id, len := false, 0, 0;
      ghost var w := State();
      DeviceRuns(device(0));
      LogsGrow(w, State());
      PickEnabled(State());
      if usedIdx == lastUsed { return; }
      w := State();
      found := true;
      id, len := ReadUsed(device);
      LogsGrow(w, State());
      w := State();
      PickWithRead(w, id, len);
      CountPicked(id, len);
    }

    /** Steps past the element just read. */
    method CountPicked(id: nat, len: nat)
      modifies this`lastUsed, this`log, this`driver
      ensures State() == PickedWorld(old(State()), id, len)
    {
      hide Next16;
      lastUsed := Next16(lastUsed);
      if len <= NET_HEADER {
        log := log.(consumed := log.consumed + 1, lost := log.lost + multiset{id});
      } else {
        log := log.(consumed := log.consumed + 1);
        driver := Holding(id, len);
      }
    }

    /** Copies the packet without its header while the device carries on. */
    method CopyPacket(id: nat, dataLen: nat, device: nat -> seq<Event>) returns (packet: seq<u8>)
      requires Valid() && driver.Holding? && driver.id == id && NET_HEADER < driver.len
      requires dataLen + NET_HEADER <= driver.len
      modifies this, usedId, usedLen, buffers
      ensures Valid() && bufferAddr == old(bufferAddr) && DeviceOnly(old(State()), State())
      ensures packet == log.completed[log.consumed - 1].data[NET_HEADER..NET_HEADER + dataLen]
    {
      hide Inv, DeviceOnly;
      ghost var w := State();
      DeviceOnlyReflexive(w);
      CopyLater(w, w, NET_HEADER);
      ghost var data := log.completed[log.consumed - 1].data;
      packet := [];
      for i := 0 to dataLen
        invariant Valid() && bufferAddr == old(bufferAddr) && DeviceOnly(w, State())
        invariant packet == data[NET_HEADER..NET_HEADER + i]
      {
        ghost var v := State();
        CopyLater(w, v, NET_HEADER + i);
        packet := packet + [buffers[id][NET_HEADER + i]];
        DeviceRuns(device(4 + i));
        DeviceOnlyTransitive(w, v, State());
      }
      CopyLater(w, State(), NET_HEADER);
    }

    /** Puts the buffer back: the slot first, the index after it. */
    method Recycle(id: nat, device: nat -> seq<Event>)
      requires Valid() && DescsOk() && driver.Holding? && driver.id == id && id < RX_BUF_COUNT
      modifies this, desc, availRing, usedId, usedLen, buffers
      ensures Valid() && DescsOk() && driver == Idle && bufferAddr == old(bufferAddr)
      ensures old(log.completed) <= log.completed
      ensures log == old(log).(completed := log.completed, taken := log.taken, published := old(log.published) + [id])
    {
      hide Inv, Slot, Next16, DeviceOnly;
      desc[id] := desc[id].(addr := bufferAddr[id], len := PAGE_SIZE, flags := DESC_F_WRITE);
      ghost var w := State();
      StepKeeps(w, DriverStages);
      availRing[Slot(availIdx)] := id;
      driver := Staged(id);
      assert State() == Step(w, DriverStages);
      w := State();
      DeviceRuns(device(0));
      LogsGrow(w, State());
      PublishStaged(id, device(1));
    }

    /** One call of receive, whatever the device does meanwhile. */
    method Receive(bufSize: nat, device: nat -> seq<Event>) returns (packet: Option<seq<u8>>)
      requires Valid() && DescsOk() && driver == Idle
      modifies this, desc, availRing, usedId, usedLen, buffers
      ensures Valid() && DescsOk() && driver == Idle && bufferAddr == old(bufferAddr)
      ensures Received(old(log), log, bufSize, packet)
    {
      hide Inv, DeviceOnly;
      ghost var w := State();
      PickEnabled(w);
      var found, id, len := PickUsed(device);
      if !found || len <= NET_HEADER {
        return None;
      }
      var dataLen := Min(len - NET_HEADER, bufSize);
      w := State();
      var copied := CopyPacket(id, dataLen, device);
      LogsGrow(w, State());
      Recycle(id, (n: nat) => device(4 + dataLen + n));
      packet := Some(copied);
    }
  }
}
