/**
  The connection block of src/net/tcp.cpp as it is updated in place: the receive ring, the retransmission buffer and
  the sequence variables.  Each method changes the block as the state machine of module Tcp says.
 */
module TcpSocket {
  import opened Machine
  import opened Tcp
  import opened TcpWire
  import Checksum

  /** The ring cell of a position. */
  function Cell(i: nat): (k: nat)
    ensures k < TCP_BUF_SIZE
  {
    i % TCP_BUF_SIZE
  }

  /** The bytes in the ring, oldest first. */
  function Ring(buf: seq<u8>, tail: nat, count: nat): (s: seq<u8>)
    requires |buf| == TCP_BUF_SIZE
    ensures |s| == count
  {
    seq(count, i requires 0 <= i < count => buf[Cell(tail + i)])
  }

  lemma CellsApart(tail: nat, i: nat, j: nat)
    requires i < j < i + TCP_BUF_SIZE
    ensures Cell(tail + i) != Cell(tail + j)
  {
  }

  lemma CellAdd(a: nat, i: nat)
    ensures Cell(Cell(a) + i) == Cell(a + i)
  {
  }

  lemma TailIsCell(tail: nat)
    requires tail < TCP_BUF_SIZE
    ensures Cell(tail) == tail
  {
  }

  lemma RingPush(buf: seq<u8>, tail: nat, count: nat, x: u8)
    requires |buf| == TCP_BUF_SIZE && count < TCP_BUF_SIZE
    ensures Ring(buf[Cell(tail + count) := x], tail, count + 1) == Ring(buf, tail, count) + [x]
  {
    hide Cell;
    var after := Ring(buf[Cell(tail + count) := x], tail, count + 1);
    forall i | 0 <= i < count ensures after[i] == Ring(buf, tail, count)[i] {
      CellsApart(tail, i, count);
    }
  }

  lemma RingPop(buf: seq<u8>, tail: nat, count: nat)
    requires |buf| == TCP_BUF_SIZE && count > 0
    ensures Ring(buf, tail, count) == [buf[Cell(tail)]] + Ring(buf, Cell(tail + 1), count - 1)
  {
    hide Cell;
    var rest := Ring(buf, Cell(tail + 1), count - 1);
    forall i | 0 <= i < count - 1 ensures rest[i] == Ring(buf, tail, count)[i + 1] {
      CellAdd(tail + 1, i);
      assert tail + 1 + i == tail + (i + 1);
    }
    assert Ring(buf, tail, count)[0] == buf[Cell(tail + 0)];
  }

  datatype Arrival = Arrival(seg: Segment, now: nat, ok: bool)

  /** What one poll brings in, and the clock and the link at the retransmission check after it. */
  datatype Round = Round(arrivals: seq<Arrival>, now: nat, ok: bool)

  ghost predicate AllFromPeer(arrivals: seq<Arrival>, irs: nat, stream: seq<u8>)
  {
    forall i :: 0 <= i < |arrivals| ==> FromPeer(arrivals[i].seg, irs, stream)
  }

  ghost predicate RoundsFromPeer(rounds: nat -> Round, irs: nat, stream: seq<u8>)
  {
    forall i: nat :: AllFromPeer(rounds(i).arrivals, irs, stream)
  }

  /** A u32 returned as an i32. */
  function ToI32(n: nat): (r: int)
  {
    var m := n % U32;
    if m < 0x8000_0000 then m else m - U32
  }

  const IP_HEADERS: nat := 34          // Ethernet and IPv4

  lemma Wired(wire: seq<seq<u8>>, log: seq<Sent>, ep: Endpoint)
    requires OnWire(wire, log, ep)
    ensures Addressed(ep) && |wire| == |log|
  {
  }

  lemma NothingSent(ep: Endpoint)
    requires Addressed(ep)
    ensures OnWire([], [], ep)
  {
  }

  lemma WireNext(wire: seq<seq<u8>>, log: seq<Sent>, ep: Endpoint, b: seq<u8>, s: Sent)
    requires OnWire(wire, log, ep) && Carried(b, s.seg, ep)
    ensures OnWire(wire + [b], log + [s], ep)
  {
    hide Carried;
  }

  class TcpConnection {
    var active: bool
    var state: State
    var sndNxt: u32
    var sndUna: u32
    var rcvNxt: u32
    const rxBuf: array<u8>
    var rxHead: nat
    var rxTail: nat
    var rxCount: nat
    const txBuf: array<u8>
    var txLen: nat
    var txSeq: u32
    var retransmitTick: nat
    var retransmitCount: nat
    var endpoint: Endpoint
    var wire: seq<seq<u8>>               // packets the link took
    ghost var log: seq<Sent>
    ghost var delivered: seq<u8>

    ghost predicate Valid()
      reads this
    {
      && rxBuf.Length == txBuf.Length == TCP_BUF_SIZE && rxBuf != txBuf && txLen <= TCP_BUF_SIZE
      && rxCount <= TCP_BUF_SIZE && rxTail < TCP_BUF_SIZE && rxHead == Cell(rxTail + rxCount)
      && OnWire(wire, log, endpoint)
    }

    ghost function World(): (w: World)
      requires Valid()
      reads this, rxBuf, txBuf
      ensures Sized(w.c)
    {
      Tcp.World.World(
        Conn(active, state, sndNxt, sndUna, rcvNxt, Ring(rxBuf[..], rxTail, rxCount), txBuf[..], txLen, txSeq,
            retransmitTick, retransmitCount),
        log, delivered)
    }

    /** A cleared connection block, as open() leaves it. */
    constructor (endpoint: Endpoint)
      requires Addressed(endpoint)
      ensures Valid() && this.endpoint == endpoint && fresh(rxBuf) && fresh(txBuf)
      ensures active && state == Closed && World().c.rx == [] && log == [] && delivered == []
    {
      rxBuf := new u8[TCP_BUF_SIZE](_ => 0);
      txBuf := new u8[TCP_BUF_SIZE](_ => 0);
      active, state := true, Closed;
      sndNxt, sndUna, rcvNxt, rxHead, rxTail, rxCount := 0, 0, 0, 0, 0, 0;
      txLen, txSeq, retransmitTick, retransmitCount := 0, 0, 0, 0;
      this.endpoint, wire, log, delivered := endpoint, [], [], [];
    }

    method CopyToTx(data: seq<u8>)
      requires Valid() && |data| <= TCP_BUF_SIZE
      modifies txBuf
      ensures txBuf[..] == data + old(txBuf[..])[|data|..]
    {
      for i := 0 to |data|
        invariant txBuf[..i] == data[..i] && txBuf[i..] == old(txBuf[..])[i..]
      {
        txBuf[i] := data[i];
      }
    }

    /** Keeps the payload of an accepted segment for retransmission and counts its bytes. */
    method SaveData(data: seq<u8>, now: nat)
      requires Valid() && |data| <= TCP_BUF_SIZE
      modifies this`sndNxt, this`txLen, this`txSeq, this`retransmitTick, this`retransmitCount, txBuf
      ensures Valid() && World() == old(World()).(c := Saved(old(World()).c, DATA, data, now))
    {
      hide Wrap, Ring, Cell, OnWire, Sized;
      ZeroWeight(World().c);
      if |data| > 0 {
        CopyToTx(data);
        txLen := |data|;
        txSeq := Wrap(sndNxt - |data|);
        retransmitTick := now + RETRANSMIT_TICKS;
        retransmitCount := 0;
        sndNxt := Wrap(sndNxt + |data|);
      }
    }

    /** Builds the segment from the block; the link takes it if it fits a frame and `ok` says so. */
    method SendTcpSegment(flags: Flags, data: seq<u8>, ghost isNew: bool, now: nat, ok: bool) returns (sent: bool)
      requires Valid() && |data| <= TCP_BUF_SIZE
      modifies this, txBuf
      ensures Valid() && World() == SendSegment(old(World()), flags, data, isNew, now, ok)
      ensures sent == (ok && Fits(data)) && endpoint == old(endpoint)
      ensures old(wire) <= wire && |wire| == |old(wire)| + if sent then 1 else 0
      ensures sent ==> Carried(wire[|old(wire)|], Build(old(World()).c, flags, data), endpoint)
      ensures sent ==> Laid(wire[|old(wire)|], endpoint.ports,
                            Segment(old(sndNxt), old(rcvNxt), flags, TCP_BUF_SIZE - old(rxCount), data))
      ensures rxTail == old(rxTail) && rxCount == old(rxCount) && rxHead == old(rxHead)
    {
      hide Wrap, Ring, Cell, Saved, OnWire, Parse, Sized, Laid, Verifies;
      ghost var w := World();
      Wired(wire, log, endpoint);
      var seg := Segment(sndNxt, rcvNxt, flags, TCP_BUF_SIZE - rxCount, data);
      var bytes := BuildSegment(endpoint.ports, seg, endpoint.local, endpoint.remote);
      sent := ok && IP_HEADERS + |bytes| <= MAX_PACKET;
      if sent {
        Transmit(bytes, Sent(seg, isNew, state, |Received(w)|, TCP_BUF_SIZE - rxCount));
        CountFlags(flags);
        SavedInTwo(w.c, flags, data, now);
        SaveData(data, now);
      }
    }

    /** The link took the packet. */
    method Transmit(bytes: seq<u8>, ghost s: Sent)
      requires Valid() && Carried(bytes, s.seg, endpoint)
      modifies this`wire, this`log
      ensures Valid() && wire == old(wire) + [bytes] && World() == old(World()).(log := old(log) + [s])
    {
      hide Ring, Cell, OnWire, Carried;
      WireNext(wire, log, endpoint, bytes, s);
      wire := wire + [bytes];
      log := log + [s];
    }

    /** SYN and FIN each take a sequence number. */
    method CountFlags(flags: Flags)
      requires Valid()
      modifies this`sndNxt
      ensures World() == old(World()).(c := old(World()).c.(sndNxt := Wrap(old(sndNxt) + Weight(flags, 0))))
    {
      hide Wrap, Ring, Cell, OnWire, Sized;
      WrapSum(sndNxt + 1, 1);
      ZeroWeight(World().c);
      if flags.syn { sndNxt := Wrap(sndNxt + 1); }
      if flags.fin { sndNxt := Wrap(sndNxt + 1); }
    }

    /** Copies the first `copy` bytes into the ring at its head. */
    method BufferBytes(data: seq<u8>, copy: nat)
      requires Valid() && copy <= |data| && rxCount + copy <= TCP_BUF_SIZE
      modifies this`rxHead, this`rxCount, rxBuf
      ensures Valid() && rxCount == old(rxCount) + copy
      ensures Ring(rxBuf[..], rxTail, rxCount) == old(Ring(rxBuf[..], rxTail, rxCount)) + data[..copy]
    {
      hide Cell, OnWire, Sized;
      ghost var before := Ring(rxBuf[..], rxTail, rxCount);
      for i := 0 to copy
        invariant rxCount == old(rxCount) && rxHead == Cell(rxTail + rxCount + i)
        invariant Ring(rxBuf[..], rxTail, rxCount + i) == before + data[..i]
      {
        RingPush(rxBuf[..], rxTail, rxCount + i, data[i]);
        CellAdd(rxTail + rxCount + i, 1);
        ghost var buf := rxBuf[..];
        rxBuf[rxHead] := data[i];
        assert rxBuf[..] == buf[rxHead := data[i]];
        rxHead := Cell(rxHead + 1);
      }
      rxCount := rxCount + copy;
    }

    /** Takes the oldest `copy` bytes out of the ring. */
    method CopyOut(copy: nat) returns (bytes: seq<u8>)
      requires Valid() && copy <= rxCount
      modifies this`rxTail, this`rxCount, this`delivered
      ensures Valid() && |bytes| == copy && World() == Read(old(World()), copy) && delivered == old(delivered) + bytes
    {
      hide Cell, Ring, OnWire, Sized;
      ghost var w := World();
      ghost var before := w.c.rx;
      bytes := [];
      for i := 0 to copy
        invariant rxTail < TCP_BUF_SIZE && rxCount == old(rxCount) && rxHead == Cell(rxTail + (rxCount - i))
        invariant delivered == old(delivered)
        invariant bytes == before[..i] && Ring(rxBuf[..], rxTail, rxCount - i) == before[i..]
      {
        RingPop(rxBuf[..], rxTail, rxCount - i);
        TailIsCell(rxTail);
        CellAdd(rxTail + 1, rxCount - i - 1);
        bytes := bytes + [rxBuf[rxTail]];
        rxTail := Cell(rxTail + 1);
        assert before[i..][1..] == before[i + 1..];
      }
      rxCount := rxCount - copy;
      delivered := delivered + bytes;
      assert before[copy..] == Ring(rxBuf[..], rxTail, rxCount);
      assert World() == Read(w, copy);
    }

    /** The step shared by four states: number `seqNum` is taken, the state changes and an ACK goes out. */
    method Acknowledge(seqNum: u32, next: State, now: nat, ok: bool)
      requires Valid()
      modifies this, rxBuf, txBuf
      ensures Valid() && endpoint == old(endpoint)
      ensures var w := old(World());
        World() == SendSegment(w.(c := w.c.(rcvNxt := Wrap(seqNum + 1), state := next)), ACK, [], false, now, ok)
    {
      hide Wrap, Cell, Ring, SendSegment, OnWire, Carried, Laid, Build, Sized;
      rcvNxt := Wrap(seqNum + 1);
      state := next;
      var _ := SendTcpSegment(ACK, [], false, now, ok);
    }

    /** Segments for an established connection. */
    method EstablishedInput(seg: Segment, now: nat, ok: bool)
      requires Valid() && active && state == Established
      modifies this, rxBuf, txBuf
      ensures Valid() && endpoint == old(endpoint) && World() == Input(old(World()), seg, now, ok)
    {
      hide Wrap, Cell, Ring, SendSegment, OnWire, Carried, Laid, Build, Sized;
      if seg.flags.fin {
        Acknowledge(seg.seqNum, CloseWait, now, ok);
      } else {
        if seg.flags.ack { sndUna := seg.ackNum; }
        if |seg.payload| > 0 && seg.seqNum == rcvNxt {
          var copy := Min(|seg.payload|, TCP_BUF_SIZE - rxCount);
          BufferBytes(seg.payload, copy);
          rcvNxt := Wrap(rcvNxt + copy);
          var _ := SendTcpSegment(ACK, [], false, now, ok);
        }
      }
    }

    /** tcp_input once it has found this connection. */
    method TcpInput(seg: Segment, now: nat, ok: bool)
      requires Valid()
      modifies this, rxBuf, txBuf
      ensures Valid() && endpoint == old(endpoint) && World() == Input(old(World()), seg, now, ok)
    {
      hide Wrap, Cell, Ring, SendSegment, OnWire, Carried, Laid, Build, Sized;
      if !active { return; }
      match state
      case SynSent =>
        if seg.flags.syn && seg.flags.ack {
          sndUna := seg.ackNum;
          Acknowledge(seg.seqNum, Established, now, ok);
        }
      case SynReceived =>
        if seg.flags.ack {
          sndUna := seg.ackNum;
          state := Established;
        }
      case Established =>
        EstablishedInput(seg, now, ok);
      case FinWait1 =>
        if seg.flags.ack {
          sndUna := seg.ackNum;
          if seg.flags.fin {
            Acknowledge(seg.seqNum, TimeWait, now, ok);
          } else {
            state := FinWait2;
          }
        }
      case FinWait2 =>
        if seg.flags.fin {
          Acknowledge(seg.seqNum, TimeWait, now, ok);
        }
      case LastAck =>
        if seg.flags.ack {
          active := false;
          state := Closed;
        }
      case _ =>
    }

    method CheckRetransmits(now: nat, ok: bool)
      requires Valid()
      modifies this, txBuf
      ensures Valid() && endpoint == old(endpoint) && World() == CheckRetransmit(old(World()), now, ok)
    {
      hide Wrap, Cell, Ring, SendSegment, Shl, OnWire, Carried, Laid, Build, Sized;
      if !active || state != Established || txLen == 0 { return; }
      if sndUna >= Wrap(txSeq + txLen) {
        txLen := 0;
        return;
      }
      if now >= retransmitTick {
        if retransmitCount >= MAX_RETRANSMITS {
          state := Closed;
          active := false;
          return;
        }
        AckedInside(World().c);
        Resend(if sndUna > txSeq then sndUna - txSeq else 0, now, ok);
      }
    }

    /** Sends the unacknowledged bytes again, with snd_nxt rewound for the header only. */
    method Resend(acked: nat, now: nat, ok: bool)
      requires Valid() && acked < txLen
      modifies this, txBuf
      ensures Valid() && endpoint == old(endpoint) && var w := old(World());
        var resent := SendSegment(w.(c := w.c.(sndNxt := w.c.sndUna)), DATA, w.c.tx[acked..w.c.txLen], false, now, ok);
        var n := resent.c.count + 1;
        World() == resent.(c := resent.c.(sndNxt := w.c.sndNxt, count := n, tick := now + RETRANSMIT_TICKS * Shl(1, n)))
    {
      hide Wrap, Cell, Ring, SendSegment, Shl, OnWire, Carried, Laid, Build, Sized;
      var saved := sndNxt;
      sndNxt := sndUna;
      var _ := SendTcpSegment(DATA, txBuf[acked..txLen], false, now, ok);
      sndNxt := saved;
      retransmitCount := retransmitCount + 1;
      retransmitTick := now + RETRANSMIT_TICKS * Shl(1, retransmitCount);
    }

    method Shutdown(now: nat, ok: bool)
      requires Valid()
      modifies this, txBuf
      ensures Valid() && endpoint == old(endpoint) && World() == Close(old(World()), now, ok)
    {
      hide Wrap, Cell, Ring, SendSegment, OnWire, Carried, Laid, Build, Sized;
      if !active { return; }
      if state == Established {
        var _ := SendTcpSegment(FIN_ACK, [], true, now, ok);
        state := FinWait1;
      } else if state == CloseWait {
        var _ := SendTcpSegment(FIN_ACK, [], true, now, ok);
        state := LastAck;
      } else {
        active := false;
        state := Closed;
      }
    }

    /** connect() up to its first poll. */
    method StartConnect(endpoint: Endpoint, now: nat, ok: bool)
      requires Valid() && Addressed(endpoint)
      modifies this, txBuf
      ensures Valid() && this.endpoint == endpoint && World() == Connect(old(World()).c, now, ok)
    {
      hide Wrap, Cell, Ring, SendSegment, OnWire, Carried, Laid, Build, Sized;
      ghost var c := World().c.(state := SynSent, sndNxt := INITIAL_SEQ, sndUna := INITIAL_SEQ, rcvNxt := 0);
      this.endpoint, wire, log, delivered := endpoint, [], [], [];
      NothingSent(endpoint);
      sndNxt := INITIAL_SEQ;
      sndUna := sndNxt;
      rcvNxt := 0;
      state := SynSent;
      assert World() == Tcp.World.World(c, [], []);
      var _ := SendTcpSegment(SYN, [], true, now, ok);
    }

    /** tcp_input when a SYN for a listening port takes this free slot. */
    method StartPassive(endpoint: Endpoint, irs: u32, now: nat, ok: bool)
      requires Valid() && !active && Addressed(endpoint)
      modifies this, txBuf
      ensures Valid() && this.endpoint == endpoint && World() == PassiveOpen(old(World()).c, irs, now, ok)
    {
      hide Wrap, Cell, Ring, SendSegment, OnWire, Carried, Laid, Build, Sized;
      ghost var c := World().c;
      c := c.(active := true, state := SynReceived, rcvNxt := Wrap(irs + 1), sndNxt := INITIAL_SEQ,
          sndUna := INITIAL_SEQ, rx := []);
      this.endpoint, wire, log, delivered := endpoint, [], [], [];
      NothingSent(endpoint);
      active := true;
      state := SynReceived;
      rcvNxt := Wrap(irs + 1);
      sndNxt := INITIAL_SEQ;
      sndUna := sndNxt;
      rxHead, rxTail, rxCount := 0, 0, 0;
      TailIsCell(0);
      assert World() == Tcp.World.World(c, [], []);
      var _ := SendTcpSegment(SYN_ACK, [], true, now, ok);
    }

    /** One poll: what arrives for this connection is put through tcp_input. */
    method Poll(arrivals: seq<Arrival>, ghost irs: nat, ghost stream: seq<u8>) returns (ghost es: seq<Event>)
      requires Valid()
      modifies this, rxBuf, txBuf
      ensures Valid() && endpoint == old(endpoint) && Quiet(old(World()), World()) && Ran(old(World()), World(), es)
      ensures AllFromPeer(arrivals, irs, stream) ==> FromNetwork(es, irs, stream)
    {
      hide Wrap, Cell, Ring, Input, Quiet, Execute, FromPeer, OnWire, Sized;
      ghost var w := World();
      QuietReflexive(w);
      es := [];
      RanNothing(w);
      for i := 0 to |arrivals|
        invariant Valid() && endpoint == old(endpoint) && Quiet(w, World()) && Ran(w, World(), es)
        invariant AllFromPeer(arrivals, irs, stream) ==> FromNetwork(es, irs, stream)
      {
        ghost var v, a := World(), arrivals[i];
        QuietArrives(v, a.seg, a.now, a.ok);
        RanStep(w, v, es, Arrives(a.seg, a.now, a.ok));
        TcpInput(arrivals[i].seg, arrivals[i].now, arrivals[i].ok);
        QuietTransitive(w, v, World());
        es := es + [Arrives(a.seg, a.now, a.ok)];
      }
    }

    method PollAndCheck(r: Round, ghost irs: nat, ghost stream: seq<u8>) returns (ghost es: seq<Event>)
      requires Valid()
      modifies this, rxBuf, txBuf
      ensures Valid() && endpoint == old(endpoint) && Quiet(old(World()), World()) && Ran(old(World()), World(), es)
      ensures AllFromPeer(r.arrivals, irs, stream) ==> FromNetwork(es, irs, stream)
    {
      hide Wrap, Cell, Ring, CheckRetransmit, Quiet, Execute, FromPeer, OnWire, Sized;
      ghost var w := World();
      es := Poll(r.arrivals, irs, stream);
      ghost var v := World();
      QuietChecks(v, r.now, r.ok);
      RanStep(w, v, es, Checks(r.now, r.ok));
      CheckRetransmits(r.now, r.ok);
      QuietTransitive(w, v, World());
      es := es + [Checks(r.now, r.ok)];
    }

    method PollRounds(rounds: nat -> Round, ghost irs: nat, ghost stream: seq<u8>) returns (ghost es: seq<Event>)
      requires Valid()
      modifies this, rxBuf, txBuf
      ensures Valid() && endpoint == old(endpoint) && Quiet(old(World()), World()) && Ran(old(World()), World(), es)
      ensures RoundsFromPeer(rounds, irs, stream) ==> FromNetwork(es, irs, stream)
    {
      hide Quiet, Cell, Ring, Execute, FromNetwork, AllFromPeer, Ran, OnWire, Sized;
      ghost var w := World();
      QuietReflexive(w);
      es := [];
      RanNothing(w);
      NetworkNothing(irs, stream);
      for i := 0 to 10000
        invariant Valid() && endpoint == old(endpoint) && Quiet(w, World()) && Ran(w, World(), es)
        invariant RoundsFromPeer(rounds, irs, stream) ==> FromNetwork(es, irs, stream)
      {
        ghost var v := World();
        ghost var fs := PollAndCheck(rounds(i), irs, stream);
        QuietTransitive(w, v, World());
        RanOn(w, v, World(), es, fs);
        NetworkConcat(es, fs, irs, stream);
        es := es + fs;
      }
    }

    /** send(): chunks of at most MSS bytes, with segments arriving and retransmissions going out in between. */
    method Send(data: seq<u8>,
                link: nat -> (nat, bool), rounds: nat -> nat -> Round, ghost irs: nat, ghost stream: seq<u8>)
      returns (result: int, ghost sent: nat, ghost es: seq<Event>)
      requires Valid() && |data| < U32
      modifies this, rxBuf, txBuf
      ensures Valid() && endpoint == old(endpoint) && sent <= |data| && Ran(old(World()), World(), es)
      ensures old(state) != Established ==> result == -1 && sent == 0 && es == []
      ensures old(state) == Established ==> result == ToI32(sent) && ((forall k :: link(k).1) ==> sent == |data|)
      ensures old(log) <= log && SentInOrder(log[|old(log)|..], old(sndNxt), data[..sent])
      ensures sndNxt == Wrap(old(sndNxt) + sent)
      ensures (forall k :: RoundsFromPeer(rounds(k), irs, stream)) ==> FromNetwork(es, irs, stream)
    {
      hide Wrap, Cell, Ring, SendSegment, Quiet, SentInOrder, Execute, FromNetwork, RoundsFromPeer, Ran, OnWire, Sized;
      hide Carried, Laid, Build;
      ghost var w, start, from := World(), sndNxt, |log|;
      StartsEmpty(log, sndNxt);
      RanNothing(w);
      NetworkNothing(irs, stream);
      sent, es := 0, [];
      if state != Established { return -1, 0, []; }
      var k, done := 0, 0;
      while done < |data|
        invariant Valid() && endpoint == old(endpoint) && done <= |data| && old(log) <= log && Ran(w, World(), es)
        invariant SentInOrder(log[from..], start, data[..done]) && sndNxt == Wrap(start + done)
        invariant (forall k :: RoundsFromPeer(rounds(k), irs, stream)) ==> FromNetwork(es, irs, stream)
        decreases |data| - done
      {
        var chunk := Min(|data| - done, MSS);
        var piece := data[done..done + chunk];
        ghost var v := World();
        ghost var e := Writes(piece, link(k).0, link(k).1);
        ChunkExtendsOrder(v, from, start, data[..done], piece, link(k).0, link(k).1);
        RanStep(w, v, es, e);
        NetworkWrites(es, e, irs, stream);
        es := es + [e];
        var ok := SendTcpSegment(DATA, piece, true, link(k).0, link(k).1);
        if !ok {
          assert !link(k).1;
          break;
        }
        assert data[..done] + piece == data[..done + chunk];
        done := done + chunk;
        v := World();
        ghost var fs := PollRounds(rounds(k), irs, stream);
        QuietKeepsOrder(v, World(), from, start, data[..done]);
        RanOn(w, v, World(), es, fs);
        NetworkConcat(es, fs, irs, stream);
        es := es + fs;
        k := k + 1;
      }
      sent := done;
      result := ToI32(done);
    }

    /** recv(): waits for data, then hands out the oldest bytes of the ring. */
    method Recv(len: nat, rounds: nat -> Round, ghost irs: nat, ghost stream: seq<u8>)
      returns (bytes: seq<u8>, ghost es: seq<Event>)
      requires Valid()
      modifies this, rxBuf, txBuf
      ensures Valid() && endpoint == old(endpoint) && Ran(old(World()), World(), es + [Reads(len)])
      ensures |bytes| <= len && delivered == old(delivered) + bytes
      ensures RoundsFromPeer(rounds, irs, stream) ==> FromNetwork(es, irs, stream)
    {
      hide Wrap, Cell, Ring, Quiet, Execute, FromNetwork, AllFromPeer, Ran, OnWire, Sized;
      ghost var w := World();
      es := [];
      RanNothing(w);
      NetworkNothing(irs, stream);
      var timeout := 0;
      while timeout < 1000000 && rxCount == 0
        invariant Valid() && endpoint == old(endpoint) && Ran(w, World(), es) && delivered == old(delivered)
        invariant RoundsFromPeer(rounds, irs, stream) ==> FromNetwork(es, irs, stream)
        decreases 1000000 - timeout
      {
        ghost var v := World();
        ghost var fs := PollAndCheck(rounds(timeout), irs, stream);
        QuietDelivers(v, World());
        RanOn(w, v, World(), es, fs);
        NetworkConcat(es, fs, irs, stream);
        es := es + fs;
        if state != Established && state != CloseWait {
          break;
        }
        timeout := timeout + 1;
      }
      RanStep(w, World(), es, Reads(len));
      bytes := CopyOut(Min(rxCount, len));
    }
  }
}
