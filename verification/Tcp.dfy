/**
  One TCP connection of src/net/tcp.cpp as a state machine.

  The network decides which segments arrive, in which order and how often, and whether each segment sent is accepted
  by the link.  The log records every accepted segment, with what the connection had received when it was built.
 */
module Tcp {
  import opened Machine

  const TCP_BUF_SIZE: nat := 8192
  const MSS: nat := 1460
  const HEADERS: nat := 54
  const MAX_PACKET: nat := 1518
  const INITIAL_SEQ: nat := 1000
  const RETRANSMIT_TICKS: nat := 200
  const MAX_RETRANSMITS: nat := 5

  datatype State =
    | Closed | Listen | SynSent | SynReceived | Established | FinWait1 | FinWait2
    | CloseWait | Closing | LastAck | TimeWait

  datatype Flags = Flags(fin: bool, syn: bool, ack: bool, psh: bool)

  const ACK: Flags := Flags(false, false, true, false)
  const DATA: Flags := Flags(false, false, true, true)
  const SYN: Flags := Flags(false, true, false, false)
  const SYN_ACK: Flags := Flags(false, true, true, false)
  const FIN_ACK: Flags := Flags(true, false, true, false)

  datatype Segment = Segment(seqNum: u32, ackNum: u32, flags: Flags, window: nat, payload: seq<u8>)

  /** `rx` is what the receive ring holds, `tx` the whole retransmission buffer. */
  datatype Conn = Conn(
    active: bool, state: State, sndNxt: u32, sndUna: u32, rcvNxt: u32, rx: seq<u8>,
    tx: seq<u8>, txLen: nat, txSeq: u32, tick: nat, count: nat)

  /** An accepted segment; whether it carries new data; and the connection's state when it was built. */
  datatype Sent = Sent(seg: Segment, isNew: bool, state: State, received: nat, free: int)

  datatype World = World(c: Conn, log: seq<Sent>, delivered: seq<u8>)

  datatype Event =
    | Arrives(seg: Segment, now: nat, ok: bool)
    | Checks(now: nat, ok: bool)
    | Writes(chunk: seq<u8>, now: nat, ok: bool)
    | Reads(len: nat)
    | Closes(now: nat, ok: bool)

  /** Sequence numbers are 32 bits wide. */
  function Wrap(x: int): (r: u32)
  {
    x % U32
  }

  /** Everything received so far: returned by recv, then still in the ring. */
  function Received(w: World): (s: seq<u8>) { w.delivered + w.c.rx }

  predicate Sized(c: Conn)
  {
    |c.rx| <= TCP_BUF_SIZE && |c.tx| == TCP_BUF_SIZE && c.txLen <= TCP_BUF_SIZE
  }

  // ------------------------------------------------------------ operations

  function Weight(flags: Flags, len: nat): (n: nat)
  {
    (if flags.syn then 1 else 0) + (if flags.fin then 1 else 0) + len
  }

  /** What a successful send saves for retransmission. */
  function Saved(c: Conn, flags: Flags, data: seq<u8>, now: nat): (r: Conn)
    requires |data| <= |c.tx|
  {
    var n := Wrap(c.sndNxt + Weight(flags, 0));
    if data == [] then c.(sndNxt := n)
    else c.(tx := data + c.tx[|data|..], txLen := |data|, txSeq := Wrap(n - |data|),
            tick := now + RETRANSMIT_TICKS, count := 0, sndNxt := Wrap(n + |data|))
  }

  predicate Fits(data: seq<u8>) { HEADERS + |data| <= MAX_PACKET }

  function Build(c: Conn, flags: Flags, data: seq<u8>): (s: Segment)
    requires |c.rx| <= TCP_BUF_SIZE
  {
    Segment(c.sndNxt, c.rcvNxt, flags, TCP_BUF_SIZE - |c.rx|, data)
  }

  function SendSegment(w: World, flags: Flags, data: seq<u8>, isNew: bool, now: nat, ok: bool): (r: World)
    requires Sized(w.c)
    ensures Sized(r.c)
  {
    if ok && Fits(data) then
      var sent := Sent(Build(w.c, flags, data), isNew, w.c.state, |Received(w)|, TCP_BUF_SIZE - |w.c.rx|);
      World(Saved(w.c, flags, data, now), w.log + [sent], w.delivered)
    else w
  }

  function ToState(w: World, state: State): (r: World) { w.(c := w.c.(state := state)) }

  function Input(w: World, seg: Segment, now: nat, ok: bool): (r: World)
    requires Sized(w.c)
    ensures Sized(r.c)
  {
    var c := w.c;
    if !c.active then w else
    match c.state
    case SynSent =>
      if seg.flags.syn && seg.flags.ack then
        var c1 := c.(rcvNxt := Wrap(seg.seqNum + 1), sndUna := seg.ackNum, state := Established);
        SendSegment(w.(c := c1), ACK, [], false, now, ok)
      else w
    case SynReceived =>
      if seg.flags.ack then w.(c := c.(sndUna := seg.ackNum, state := Established)) else w
    case Established =>
      if seg.flags.fin then
        SendSegment(w.(c := c.(rcvNxt := Wrap(seg.seqNum + 1), state := CloseWait)), ACK, [], false, now, ok)
      else
        var c1 := if seg.flags.ack then c.(sndUna := seg.ackNum) else c;
        if seg.payload != [] && seg.seqNum == c1.rcvNxt then
          var copy := Min(|seg.payload|, TCP_BUF_SIZE - |c1.rx|);
          var c2 := c1.(rx := c1.rx + seg.payload[..copy], rcvNxt := Wrap(c1.rcvNxt + copy));
          SendSegment(w.(c := c2), ACK, [], false, now, ok)
        else w.(c := c1)
    case FinWait1 =>
      if seg.flags.ack then
        if seg.flags.fin then
          SendSegment(w.(c := c.(sndUna := seg.ackNum, rcvNxt := Wrap(seg.seqNum + 1), state := TimeWait)), ACK,
              [], false, now, ok)
        else w.(c := c.(sndUna := seg.ackNum, state := FinWait2))
      else w
    case FinWait2 =>
      if seg.flags.fin then
        SendSegment(w.(c := c.(rcvNxt := Wrap(seg.seqNum + 1), state := TimeWait)), ACK, [], false, now, ok)
      else w
    case LastAck =>
      if seg.flags.ack then w.(c := c.(active := false, state := Closed)) else w
    case _ => w
  }

  function CheckRetransmit(w: World, now: nat, ok: bool): (r: World)
    requires Sized(w.c)
    ensures Sized(r.c)
  {
    var c := w.c;
    if !c.active || c.state != Established || c.txLen == 0 then w
    else if c.sndUna >= Wrap(c.txSeq + c.txLen) then w.(c := c.(txLen := 0))
    else if now < c.tick then w
    else if c.count >= MAX_RETRANSMITS then w.(c := c.(state := Closed, active := false))
    else
      var acked := Acked(c);
      AckedInside(c);
      var resent := SendSegment(w.(c := c.(sndNxt := c.sndUna)), DATA, c.tx[acked..c.txLen], false, now, ok);
      var n := resent.c.count + 1;
      resent.(c := resent.c.(sndNxt := c.sndNxt, count := n, tick := now + RETRANSMIT_TICKS * Shl(1, n)))
  }

  function Acked(c: Conn): (n: int)
  {
    if c.sndUna > c.txSeq then c.sndUna - c.txSeq else 0
  }

  /** What is resent lies inside the buffer, although the sequence numbers wrap. */
  lemma AckedInside(c: Conn)
    requires Sized(c) && c.txLen > 0 && c.sndUna < Wrap(c.txSeq + c.txLen)
    ensures 0 <= Acked(c) < c.txLen
  {
  }

  function Read(w: World, len: nat): (r: World)
  {
    var copy := Min(|w.c.rx|, len);
    World(w.c.(rx := w.c.rx[copy..]), w.log, w.delivered + w.c.rx[..copy])
  }

  function Close(w: World, now: nat, ok: bool): (r: World)
    requires Sized(w.c)
    ensures Sized(r.c)
  {
    if !w.c.active then w
    else if w.c.state == Established then ToState(SendSegment(w, FIN_ACK, [], true, now, ok), FinWait1)
    else if w.c.state == CloseWait then ToState(SendSegment(w, FIN_ACK, [], true, now, ok), LastAck)
    else w.(c := w.c.(active := false, state := Closed))
  }

  predicate Enabled(e: Event)
  {
    match e
    case Writes(chunk, _, _) => |chunk| <= TCP_BUF_SIZE
    case _ => true
  }

  function Step(w: World, e: Event): (r: World)
    requires Sized(w.c) && Enabled(e)
    ensures Sized(r.c)
  {
    match e
    case Arrives(seg, now, ok) => Input(w, seg, now, ok)
    case Checks(now, ok) => CheckRetransmit(w, now, ok)
    case Writes(chunk, now, ok) => SendSegment(w, DATA, chunk, true, now, ok)
    case Reads(len) => Read(w, len)
    case Closes(now, ok) => Close(w, now, ok)
  }

  // ------------------------------------------------------------ the peer's stream

  /** The segment is one the peer could have sent: it starts the stream, possibly with its first bytes, or carries a
      piece of it.  With bytes on a SYN the stream must end before the SYN's own number could come round again. */
  ghost predicate FromPeer(seg: Segment, irs: nat, stream: seq<u8>)
  {
    if seg.flags.syn then seg.seqNum == irs && (seg.payload != [] ==> seg.payload <= stream && |stream| < U32 - 1)
    else seg.payload != [] ==> exists k :: Carries(seg, irs, stream, k)
  }

  predicate Carries(seg: Segment, irs: nat, stream: seq<u8>, k: nat)
  {
    k + |seg.payload| <= |stream| && seg.seqNum == Wrap(irs + 1 + k) && seg.payload == stream[k..k + |seg.payload|]
  }

  predicate StreamInv(w: World, irs: nat, stream: seq<u8>)
  {
    && |w.c.rx| <= TCP_BUF_SIZE
    && Received(w) <= stream
    && (w.c.state.SynSent? || w.c.state.SynReceived? ==> Received(w) == [])
    && (w.c.state.Established? || w.c.state.SynReceived? ==> w.c.rcvNxt == Wrap(irs + 1 + |Received(w)|))
  }

  /** While established, a segment acknowledges exactly what was received and offers exactly the free space. */
  predicate Honest(s: Sent, irs: nat)
  {
    s.seg.window == s.free && (s.state.Established? ==> s.seg.ackNum == Wrap(irs + 1 + s.received))
  }

  predicate AllHonest(log: seq<Sent>, irs: nat) { forall i :: 0 <= i < |log| ==> Honest(log[i], irs) }

  lemma WrapInjective(base: nat, k: nat, n: nat)
    requires Wrap(base + k) == Wrap(base + n) && k < U32 && n < U32
    ensures k == n
  {
    var p, q := (base + k) / U32, (base + n) / U32;
    assert base + k == p * U32 + Wrap(base + k);
    assert base + n == q * U32 + Wrap(base + n);
    assert k - n == (p - q) * U32;
  }

  lemma WrapSum(x: int, n: int)
    ensures Wrap(Wrap(x) + n) == Wrap(x + n)
  {
    var q := x / U32;
    assert x == q * U32 + Wrap(x);
    assert Wrap(x) + n == x + n + (-q) * U32;
    WrapMultiple(x + n, -q);
  }

  lemma WrapMultiple(x: int, q: int)
    ensures Wrap(x + q * U32) == Wrap(x)
  {
    var p := x / U32;
    assert x + q * U32 == (p + q) * U32 + Wrap(x);
  }

  // ------------------------------------------------------------ sequence accounting

  /** Sequence numbers used up by the new segments of a log: one for a SYN, one for a FIN, one per byte. */
  function Used(log: seq<Sent>): (n: nat)
  {
    if log == [] then 0
    else
      var s := log[|log| - 1];
      Used(log[..|log| - 1]) + (if s.isNew then Weight(s.seg.flags, |s.seg.payload|) else 0)
  }

  predicate Accounted(w: World) { w.c.sndNxt == Wrap(INITIAL_SEQ + Used(w.log)) }

  predicate AllFit(log: seq<Sent>) { forall i :: 0 <= i < |log| ==> Fits(log[i].seg.payload) }

  predicate Inv(w: World, irs: nat, stream: seq<u8>)
  {
    Sized(w.c) && StreamInv(w, irs, stream) && AllHonest(w.log, irs) && Accounted(w) && AllFit(w.log)
  }

  lemma UsedAppend(log: seq<Sent>, s: Sent)
    ensures Used(log + [s]) == Used(log) + if s.isNew then Weight(s.seg.flags, |s.seg.payload|) else 0
  {
    assert (log + [s])[..|log|] == log;
  }

  lemma SavedCounts(c: Conn, flags: Flags, data: seq<u8>, now: nat)
    requires Sized(c) && |data| <= |c.tx|
    ensures Saved(c, flags, data, now).sndNxt == Wrap(c.sndNxt + Weight(flags, |data|))
  {
    WrapSum(c.sndNxt + Weight(flags, 0), |data|);
  }

  /** The flags count first, then the bytes. */
  lemma SavedInTwo(c: Conn, flags: Flags, data: seq<u8>, now: nat)
    requires Sized(c) && |data| <= |c.tx|
    ensures Saved(c, flags, data, now) == Saved(c.(sndNxt := Wrap(c.sndNxt + Weight(flags, 0))), DATA, data, now)
  {
    hide Wrap;
    WrapSum(c.sndNxt + Weight(flags, 0), 0);
  }

  lemma SendKeeps(w: World, flags: Flags, data: seq<u8>, isNew: bool, now: nat, ok: bool, irs: nat, stream: seq<u8>)
    requires Inv(w, irs, stream) && (isNew || Weight(flags, |data|) == 0)
    ensures Inv(SendSegment(w, flags, data, isNew, now, ok), irs, stream)
  {
    hide Wrap, Weight, Used;
    var r := SendSegment(w, flags, data, isNew, now, ok);
    if ok && Fits(data) {
      var s := r.log[|w.log|];
      assert Honest(s, irs);
      UsedAppend(w.log, s);
      SavedCounts(w.c, flags, data, now);
      WrapSum(INITIAL_SEQ + Used(w.log), Weight(flags, |data|));
      ZeroWeight(w.c);
    }
  }

  /** Sending leaves the receiving side alone. */
  lemma SendReceives(w: World, flags: Flags, data: seq<u8>, isNew: bool, now: nat, ok: bool)
    requires Sized(w.c)
    ensures var r := SendSegment(w, flags, data, isNew, now, ok);
      && r.delivered == w.delivered && r.c.rx == w.c.rx && r.c.rcvNxt == w.c.rcvNxt
      && r.c.state == w.c.state && r.c.active == w.c.active
  {
    hide Wrap, Weight;
  }

  lemma ZeroWeight(c: Conn)
    requires Sized(c)
    ensures Wrap(c.sndNxt + 0) == c.sndNxt
  {
  }

  /** A piece of the stream that starts at the expected sequence number starts where the stream was left. */
  lemma PieceContinues(seg: Segment, irs: nat, stream: seq<u8>, n: nat)
    requires FromPeer(seg, irs, stream) && seg.payload != [] && n <= |stream| < U32
    requires seg.seqNum == Wrap(irs + 1 + n)
    ensures n + |seg.payload| <= |stream| && seg.payload == stream[n..n + |seg.payload|]
  {
    if seg.flags.syn {
      SynIsPast(irs, n);
    } else {
      hide Wrap;
      var k :| Carries(seg, irs, stream, k);
      WrapInjective(irs + 1, k, n);
    }
  }

  /** The number of the SYN is not the next one expected. */
  lemma SynIsPast(irs: nat, n: nat)
    requires irs < U32 && n < U32 - 1
    ensures irs != Wrap(irs + 1 + n)
  {
    if irs == Wrap(irs + 1 + n) { WrapInjective(irs, 0, 1 + n); }
  }

  /** Bytes taken from a segment extend what was received along the stream. */
  lemma TakeBytes(w: World, seg: Segment, copy: nat, irs: nat, stream: seq<u8>)
    requires Inv(w, irs, stream) && w.c.state.Established? && |stream| < U32 && FromPeer(seg, irs, stream)
    requires seg.payload != [] && seg.seqNum == w.c.rcvNxt && copy == Min(|seg.payload|, TCP_BUF_SIZE - |w.c.rx|)
    ensures Inv(w.(c := w.c.(rx := w.c.rx + seg.payload[..copy], rcvNxt := Wrap(w.c.rcvNxt + copy))), irs, stream)
  {
    hide Wrap, AllHonest, AllFit, Used, FromPeer;
    var n, piece := |Received(w)|, seg.payload[..copy];
    PieceContinues(seg, irs, stream, n);
    WrapSum(irs + 1 + n, copy);
    var r := w.(c := w.c.(rx := w.c.rx + piece, rcvNxt := Wrap(w.c.rcvNxt + copy)));
    assert Received(r) == Received(w) + piece;
    PrefixGrows(Received(w), piece, stream);
  }

  lemma PrefixGrows(a: seq<u8>, b: seq<u8>, s: seq<u8>)
    requires a <= s && |a| + |b| <= |s| && b == s[|a|..|a| + |b|]
    ensures a + b <= s
  {
  }

  lemma ArrivesKeeps(w: World, seg: Segment, now: nat, ok: bool, irs: nat, stream: seq<u8>)
    requires Inv(w, irs, stream) && |stream| < U32 && FromPeer(seg, irs, stream)
    ensures Inv(Input(w, seg, now, ok), irs, stream)
  {
    hide Wrap, AllHonest, AllFit, Used, FromPeer, SendSegment;
    var c := w.c;
    if c.active {
      match c.state
      case SynSent =>
        if seg.flags.syn && seg.flags.ack {
          var c1 := c.(rcvNxt := Wrap(seg.seqNum + 1), sndUna := seg.ackNum, state := Established);
          assert seg.seqNum == irs by { SynStarts(seg, irs, stream); }
          SendKeeps(w.(c := c1), ACK, [], false, now, ok, irs, stream);
        }
      case Established =>
        if seg.flags.fin {
          SendKeeps(w.(c := c.(rcvNxt := Wrap(seg.seqNum + 1), state := CloseWait)), ACK, [], false, now, ok,
              irs, stream);
        } else {
          var c1 := if seg.flags.ack then c.(sndUna := seg.ackNum) else c;
          if seg.payload != [] && seg.seqNum == c1.rcvNxt {
            var copy := Min(|seg.payload|, TCP_BUF_SIZE - |c1.rx|);
            TakeBytes(w.(c := c1), seg, copy, irs, stream);
            var c2 := c1.(rx := c1.rx + seg.payload[..copy], rcvNxt := Wrap(c1.rcvNxt + copy));
            SendKeeps(w.(c := c2), ACK, [], false, now, ok, irs, stream);
          }
        }
      case FinWait1 =>
        if seg.flags.ack && seg.flags.fin {
          SendKeeps(w.(c := c.(sndUna := seg.ackNum, rcvNxt := Wrap(seg.seqNum + 1), state := TimeWait)), ACK,
              [], false, now, ok, irs, stream);
        }
      case FinWait2 =>
        if seg.flags.fin {
          SendKeeps(w.(c := c.(rcvNxt := Wrap(seg.seqNum + 1), state := TimeWait)), ACK, [], false, now, ok,
              irs, stream);
        }
      case _ =>
    }
  }

  lemma SynStarts(seg: Segment, irs: nat, stream: seq<u8>)
    requires FromPeer(seg, irs, stream) && seg.flags.syn
    ensures seg.seqNum == irs
  {
  }

  /** A resent segment uses no sequence numbers: snd_nxt comes back. */
  lemma ResendKeeps(w: World, data: seq<u8>, now: nat, ok: bool, irs: nat, stream: seq<u8>, n: nat, tick: nat)
    requires Inv(w, irs, stream)
    ensures var r := SendSegment(w.(c := w.c.(sndNxt := w.c.sndUna)), DATA, data, false, now, ok);
      Inv(r.(c := r.c.(sndNxt := w.c.sndNxt, count := n, tick := tick)), irs, stream)
  {
    hide Wrap, Used, Weight;
    var v := w.(c := w.c.(sndNxt := w.c.sndUna));
    var r := SendSegment(v, DATA, data, false, now, ok);
    if ok && Fits(data) {
      var s := r.log[|w.log|];
      assert Honest(s, irs);
      UsedAppend(w.log, s);
    }
  }

  lemma ChecksKeeps(w: World, now: nat, ok: bool, irs: nat, stream: seq<u8>)
    requires Inv(w, irs, stream)
    ensures Inv(CheckRetransmit(w, now, ok), irs, stream)
  {
    hide Wrap, AllHonest, AllFit, Used, SendSegment, Shl;
    var c := w.c;
    if c.active && c.state == Established && c.txLen != 0 && c.sndUna < Wrap(c.txSeq + c.txLen)
        && now >= c.tick && c.count < MAX_RETRANSMITS {
      AckedInside(c);
      var data := c.tx[Acked(c)..c.txLen];
      var resent := SendSegment(w.(c := c.(sndNxt := c.sndUna)), DATA, data, false, now, ok);
      var n := resent.c.count + 1;
      ResendKeeps(w, data, now, ok, irs, stream, n, now + RETRANSMIT_TICKS * Shl(1, n));
    }
  }

  lemma ReadsKeeps(w: World, len: nat, irs: nat, stream: seq<u8>)
    requires Inv(w, irs, stream)
    ensures Inv(Read(w, len), irs, stream) && Received(Read(w, len)) == Received(w)
  {
    hide Wrap, AllHonest, AllFit, Used;
    assert Received(Read(w, len)) == Received(w);
  }

  /** No event, in any state and any order, breaks the invariant. */
  lemma StepKeeps(w: World, e: Event, irs: nat, stream: seq<u8>)
    requires Inv(w, irs, stream) && Enabled(e) && |stream| < U32 && (e.Arrives? ==> FromPeer(e.seg, irs, stream))
    ensures Inv(Step(w, e), irs, stream)
  {
    hide Wrap, AllHonest, AllFit, Used, FromPeer, SendSegment, Input, CheckRetransmit, Read;
    match e
    case Arrives(seg, now, ok) => ArrivesKeeps(w, seg, now, ok, irs, stream);
    case Checks(now, ok) => ChecksKeeps(w, now, ok, irs, stream);
    case Writes(chunk, now, ok) => SendKeeps(w, DATA, chunk, true, now, ok, irs, stream);
    case Reads(len) => ReadsKeeps(w, len, irs, stream);
    case Closes(now, ok) =>
      SendKeeps(w, FIN_ACK, [], true, now, ok, irs, stream);
  }

  // ------------------------------------------------------------ whole connections

  /** connect() on an opened connection: nothing received, nothing sent. */
  function Connect(c: Conn, now: nat, ok: bool): (r: World)
    requires Sized(c)
    ensures Sized(r.c)
  {
    SendSegment(World(c.(state := SynSent, sndNxt := INITIAL_SEQ, sndUna := INITIAL_SEQ, rcvNxt := 0), [], []),
        SYN, [], true, now, ok)
  }

  /** A SYN for a listening port starts a connection in a free slot, whatever its retransmission fields hold. */
  function PassiveOpen(c: Conn, irs: nat, now: nat, ok: bool): (r: World)
    requires Sized(c)
    ensures Sized(r.c)
  {
    var c1 := c.(active := true, state := SynReceived, rcvNxt := Wrap(irs + 1), sndNxt := INITIAL_SEQ,
        sndUna := INITIAL_SEQ, rx := []);
    SendSegment(World(c1, [], []), SYN_ACK, [], true, now, ok)
  }

  lemma ConnectEstablishes(c: Conn, now: nat, ok: bool, irs: nat, stream: seq<u8>)
    requires Sized(c) && c.rx == []
    ensures Inv(Connect(c, now, ok), irs, stream)
  {
    var w := World(c.(state := SynSent, sndNxt := INITIAL_SEQ, sndUna := INITIAL_SEQ, rcvNxt := 0), [], []);
    assert Inv(w, irs, stream);
    SendKeeps(w, SYN, [], true, now, ok, irs, stream);
  }

  lemma PassiveOpenEstablishes(c: Conn, now: nat, ok: bool, irs: nat, stream: seq<u8>)
    requires Sized(c)
    ensures Inv(PassiveOpen(c, irs, now, ok), irs, stream)
  {
    var w := World(c.(active := true, state := SynReceived, rcvNxt := Wrap(irs + 1), sndNxt := INITIAL_SEQ,
        sndUna := INITIAL_SEQ, rx := []), [], []);
    assert Inv(w, irs, stream);
    SendKeeps(w, SYN_ACK, [], true, now, ok, irs, stream);
  }

  /** Segments may be lost, duplicated and reordered, but all are pieces of one stream. */
  ghost predicate FromNetwork(es: seq<Event>, irs: nat, stream: seq<u8>)
  {
    forall i :: 0 <= i < |es| ==> Enabled(es[i]) && (es[i].Arrives? ==> FromPeer(es[i].seg, irs, stream))
  }

  predicate AllEnabled(es: seq<Event>) { forall i :: 0 <= i < |es| ==> Enabled(es[i]) }

  function Execute(w: World, es: seq<Event>): (r: World)
    requires Sized(w.c) && AllEnabled(es)
    ensures Sized(r.c)
    decreases |es|
  {
    if es == [] then w else Execute(Step(w, es[0]), es[1..])
  }

  lemma {:induction false} RunKeeps(w: World, es: seq<Event>, irs: nat, stream: seq<u8>)
    requires Inv(w, irs, stream) && |stream| < U32 && FromNetwork(es, irs, stream)
    ensures Inv(Execute(w, es), irs, stream)
    decreases |es|
  {
    hide Step, FromPeer, StreamInv, AllHonest, Accounted, AllFit;
    if es != [] {
      StepKeeps(w, es[0], irs, stream);
      RunKeeps(Step(w, es[0]), es[1..], irs, stream);
    }
  }

  /** The promises of a connection after any run. */
  predicate Safe(w: World, irs: nat, stream: seq<u8>)
  {
    && w.delivered + w.c.rx <= stream
    && (w.c.state.Established? ==> w.c.rcvNxt == Wrap(irs + 1 + |w.delivered| + |w.c.rx|))
    && (forall i :: 0 <= i < |w.log| ==> Honest(w.log[i], irs) && HEADERS + |w.log[i].seg.payload| <= MAX_PACKET)
    && w.c.sndNxt == Wrap(INITIAL_SEQ + Used(w.log))
  }

  lemma ActiveConnectionIsSafe(c: Conn, now: nat, ok: bool, es: seq<Event>, irs: nat, stream: seq<u8>)
    requires Sized(c) && c.rx == [] && |stream| < U32 && FromNetwork(es, irs, stream)
    ensures Safe(Execute(Connect(c, now, ok), es), irs, stream)
  {
    hide Wrap, Used, FromNetwork, Honest, Execute, Connect;
    ConnectEstablishes(c, now, ok, irs, stream);
    EventsEnabled(es, irs, stream);
    RunKeeps(Connect(c, now, ok), es, irs, stream);
  }

  lemma PassiveConnectionIsSafe(c: Conn, now: nat, ok: bool, es: seq<Event>, irs: nat, stream: seq<u8>)
    requires Sized(c) && |stream| < U32 && FromNetwork(es, irs, stream)
    ensures Safe(Execute(PassiveOpen(c, irs, now, ok), es), irs, stream)
  {
    hide Wrap, Used, FromNetwork, Honest, Execute, PassiveOpen;
    PassiveOpenEstablishes(c, now, ok, irs, stream);
    EventsEnabled(es, irs, stream);
    RunKeeps(PassiveOpen(c, irs, now, ok), es, irs, stream);
  }

  lemma EventsEnabled(es: seq<Event>, irs: nat, stream: seq<u8>)
    requires FromNetwork(es, irs, stream)
    ensures AllEnabled(es)
  {
  }

  // ------------------------------------------------------------ what one send() puts on the wire

  /** The new segments of a stretch of the log carry `data` at consecutive sequence numbers from `start` on. */
  predicate SentInOrder(log: seq<Sent>, start: nat, data: seq<u8>)
  {
    if log == [] then data == []
    else
      var s, rest := log[|log| - 1], log[..|log| - 1];
      if !s.isNew then SentInOrder(rest, start, data)
      else
        var n := |data| - |s.seg.payload|;
        && 0 <= n && s.seg.payload == data[n..] && 0 < |s.seg.payload| <= MSS
        && s.seg.seqNum == Wrap(start + n) && s.seg.flags == DATA
        && SentInOrder(rest, start, data[..n])
  }

  /** Between two chunks the connection sends nothing new and keeps its place. */
  predicate Quiet(w: World, r: World)
  {
    && w.log <= r.log && r.c.sndNxt == w.c.sndNxt && r.delivered == w.delivered
    && forall i :: |w.log| <= i < |r.log| ==> !r.log[i].isNew
  }

  lemma QuietArrives(w: World, seg: Segment, now: nat, ok: bool)
    requires Sized(w.c)
    ensures Quiet(w, Input(w, seg, now, ok))
  {
    ZeroWeight(w.c);
  }

  lemma QuietChecks(w: World, now: nat, ok: bool)
    requires Sized(w.c)
    ensures Quiet(w, CheckRetransmit(w, now, ok))
  {
    hide Wrap, Shl;
    if w.c.txLen > 0 && w.c.sndUna < Wrap(w.c.txSeq + w.c.txLen) { AckedInside(w.c); }
  }

  lemma QuietReflexive(w: World)
    ensures Quiet(w, w)
  {
  }

  lemma StartsEmpty(log: seq<Sent>, start: nat)
    requires start < U32
    ensures SentInOrder(log[|log|..], start, []) && start == Wrap(start)
  {
  }

  lemma QuietTransitive(w: World, v: World, r: World)
    requires Quiet(w, v) && Quiet(v, r)
    ensures Quiet(w, r)
  {
  }

  lemma {:induction false} ExecuteConcat(w: World, a: seq<Event>, b: seq<Event>)
    requires Sized(w.c) && AllEnabled(a) && AllEnabled(b)
    ensures AllEnabled(a + b) && Sized(Execute(w, a).c) && Execute(w, a + b) == Execute(Execute(w, a), b)
    decreases |a|
  {
    hide Step, Enabled, Sized;
    if a == [] {
      assert a + b == b;
    } else {
      assert (a + b)[0] == a[0] && (a + b)[1..] == a[1..] + b;
      ExecuteConcat(Step(w, a[0]), a[1..], b);
    }
  }

  /** The run of `es` leads from `w` to `r`. */
  predicate Ran(w: World, r: World, es: seq<Event>) { Sized(w.c) && AllEnabled(es) && r == Execute(w, es) }

  lemma RanNothing(w: World)
    requires Sized(w.c)
    ensures Ran(w, w, [])
  {
  }

  lemma NetworkNothing(irs: nat, stream: seq<u8>)
    ensures FromNetwork([], irs, stream)
  {
  }

  lemma NetworkWrites(es: seq<Event>, e: Event, irs: nat, stream: seq<u8>)
    requires e.Writes? && |e.chunk| <= MSS
    ensures FromNetwork(es, irs, stream) ==> FromNetwork(es + [e], irs, stream)
  {
  }

  lemma QuietDelivers(w: World, r: World)
    requires Quiet(w, r)
    ensures r.delivered == w.delivered
  {
  }

  lemma RanStep(w: World, v: World, es: seq<Event>, e: Event)
    requires Ran(w, v, es) && Enabled(e)
    ensures Sized(v.c) && Ran(w, Step(v, e), es + [e])
  {
    ExecuteConcat(w, es, [e]);
    assert [e][1..] == [];
    assert Execute(v, [e]) == Execute(Step(v, e), []);
  }

  lemma RanOn(w: World, v: World, r: World, es: seq<Event>, fs: seq<Event>)
    requires Ran(w, v, es) && Ran(v, r, fs)
    ensures Ran(w, r, es + fs)
  {
    ExecuteConcat(w, es, fs);
  }

  lemma NetworkConcat(es: seq<Event>, fs: seq<Event>, irs: nat, stream: seq<u8>)
    ensures FromNetwork(es + fs, irs, stream) <==> FromNetwork(es, irs, stream) && FromNetwork(fs, irs, stream)
  {
    hide FromPeer, Enabled;
    forall i | 0 <= i < |es| ensures (es + fs)[i] == es[i] {}
    forall i | 0 <= i < |fs| ensures (es + fs)[|es| + i] == fs[i] {}
  }

  lemma {:induction false} QuietKeepsOrder(w: World, r: World, from: nat, start: nat, data: seq<u8>)
    requires Quiet(w, r) && from <= |w.log| && SentInOrder(w.log[from..], start, data)
    ensures w.log <= r.log && r.c.sndNxt == w.c.sndNxt && SentInOrder(r.log[from..], start, data)
    decreases |r.log|
  {
    if |r.log| == |w.log| {
      assert r.log == w.log;
    } else {
      var v := r.(log := r.log[..|r.log| - 1]);
      QuietKeepsOrder(w, v, from, start, data);
      assert v.log[from..] == r.log[from..][..|r.log[from..]| - 1];
    }
  }

  /** An accepted chunk continues where the stretch ended. */
  lemma ChunkExtendsOrder(w: World, from: nat, start: nat, data: seq<u8>, chunk: seq<u8>, now: nat, ok: bool)
    requires Sized(w.c) && from <= |w.log| && SentInOrder(w.log[from..], start, data) && 0 < |chunk| <= MSS
    requires w.c.sndNxt == Wrap(start + |data|)
    ensures var r := SendSegment(w, DATA, chunk, true, now, ok);
      if ok then
        w.log <= r.log && SentInOrder(r.log[from..], start, data + chunk) && r.c.sndNxt == Wrap(start + |data + chunk|)
      else r == w
  {
    hide Wrap;
    var r := SendSegment(w, DATA, chunk, true, now, ok);
    if ok {
      var l := r.log[from..];
      assert l[..|l| - 1] == w.log[from..];
      assert (data + chunk)[..|data|] == data && (data + chunk)[|data|..] == chunk;
      SavedCounts(w.c, DATA, chunk, now);
      WrapSum(start + |data|, |chunk|);
    }
  }

  // ------------------------------------------------------------ nothing in order is lost, no state comes back

  /** A piece of the peer's stream is taken exactly when it starts where the stream was left, and then as far as the
      ring has room: neither a repetition, nor one out of order, nor one 2^32 bytes off. */
  lemma TakenIff(w: World, seg: Segment, k: nat, now: nat, ok: bool, irs: nat, stream: seq<u8>)
    requires Inv(w, irs, stream) && w.c.active && w.c.state.Established? && !seg.flags.fin && seg.payload != []
    requires |stream| < U32 && Carries(seg, irs, stream, k)
    ensures var n, free := |Received(w)|, TCP_BUF_SIZE - |w.c.rx|;
      Received(Input(w, seg, now, ok)) == if k == n then stream[..n + Min(|seg.payload|, free)] else stream[..n]
  {
    hide Wrap, AllHonest, AllFit, Used, SendSegment;
    var n := |Received(w)|;
    var copy := Min(|seg.payload|, TCP_BUF_SIZE - |w.c.rx|);
    assert seg.seqNum == w.c.rcvNxt <==> k == n by {
      if seg.seqNum == w.c.rcvNxt { WrapInjective(irs + 1, k, n); }
    }
    if k == n {
      var c := if seg.flags.ack then w.c.(sndUna := seg.ackNum) else w.c;
      var taken := w.(c := c.(rx := c.rx + seg.payload[..copy], rcvNxt := Wrap(c.rcvNxt + copy)));
      SendReceives(taken, ACK, [], false, now, ok);
      assert Received(taken) == Received(w) + seg.payload[..copy] == stream[..n + copy];
    }
  }

  // ------------------------------------------------------------ the end of the stream

  /** The peer's FIN: its own number is the one behind the last byte, and it may carry the last bytes. */
  predicate EndsStream(seg: Segment, irs: nat, stream: seq<u8>)
  {
    && seg.flags.fin && |seg.payload| <= |stream|
    && seg.seqNum == Wrap(irs + 1 + |stream| - |seg.payload|) && seg.payload == stream[|stream| - |seg.payload|..]
  }

  /** tcp_input takes a FIN whatever its number and drops what it carries: everything was received exactly if the number
      of the FIN itself was the one expected next. */
  lemma FinMeansAllIff(w: World, seg: Segment, now: nat, ok: bool, irs: nat, stream: seq<u8>)
    requires Inv(w, irs, stream) && w.c.active && w.c.state.Established? && EndsStream(seg, irs, stream)
    requires |stream| < U32
    ensures var r := Input(w, seg, now, ok);
      && r.c.state == CloseWait && Received(r) == Received(w)
      && (Received(r) == stream <==> Wrap(seg.seqNum + |seg.payload|) == w.c.rcvNxt)
  {
    hide Wrap, AllHonest, AllFit, Used, SendSegment;
    var n := |Received(w)|;
    SendReceives(w.(c := w.c.(rcvNxt := Wrap(seg.seqNum + 1), state := CloseWait)), ACK, [], false, now, ok);
    WrapSum(irs + 1 + |stream| - |seg.payload|, |seg.payload|);
    if Wrap(seg.seqNum + |seg.payload|) == w.c.rcvNxt { WrapInjective(irs + 1, |stream|, n); }
    assert n == |stream| <==> Received(w) == stream;
  }

  /** Once established is left, nothing more is received. */
  lemma ReceivesNoMore(w: World, e: Event)
    requires Sized(w.c) && Enabled(e) && Stage(w.c.state) > 1
    ensures Received(Step(w, e)) == Received(w)
  {
    hide Wrap, SendSegment, Shl;
    match e
    case Arrives(seg, now, ok) =>
      var c := w.c.(rcvNxt := Wrap(seg.seqNum + 1), state := TimeWait);
      SendReceives(w.(c := c), ACK, [], false, now, ok);
      SendReceives(w.(c := c.(sndUna := seg.ackNum)), ACK, [], false, now, ok);
    case Checks(now, ok) =>
    case Writes(chunk, now, ok) => SendReceives(w, DATA, chunk, true, now, ok);
    case Reads(len) => assert Received(Read(w, len)) == Received(w);
    case Closes(now, ok) => SendReceives(w, FIN_ACK, [], true, now, ok);
  }

  lemma {:induction false} RunReceivesNoMore(w: World, es: seq<Event>)
    requires Sized(w.c) && AllEnabled(es) && Stage(w.c.state) > 1
    ensures Received(Execute(w, es)) == Received(w)
    decreases |es|
  {
    hide Step, Stage, Sized;
    if es != [] {
      ReceivesNoMore(w, es[0]);
      StepAdvances(w, es[0]);
      RunReceivesNoMore(Step(w, es[0]), es[1..]);
    }
  }

  /** Whatever happens after the FIN, the stream has come completely exactly if the FIN was in order. */
  lemma StreamCompleteIff(w: World, seg: Segment, now: nat, ok: bool, es: seq<Event>, irs: nat, stream: seq<u8>)
    requires Inv(w, irs, stream) && w.c.active && w.c.state.Established? && EndsStream(seg, irs, stream)
    requires |stream| < U32 && AllEnabled(es)
    ensures var r := Execute(Input(w, seg, now, ok), es);
      Received(r) == stream <==> Wrap(seg.seqNum + |seg.payload|) == w.c.rcvNxt
  {
    hide StreamInv, Wrap, Received, Input, EndsStream, Execute, AllHonest, AllFit, Accounted;
    FinMeansAllIff(w, seg, now, ok, irs, stream);
    RunReceivesNoMore(Input(w, seg, now, ok), es);
  }

  /** A stream of one byte whose FIN overtakes it: the connection reports the end and has received nothing. */
  lemma EarlyFinTruncates(c: Conn)
    requires Sized(c) && c.active && c.rx == []
    ensures var synAck := Segment(0, 1001, SYN_ACK, 8192, []);
      var fin := Segment(2, 1001, FIN_ACK, 8192, []);
      var es := [Arrives(synAck, 0, true), Arrives(fin, 0, true)];
      var r := Execute(Connect(c, 0, true), es);
      && FromNetwork(es, 0, [7]) && EndsStream(fin, 0, [7])
      && r.c.state == CloseWait && Received(r) == []
  {
    hide Saved;
    var synAck, fin := Segment(0, 1001, SYN_ACK, 8192, []), Segment(2, 1001, FIN_ACK, 8192, []);
    var es := [Arrives(synAck, 0, true), Arrives(fin, 0, true)];
    var w0 := World(c.(state := SynSent, sndNxt := INITIAL_SEQ, sndUna := INITIAL_SEQ, rcvNxt := 0), [], []);
    SendReceives(w0, SYN, [], true, 0, true);
    var w := Connect(c, 0, true);
    var c1 := w.c.(rcvNxt := 1, sndUna := 1001, state := Established);
    SendReceives(w.(c := c1), ACK, [], false, 0, true);
    var v := Input(w, synAck, 0, true);
    assert v.c.active && v.c.state == Established && v.c.rx == [] && v.delivered == [];
    SendReceives(v.(c := v.c.(rcvNxt := 3, state := CloseWait)), ACK, [], false, 0, true);
    assert es[1..] == [es[1]] && es[1..][1..] == [];
    assert Execute(w, es) == Execute(v, es[1..]) == Execute(Input(v, fin, 0, true), []);
  }

  /** A piece of the stream as it arrives, and what else its segment and its acknowledgement meet. */
  datatype Piece = Piece(data: seq<u8>, ackNum: u32, window: nat, now: nat, ok: bool)

  function Joined(pieces: seq<Piece>): (s: seq<u8>)
  {
    if pieces == [] then [] else pieces[0].data + Joined(pieces[1..])
  }

  /** The pieces arrive one after the other, starting n bytes into the stream, and each is read before the next. */
  function InOrder(pieces: seq<Piece>, irs: nat, n: nat): (es: seq<Event>)
    ensures AllEnabled(es)
    decreases |pieces|
  {
    if pieces == [] then []
    else
      var p := pieces[0];
      [Arrives(Segment(Wrap(irs + 1 + n), p.ackNum, DATA, p.window, p.data), p.now, p.ok), Reads(TCP_BUF_SIZE)]
      + InOrder(pieces[1..], irs, n + |p.data|)
  }

  predicate ReadyFor(w: World, irs: nat)
  {
    Sized(w.c) && w.c.active && w.c.state.Established? && w.c.rx == [] && w.c.rcvNxt == Wrap(irs + 1 + |w.delivered|)
  }

  /** One piece arrives and is read. */
  lemma PieceDelivered(w: World, p: Piece, irs: nat)
    requires ReadyFor(w, irs) && |p.data| <= TCP_BUF_SIZE
    ensures var seg := Segment(Wrap(irs + 1 + |w.delivered|), p.ackNum, DATA, p.window, p.data);
      var r := Read(Input(w, seg, p.now, p.ok), TCP_BUF_SIZE);
      ReadyFor(r, irs) && r.delivered == w.delivered + p.data
  {
    hide Wrap;
    WrapSum(irs + 1 + |w.delivered|, |p.data|);
    assert p.data[..|p.data|] == p.data && [] + p.data == p.data;
  }

  /** The first two events of the run. */
  lemma FirstPiece(w: World, pieces: seq<Piece>, irs: nat, n: nat)
    requires Sized(w.c) && pieces != []
    ensures var p := pieces[0];
      var seg := Segment(Wrap(irs + 1 + n), p.ackNum, DATA, p.window, p.data);
      var r := Read(Input(w, seg, p.now, p.ok), TCP_BUF_SIZE);
      Sized(r.c) && Execute(w, InOrder(pieces, irs, n)) == Execute(r, InOrder(pieces[1..], irs, n + |p.data|))
  {
    hide Input, Read, Wrap, Sized;
    var p := pieces[0];
    var e := Arrives(Segment(Wrap(irs + 1 + n), p.ackNum, DATA, p.window, p.data), p.now, p.ok);
    var rest := InOrder(pieces[1..], irs, n + |p.data|);
    var es := [e, Reads(TCP_BUF_SIZE)] + rest;
    var v := Step(w, e);
    assert es[1..] == [Reads(TCP_BUF_SIZE)] + rest && es[1..][1..] == rest;
    assert Execute(w, es) == Execute(v, es[1..]);
    assert Execute(v, es[1..]) == Execute(Step(v, Reads(TCP_BUF_SIZE)), rest);
  }

  /** A stream that arrives in order, in pieces the ring can hold, is delivered completely. */
  lemma {:induction false} InOrderIsDelivered(w: World, pieces: seq<Piece>, irs: nat)
    requires ReadyFor(w, irs) && forall i :: 0 <= i < |pieces| ==> |pieces[i].data| <= TCP_BUF_SIZE
    ensures Sized(w.c)
    ensures var r := Execute(w, InOrder(pieces, irs, |w.delivered|));
      r.delivered == w.delivered + Joined(pieces) && ReadyFor(r, irs)
    decreases |pieces|
  {
    hide ReadyFor, Input, Read, Wrap, Sized;
    ReadyIsSized(w, irs);
    if pieces == [] {
      assert w.delivered + [] == w.delivered;
    } else {
      hide Execute, InOrder;
      var p, n := pieces[0], |w.delivered|;
      var seg := Segment(Wrap(irs + 1 + n), p.ackNum, DATA, p.window, p.data);
      FirstPiece(w, pieces, irs, n);
      PieceDelivered(w, p, irs);
      var r := Read(Input(w, seg, p.now, p.ok), TCP_BUF_SIZE);
      InOrderIsDelivered(r, pieces[1..], irs);
      assert w.delivered + p.data + Joined(pieces[1..]) == w.delivered + Joined(pieces);
    }
  }

  lemma ReadyIsSized(w: World, irs: nat)
    requires ReadyFor(w, irs)
    ensures Sized(w.c)
  {
  }

  /** How far a connection has come; listening sockets never connect themselves. */
  function Stage(state: State): (n: nat)
  {
    match state
    case Listen => 0
    case SynSent => 0
    case SynReceived => 0
    case Established => 1
    case FinWait1 => 2
    case CloseWait => 2
    case Closing => 3
    case FinWait2 => 3
    case LastAck => 3
    case TimeWait => 4
    case Closed => 5
  }

  lemma StepAdvances(w: World, e: Event)
    requires Sized(w.c) && Enabled(e)
    ensures Stage(w.c.state) <= Stage(Step(w, e).c.state)
    ensures Stage(w.c.state) == Stage(Step(w, e).c.state) ==> w.c.state == Step(w, e).c.state
  {
    hide Wrap, Shl;
    if e.Checks? && w.c.txLen > 0 && w.c.sndUna < Wrap(w.c.txSeq + w.c.txLen) { AckedInside(w.c); }
  }

  /** Over any run a connection only moves on: a state once left never comes back. */
  lemma {:induction false} RunAdvances(w: World, es: seq<Event>)
    requires Sized(w.c) && AllEnabled(es)
    ensures Stage(w.c.state) <= Stage(Execute(w, es).c.state)
    ensures Stage(w.c.state) == Stage(Execute(w, es).c.state) ==> w.c.state == Execute(w, es).c.state
    decreases |es|
  {
    hide Step, Stage, Sized;
    if es != [] {
      StepAdvances(w, es[0]);
      RunAdvances(Step(w, es[0]), es[1..]);
    }
  }
}
