/**
  Whole lives of a connection of src/net/tcp.cpp on a link that takes every segment: the states it passes through, what
  the application reads, and every segment it sends.
 */
module TcpLife {
  import opened Machine
  import opened Tcp

  function Segs(log: seq<Sent>): (s: seq<Segment>)
    ensures |s| == |log| && forall i :: 0 <= i < |log| ==> s[i] == log[i].seg
  {
    seq(|log|, i requires 0 <= i < |log| => log[i].seg)
  }

  /** A segment without data that acknowledges everything before `ack`. */
  function Bare(seqNum: u32, ack: int, flags: Flags, window: nat): (s: Segment)
  {
    Segment(seqNum, Wrap(ack), flags, window, [])
  }

  /** The acknowledgements of the pieces, n bytes into the stream: one for each that is not empty. */
  function Acks(pieces: seq<Piece>, irs: nat, n: nat): (s: seq<Segment>)
    decreases |pieces|
  {
    if pieces == [] then []
    else
      var len := |pieces[0].data|;
      (if len == 0 then []
       else [Bare(1001, irs + 1 + n + len, Flags(false, false, true, false), if len <= 8192 then 8192 - len else 0)])
      + Acks(pieces[1..], irs, n + len)
  }

  /** Established with an empty ring, everything so far read. */
  predicate Open(w: World, irs: nat) { ReadyFor(w, irs) && w.c.sndNxt == 1001 }

  predicate Small(pieces: seq<Piece>)
  {
    forall i :: 0 <= i < |pieces| ==> |pieces[i].data| <= 8192 && pieces[i].ok
  }

  lemma SegsAppend(log: seq<Sent>, s: Sent)
    ensures Segs(log + [s]) == Segs(log) + [s.seg]
  {
  }

  lemma OnePiece(w: World, p: Piece, irs: nat)
    requires Open(w, irs) && |p.data| <= TCP_BUF_SIZE && p.ok
    ensures var seg := Segment(Wrap(irs + 1 + |w.delivered|), p.ackNum, DATA, p.window, p.data);
      var r := Read(Input(w, seg, p.now, p.ok), TCP_BUF_SIZE);
      Open(r, irs) && r.delivered == w.delivered + p.data && Segs(r.log) == Segs(w.log) + Acks([p], irs, |w.delivered|)
  {
    hide Wrap;
    PieceDelivered(w, p, irs);
    WrapSum(irs + 1 + |w.delivered|, |p.data|);
    var seg := Segment(Wrap(irs + 1 + |w.delivered|), p.ackNum, DATA, p.window, p.data);
    var v := Input(w, seg, p.now, p.ok);
    ZeroWeight(w.c);
    assert [p][1..] == [];
    if p.data == [] {
      assert v.log == w.log;
    } else {
      assert v.log == w.log + [v.log[|w.log|]];
      SegsAppend(w.log, v.log[|w.log|]);
    }
  }

  /** Pieces that arrive in order and are read one by one. */
  lemma {:induction false} PiecesRead(w: World, pieces: seq<Piece>, irs: nat)
    requires Open(w, irs) && Small(pieces)
    ensures Sized(w.c)
    ensures var r := Execute(w, InOrder(pieces, irs, |w.delivered|));
      && Open(r, irs) && r.delivered == w.delivered + Joined(pieces)
      && Segs(r.log) == Segs(w.log) + Acks(pieces, irs, |w.delivered|)
    decreases |pieces|
  {
    hide ReadyFor, Input, Read, Wrap, Sized, Acks, Joined, Segs;
    ReadyIsSized(w, irs);
    if pieces == [] {
      NoPieces(irs, |w.delivered|);
      assert w.delivered + [] == w.delivered && Segs(w.log) + [] == Segs(w.log);
    } else {
      hide Execute, InOrder;
      var p, n := pieces[0], |w.delivered|;
      var seg := Segment(Wrap(irs + 1 + n), p.ackNum, DATA, p.window, p.data);
      FirstPiece(w, pieces, irs, n);
      OnePiece(w, p, irs);
      var r := Read(Input(w, seg, p.now, p.ok), TCP_BUF_SIZE);
      PiecesRead(r, pieces[1..], irs);
      AcksFirst(pieces, irs, n);
      Regroup(w.delivered, p.data, Joined(pieces[1..]));
      Regroup(Segs(w.log), Acks([p], irs, n), Acks(pieces[1..], irs, n + |p.data|));
    }
  }

  lemma Regroup<T>(a: seq<T>, b: seq<T>, c: seq<T>)
    ensures (a + b) + c == a + (b + c)
  {
  }

  lemma NoPieces(irs: nat, n: nat)
    ensures Acks([], irs, n) == [] && Joined([]) == []
  {
  }

  lemma AcksFirst(pieces: seq<Piece>, irs: nat, n: nat)
    requires pieces != []
    ensures Acks(pieces, irs, n) == Acks([pieces[0]], irs, n) + Acks(pieces[1..], irs, n + |pieces[0].data|)
    ensures Joined(pieces) == pieces[0].data + Joined(pieces[1..])
  {
    hide Bare;
    assert [pieces[0]][1..] == [];
    assert Acks([pieces[0]][1..], irs, n + |pieces[0].data|) == [];
  }

  /** The segments of a connection the peer opens and both close. */
  function PassiveSegs(pieces: seq<Piece>, irs: nat, fin: u32): (s: seq<Segment>)
  {
    [Bare(1000, irs + 1, Flags(false, true, true, false), 8192)]
    + Acks(pieces, irs, 0)
    + [Bare(1001, fin + 1, Flags(false, false, true, false), 8192)]
    + [Bare(1001, fin + 1, Flags(true, false, true, false), 8192)]
  }

  /** A peer connects, sends its stream and closes; then this side closes and the peer acknowledges. */
  lemma PassiveLife(c: Conn, irs: u32, t0: nat, ack: Segment, t1: nat, pieces: seq<Piece>, fin: Segment, t3: nat,
                    t4: nat, last: Segment, t5: nat)
    requires Sized(c) && ack.flags.ack && Small(pieces) && fin.flags.fin && last.flags.ack
    ensures var w0 := PassiveOpen(c, irs, t0, true);
      var w1 := Step(w0, Arrives(ack, t1, true));
      var w2 := Execute(w1, InOrder(pieces, irs, 0));
      var w3 := Step(w2, Arrives(fin, t3, true));
      var w4 := Step(w3, Closes(t4, true));
      var w5 := Step(w4, Arrives(last, t5, true));
      && w0.c.state == SynReceived && w1.c.state == w2.c.state == Established
      && w3.c.state == CloseWait && w4.c.state == LastAck && w5.c.state == Closed
      && w1.c.active && w2.c.active && w3.c.active && w4.c.active && !w5.c.active
      && w5.delivered == Joined(pieces) && w5.c.rx == []
      && Segs(w5.log) == PassiveSegs(pieces, irs, fin.seqNum)
  {
    hide Execute, InOrder, Acks, Wrap, Input, Close, PassiveOpen, Segs, Joined, Small;
    var w0 := PassiveOpen(c, irs, t0, true);
    Accepted(c, irs, t0, ack, t1);
    var w1 := Step(w0, Arrives(ack, t1, true));
    PiecesRead(w1, pieces, irs);
    var w2 := Execute(w1, InOrder(pieces, irs, 0));
    assert [] + Joined(pieces) == Joined(pieces);
    PeerCloses(w2, irs, fin, t3, t4, last, t5);
  }

  /** SYN, SYN-ACK and ACK. */
  lemma Accepted(c: Conn, irs: u32, t0: nat, ack: Segment, t1: nat)
    requires Sized(c) && ack.flags.ack
    ensures var w0 := PassiveOpen(c, irs, t0, true);
      var w1 := Step(w0, Arrives(ack, t1, true));
      && w0.c.state == SynReceived && Open(w1, irs) && w1.delivered == []
      && Segs(w1.log) == [Bare(1000, irs + 1, Flags(false, true, true, false), 8192)]
  {
  }

  /** FIN, ACK; FIN-ACK, ACK. */
  lemma PeerCloses(w: World, irs: nat, fin: Segment, t3: nat, t4: nat, last: Segment, t5: nat)
    requires Open(w, irs) && fin.flags.fin && last.flags.ack
    ensures var w3 := Step(w, Arrives(fin, t3, true));
      var w4 := Step(w3, Closes(t4, true));
      var w5 := Step(w4, Arrives(last, t5, true));
      && w3.c.state == CloseWait && w4.c.state == LastAck && w5.c.state == Closed
      && w3.c.active && w4.c.active && !w5.c.active && w5.delivered == w.delivered && w5.c.rx == []
      && Segs(w5.log) == Segs(w.log) + [Bare(1001, fin.seqNum + 1, Flags(false, false, true, false), 8192)]
                       + [Bare(1001, fin.seqNum + 1, Flags(true, false, true, false), 8192)]
  {
    hide Wrap;
    var w3 := Step(w, Arrives(fin, t3, true));
    ZeroWeight(w.c);
    SegsAppend(w.log, w3.log[|w.log|]);
    var w4 := Step(w3, Closes(t4, true));
    SegsAppend(w3.log, w4.log[|w3.log|]);
  }

  /** The segments of a connection this side opens and closes first. */
  function ActiveSegs(pieces: seq<Piece>, irs: nat, fin: u32): (s: seq<Segment>)
  {
    [Bare(1000, 0, Flags(false, true, false, false), 8192)]
    + [Bare(1001, irs + 1, Flags(false, false, true, false), 8192)]
    + Acks(pieces, irs, 0)
    + [Bare(1001, irs + 1 + |Joined(pieces)|, Flags(true, false, true, false), 8192)]
    + [Bare(1002, fin + 1, Flags(false, false, true, false), 8192)]
  }

  /** This side connects, reads the peer's stream and closes; the peer acknowledges and closes in turn, with one segment
      or with two. */
  lemma ActiveLife(c: Conn, irs: u32, t0: nat, synAck: Segment, t1: nat, pieces: seq<Piece>, t3: nat, ack: Segment,
                   t4: nat, fin: Segment, t5: nat)
    requires Sized(c) && c.active && c.rx == [] && synAck.flags.syn && synAck.flags.ack && synAck.seqNum == irs
    requires Small(pieces) && ack.flags.ack && !ack.flags.fin && fin.flags.fin && fin.flags.ack
    ensures var w0 := Connect(c, t0, true);
      var w1 := Step(w0, Arrives(synAck, t1, true));
      var w2 := Execute(w1, InOrder(pieces, irs, 0));
      var w3 := Step(w2, Closes(t3, true));
      var w4 := Step(w3, Arrives(ack, t4, true));
      var w5 := Step(w4, Arrives(fin, t5, true));
      var both := Step(w3, Arrives(fin, t5, true));
      && w0.c.state == SynSent && w1.c.state == w2.c.state == Established
      && w3.c.state == FinWait1 && w4.c.state == FinWait2 && w5.c.state == both.c.state == TimeWait
      && w5.delivered == both.delivered == Joined(pieces) && w5.c.rx == both.c.rx == []
      && Segs(w5.log) == Segs(both.log) == ActiveSegs(pieces, irs, fin.seqNum)
  {
    hide Execute, InOrder, Acks, Wrap, Input, Close, Connect, Segs, Joined, Small;
    var w0 := Connect(c, t0, true);
    Connected(c, irs, t0, synAck, t1);
    var w1 := Step(w0, Arrives(synAck, t1, true));
    PiecesRead(w1, pieces, irs);
    var w2 := Execute(w1, InOrder(pieces, irs, 0));
    assert [] + Joined(pieces) == Joined(pieces);
    ThisCloses(w2, irs, t3, ack, t4, fin, t5);
  }

  lemma Connected(c: Conn, irs: u32, t0: nat, synAck: Segment, t1: nat)
    requires Sized(c) && c.active && c.rx == [] && synAck.flags.syn && synAck.flags.ack && synAck.seqNum == irs
    ensures var w0 := Connect(c, t0, true);
      var w1 := Step(w0, Arrives(synAck, t1, true));
      && w0.c.state == SynSent && Open(w1, irs) && w1.delivered == []
      && Segs(w1.log) == [Bare(1000, 0, Flags(false, true, false, false), 8192)]
                       + [Bare(1001, irs + 1, Flags(false, false, true, false), 8192)]
  {
  }

  lemma ThisCloses(w: World, irs: nat, t3: nat, ack: Segment, t4: nat, fin: Segment, t5: nat)
    requires Open(w, irs) && ack.flags.ack && !ack.flags.fin && fin.flags.fin && fin.flags.ack
    ensures var w3 := Step(w, Closes(t3, true));
      var w4 := Step(w3, Arrives(ack, t4, true));
      var w5 := Step(w4, Arrives(fin, t5, true));
      var both := Step(w3, Arrives(fin, t5, true));
      && w3.c.state == FinWait1 && w4.c.state == FinWait2 && w5.c.state == both.c.state == TimeWait
      && w5.delivered == both.delivered == w.delivered && w5.c.rx == both.c.rx == []
      && Segs(w5.log) == Segs(both.log) == Segs(w.log)
           + [Bare(1001, irs + 1 + |w.delivered|, Flags(true, false, true, false), 8192)]
           + [Bare(1002, fin.seqNum + 1, Flags(false, false, true, false), 8192)]
  {
    var w3 := Step(w, Closes(t3, true));
    SegsAppend(w.log, w3.log[|w.log|]);
    assert w3.c.sndNxt == 1002;
    hide Wrap;
    var w4 := Step(w3, Arrives(ack, t4, true));
    var w5 := Step(w4, Arrives(fin, t5, true));
    var both := Step(w3, Arrives(fin, t5, true));
    ZeroWeight(w3.c);
    SegsAppend(w3.log, w5.log[|w3.log|]);
    SegsAppend(w3.log, both.log[|w3.log|]);
  }

  /** What an arriving segment acknowledges: taken over in the states that wait for it, and only there. */
  lemma AckTaken(w: World, seg: Segment, now: nat, ok: bool)
    requires Sized(w.c)
    ensures var r, s := Step(w, Arrives(seg, now, ok)), w.c.state;
      && (!w.c.active ==> r == w)
      && r.c.sndUna == if w.c.active && seg.flags.ack
                          && (s == SynReceived || s == FinWait1 || (s == SynSent && seg.flags.syn)
                              || (s == Established && !seg.flags.fin))
                       then seg.ackNum else w.c.sndUna
  {
    hide Wrap, Weight;
  }

  /** The segment a state waits for. */
  predicate Awaited(s: State, f: Flags)
  {
    match s
    case SynSent => f.syn && f.ack
    case SynReceived | FinWait1 | LastAck => f.ack
    case Established | FinWait2 => f.fin
    case _ => false
  }

  /** A segment moves the state exactly if it is the one waited for; it is answered exactly if it moves the state by a
      SYN or FIN, or brings the next bytes; what is neither waited for nor for an established connection is ignored. */
  lemma ArrivalMoves(w: World, seg: Segment, now: nat)
    requires Sized(w.c) && w.c.active
    ensures var r, s, f := Step(w, Arrives(seg, now, true)), w.c.state, seg.flags;
      && (r.c.state != s <==> Awaited(s, f))
      && (r.log != w.log <==>
            || (Awaited(s, f) && (s == SynSent || f.fin) && s != SynReceived && s != LastAck)
            || (s == Established && seg.payload != [] && seg.seqNum == w.c.rcvNxt))
      && (s != Established && !Awaited(s, f) ==> r == w)
  {
    hide Wrap, Weight;
  }

  /** close() in any other state gives the slot up at once and sends nothing. */
  lemma CloseElsewhere(w: World, now: nat, ok: bool)
    requires Sized(w.c) && w.c.active && w.c.state != Established && w.c.state != CloseWait
    ensures var r := Step(w, Closes(now, ok)); r.c.state == Closed && !r.c.active && r.log == w.log
  {
  }

  // ------------------------------------------------------------ what a retransmission repeats

  /** The chunk is saved; its first byte had sequence number `first`. */
  predicate Saves(c: Conn, chunk: seq<u8>, first: u32)
  {
    && Sized(c) && 0 < |chunk| && c.txLen == |chunk| && c.tx[..|chunk|] == chunk
    && c.txSeq == Wrap(first - |chunk|)
  }

  /** An accepted write saves its chunk, with a start that is one chunk too low. */
  lemma WriteSaves(w: World, chunk: seq<u8>, now: nat)
    requires Sized(w.c) && chunk != [] && Fits(chunk)
    ensures |chunk| <= TCP_BUF_SIZE
    ensures var r := Step(w, Writes(chunk, now, true));
      && Saves(r.c, chunk, w.c.sndNxt) && r.c.sndNxt == Wrap(w.c.sndNxt + |chunk|)
      && r.c.tick == now + 200 && r.c.count == 0 && r.c.sndUna == w.c.sndUna
  {
    hide Wrap;
    ZeroWeight(w.c);
  }

  /** How many of the saved bytes the code takes for acknowledged. */
  function TakenAsAcked(una: u32, chunk: seq<u8>, first: u32): (n: int)
  {
    var start := Wrap(first - |chunk|);
    if una > start then una - start else 0
  }

  lemma EdgeIsFirst(first: u32, n: nat)
    ensures Wrap(Wrap(first - n) + n) == first
  {
    hide Wrap;
    WrapSum(first - n, n);
    WrapSmall(first);
  }

  lemma WrapSmall(x: u32)
    ensures Wrap(x) == x
  {
  }

  /**
    One retransmission check of an established connection.  With every earlier byte acknowledged the saved chunk is
    dropped; otherwise, once the time is up, its rest goes out at sequence number snd_una.
   */
  lemma ResendIs(w: World, chunk: seq<u8>, first: u32, now: nat, ok: bool)
    requires w.c.active && w.c.state == Established && Saves(w.c, chunk, first) && Fits(chunk)
    ensures var r := Step(w, Checks(now, ok));
      var una, n := w.c.sndUna, TakenAsAcked(w.c.sndUna, chunk, first);
      if una >= first then r == w.(c := w.c.(txLen := 0))
      else if now < w.c.tick then r == w
      else if w.c.count >= 5 then r == w.(c := w.c.(state := Closed, active := false))
      else
        && 0 <= n < |chunk| && r.c.sndNxt == w.c.sndNxt && r.c.state == Established && r.c.active
        && var k := if ok then 1 else w.c.count + 1;
        && r.c.count == k && r.c.tick == now + 200 * Shl(1, k)
        && if ok then
             && r.log == w.log + [r.log[|w.log|]] && Saves(r.c, chunk[n..], una)
             && r.log[|w.log|].seg ==
                  Segment(una, w.c.rcvNxt, Flags(false, false, true, true), 8192 - |w.c.rx|, chunk[n..])
           else r.log == w.log && Saves(r.c, chunk, first)
  {
    hide Wrap, Shl;
    EdgeIsFirst(first, |chunk|);
    if w.c.sndUna < first {
      AckedInside(w.c);
      var n := Acked(w.c);
      assert w.c.tx[n..w.c.txLen] == chunk[n..];
      ZeroWeight(w.c.(sndNxt := w.c.sndUna));
    }
  }

  /** No byte is ever repeated at the sequence number it was first sent with. */
  lemma ResendIsMisplaced(una: u32, chunk: seq<u8>, first: u32, i: nat)
    requires 0 < |chunk| < U32 && una < first
    requires var n := TakenAsAcked(una, chunk, first); 0 <= n <= i < |chunk|
    ensures var n := TakenAsAcked(una, chunk, first); Wrap(una + (i - n)) != Wrap(first + i)
  {
    hide Wrap;
    var n, len := TakenAsAcked(una, chunk, first), |chunk|;
    var start := Wrap(first - len);
    if una > start {
      WrapSum(first - len, i);
      DifferentNumbers(first - len + i, len);
    } else {
      DifferentNumbers(una + i, first - una);
    }
  }

  lemma DifferentNumbers(x: int, d: nat)
    requires 0 < d < U32
    ensures Wrap(x) != Wrap(x + d)
  {
    var p, q := x / U32, (x + d) / U32;
    assert x == p * U32 + Wrap(x) && x + d == q * U32 + Wrap(x + d);
  }

  /** A chunk sent when everything before it is acknowledged is dropped by the next check, whether it arrived or not. */
  lemma ChunkIsForgotten(w: World, chunk: seq<u8>, t: nat, now: nat, ok: bool)
    requires Sized(w.c) && w.c.active && w.c.state == Established && chunk != [] && Fits(chunk)
    requires w.c.sndUna == w.c.sndNxt
    ensures |chunk| <= TCP_BUF_SIZE
    ensures var v := Step(w, Writes(chunk, t, true));
      var r := Step(v, Checks(now, ok));
      r.c.txLen == 0 && r.log == v.log
  {
    hide Wrap;
    WriteSaves(w, chunk, t);
    ResendIs(Step(w, Writes(chunk, t, true)), chunk, w.c.sndNxt, now, ok);
  }
}
