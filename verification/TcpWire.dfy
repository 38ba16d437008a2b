/**
  TCP segments as bytes: what send_tcp_segment puts on the wire and what tcp_input reads back (src/net/tcp.cpp).
 */
module TcpWire {
  import opened Machine
  import opened Checksum
  import opened Tcp

  const TCP_HEADER: nat := 20
  const CHECKSUM_AT: nat := 16

  datatype Ports = Ports(source: u16, target: u16)

  function BE32(x: u32): (b: seq<u8>)
    ensures |b| == 4
  {
    [x / 256 / 256 / 256, x / 256 / 256 % 256, x / 256 % 256, x % 256]
  }

  function From32(a: int, b: int, c: int, d: int): (x: int) { 0x100_0000 * a + 0x1_0000 * b + 256 * c + d }

  function FlagByte(f: Flags): (b: u8)
  {
    (if f.fin then 1 else 0) + (if f.syn then 2 else 0) + (if f.psh then 8 else 0) + (if f.ack then 16 else 0)
  }

  function FlagsOf(b: u8): (f: Flags) { Flags(Bit(b, 0), Bit(b, 1), Bit(b, 4), Bit(b, 3)) }

  /** The header fields of a segment, with the checksum still zero. */
  function Header(p: Ports, seg: Segment): (b: seq<u8>)
    requires seg.window < U16
    ensures |b| == TCP_HEADER && b[CHECKSUM_AT] == 0 && b[CHECKSUM_AT + 1] == 0
  {
    WireBE(p.source) + WireBE(p.target) + BE32(seg.seqNum) + BE32(seg.ackNum) + [0x50,
        FlagByte(seg.flags)] + WireBE(seg.window) + [0, 0, 0, 0]
  }

  function Stored(b: seq<u8>, c: u16): (r: seq<u8>)
    requires |b| >= TCP_HEADER
    ensures |r| == |b|
  {
    b[CHECKSUM_AT := StoredLE(c)[0]][CHECKSUM_AT + 1 := StoredLE(c)[1]]
  }

  /** What tcp_input takes from a segment whose header length lies within it. */
  function Parse(b: seq<u8>): (r: Option<(Ports, Segment)>)
  {
    if |b| < TCP_HEADER then None
    else
      var headerLen := b[12] / 16 * 4;
      if headerLen > |b| then None
      else
        var ports := Ports(Pair(b[0], b[1]), Pair(b[2], b[3]));
        Some((ports, Segment(From32(b[4], b[5], b[6], b[7]), From32(b[8], b[9], b[10], b[11]), FlagsOf(b[13]),
            Pair(b[14], b[15]), b[headerLen..])))
  }

  /** What is read from a segment, field by field, whatever its header length. */
  lemma ParseReads(b: seq<u8>)
    requires Parse(b).Some?
    ensures var (p, seg) := Parse(b).value;
      && |b| >= 20 && b[12] / 16 * 4 <= |b| && seg.payload == b[b[12] / 16 * 4..]
      && p.source == BigEndian(b[0..2]) && p.target == BigEndian(b[2..4])
      && seg.seqNum == BigEndian(b[4..8]) && seg.ackNum == BigEndian(b[8..12]) && seg.window == BigEndian(b[14..16])
      && (seg.flags.fin <==> b[13] % 2 == 1) && (seg.flags.syn <==> b[13] / 2 % 2 == 1)
      && (seg.flags.psh <==> b[13] / 8 % 2 == 1) && (seg.flags.ack <==> b[13] / 16 % 2 == 1)
  {
    hide Bit, BigEndian;
    BigEndian2(b[0..2]);
    BigEndian2(b[2..4]);
    BigEndian4(b[4..8]);
    BigEndian4(b[8..12]);
    BigEndian2(b[14..16]);
    LowBits(b[13]);
  }

  lemma RoundTrip16(x: u16)
    ensures Pair(WireBE(x)[0], WireBE(x)[1]) == x
  {
  }

  lemma RoundTrip32(x: u32)
    ensures var b := BE32(x); From32(b[0], b[1], b[2], b[3]) == x
  {
    var y := x / 256;
    var z := y / 256;
    assert x == 256 * y + x % 256 && y == 256 * z + y % 256 && z == 256 * (z / 256) + z % 256;
  }

  lemma RoundTripFlags(f: Flags)
    ensures FlagsOf(FlagByte(f)) == f
  {
    hide Bit;
    LowBits(FlagByte(f));
  }

  lemma LowBits(b: nat)
    ensures Bit(b, 0) == (b % 2 == 1) && Bit(b, 1) == (b / 2 % 2 == 1)
    ensures Bit(b, 3) == (b / 8 % 2 == 1) && Bit(b, 4) == (b / 16 % 2 == 1)
  {
    var c := b / 2 / 2 / 2;
    assert Bit(b, 3) == Bit(b / 2, 2) == Bit(b / 2 / 2, 1) == Bit(c, 0);
    assert Bit(b, 4) == Bit(b / 2, 3) == Bit(b / 2 / 2, 2) == Bit(c, 1) == Bit(c / 2, 0);
    assert c == b / 8 && c / 2 == b / 16;
  }

  /** What is sent is read back as it was meant, whatever the checksum. */
  lemma ParseUndoesBuild(p: Ports, seg: Segment, c: u16)
    requires seg.window < U16
    ensures Parse(Stored(Header(p, seg) + seg.payload, c)) == Some((p, seg))
  {
    hide WireBE, BE32, Pair, From32, FlagByte, FlagsOf;
    var b := Stored(Header(p, seg) + seg.payload, c);
    RoundTrip16(p.source); RoundTrip16(p.target); RoundTrip16(seg.window);
    RoundTrip32(seg.seqNum); RoundTrip32(seg.ackNum);
    RoundTripFlags(seg.flags);
    assert b[12] == 0x50;
    assert b[20..] == seg.payload;
  }

  /** The layout of section 3.1 of RFC 9293, field by field: what a peer reads from the bytes. */
  predicate Laid(b: seq<u8>, p: Ports, seg: Segment)
  {
    && |b| == 20 + |seg.payload|
    && BigEndian(b[0..2]) == p.source && BigEndian(b[2..4]) == p.target
    && BigEndian(b[4..8]) == seg.seqNum && BigEndian(b[8..12]) == seg.ackNum
    && b[12] == 0x50
    && (b[13] % 2 == 1 <==> seg.flags.fin) && (b[13] / 2 % 2 == 1 <==> seg.flags.syn)
    && (b[13] / 8 % 2 == 1 <==> seg.flags.psh) && (b[13] / 16 % 2 == 1 <==> seg.flags.ack)
    && b[13] / 4 % 2 == 0 && b[13] < 32
    && BigEndian(b[14..16]) == seg.window && b[18] == 0 && b[19] == 0 && b[20..] == seg.payload
  }

  /** The check a peer makes: addresses, protocol 6, length and segment sum up to nothing. */
  predicate Verifies(b: seq<u8>, src: seq<u8>, dst: seq<u8>)
  {
    |b| < U16 && Rfc1071(src + dst + [0, 6, |b| / 256, |b| % 256] + b) == 0
  }

  lemma FlagByteBits(f: Flags)
    ensures var b := FlagByte(f);
      && (b % 2 == 1 <==> f.fin) && (b / 2 % 2 == 1 <==> f.syn) && (b / 8 % 2 == 1 <==> f.psh)
      && (b / 16 % 2 == 1 <==> f.ack) && b / 4 % 2 == 0 && b < 32
  {
  }

  lemma WireNumber16(x: u16)
    ensures BigEndian(WireBE(x)) == x
  {
    BigEndian2(WireBE(x));
  }

  lemma WireNumber32(x: u32)
    ensures BigEndian(BE32(x)) == x
  {
    BigEndian4(BE32(x));
    RoundTrip32(x);
  }

  /** The bytes built have this layout, whatever the checksum. */
  lemma BuiltIsLaid(p: Ports, seg: Segment, c: u16)
    requires seg.window < U16
    ensures Laid(Stored(Header(p, seg) + seg.payload, c), p, seg)
  {
    hide WireBE, BE32, FlagByte, BigEndian, StoredLE;
    var b := Stored(Header(p, seg) + seg.payload, c);
    WireNumber16(p.source); WireNumber16(p.target); WireNumber16(seg.window);
    WireNumber32(seg.seqNum); WireNumber32(seg.ackNum);
    FlagByteBits(seg.flags);
    assert b[0..2] == WireBE(p.source) && b[2..4] == WireBE(p.target);
    assert b[4..8] == BE32(seg.seqNum) && b[8..12] == BE32(seg.ackNum);
    assert b[13] == FlagByte(seg.flags) && b[14..16] == WireBE(seg.window);
    assert b[20..] == seg.payload;
  }

  /** The kernel's sum and the peer's agree. */
  lemma PeerAgrees(b: seq<u8>, src: seq<u8>, dst: seq<u8>)
    requires |src| == 4 && |dst| == 4 && |b| < U16 && Kernel(PseudoHeader(src, dst, |b|) + b) == 0
    ensures Verifies(b, src, dst)
  {
    hide SumLE, SumBE, Fold;
    var d := src + dst + [0, 6, |b| / 256, |b| % 256] + b;
    assert PseudoHeader(src, dst, |b|) + b == d;
    FoldsAreSwapped(d);
  }

  /** Building a segment: the header, the payload, then the checksum over both and the pseudo-header. */
  method BuildSegment(p: Ports, seg: Segment, src: seq<u8>, dst: seq<u8>) returns (b: seq<u8>)
    requires seg.window < U16 && |src| == 4 && |dst| == 4 && TCP_HEADER + |seg.payload| + 12 <= MAX_BYTES
    ensures |b| == TCP_HEADER + |seg.payload| && Parse(b) == Some((p, seg)) && Laid(b, p, seg)
    ensures Kernel(PseudoHeader(src, dst, |b|) + b) == 0 && (|b| < U16 ==> Verifies(b, src, dst))
  {
    hide Kernel, PseudoHeader, Parse, Laid, Verifies;
    b := Header(p, seg) + seg.payload;
    var zeroed := b;
    var c := TcpChecksum(src, dst, zeroed);
    b := Stored(zeroed, c);
    ParseUndoesBuild(p, seg, c);
    BuiltIsLaid(p, seg, c);
    var h := PseudoHeader(src, dst, |b|);
    ghost var whole: seq<u8> := h + zeroed;
    FilledFieldVerifies(whole, 12 + CHECKSUM_AT);
    ghost var low: seq<u8> := whole[12 + CHECKSUM_AT := StoredLE(c)[0]];
    assert h + b == low[12 + CHECKSUM_AT + 1 := StoredLE(c)[1]];
    if |b| < U16 { PeerAgrees(b, src, dst); }
  }

  datatype Endpoint = Endpoint(ports: Ports, local: seq<u8>, remote: seq<u8>)

  predicate Addressed(ep: Endpoint) { |ep.local| == 4 && |ep.remote| == 4 }

  /** The bytes say what the segment says, to this kernel and to a peer, and their checksum verifies. */
  predicate Carried(b: seq<u8>, seg: Segment, ep: Endpoint)
  {
    && Addressed(ep) && Parse(b) == Some((ep.ports, seg)) && Laid(b, ep.ports, seg)
    && Kernel(PseudoHeader(ep.local, ep.remote, |b|) + b) == 0 && Verifies(b, ep.local, ep.remote)
  }

  /** The packets sent are the segments of the log. */
  predicate OnWire(wire: seq<seq<u8>>, log: seq<Sent>, ep: Endpoint)
  {
    |wire| == |log| && Addressed(ep) && forall i :: 0 <= i < |log| ==> Carried(wire[i], log[i].seg, ep)
  }
}
