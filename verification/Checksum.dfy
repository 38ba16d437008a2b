/**
  The Internet checksum (inet_checksum in src/net/net.cpp, tcp_checksum in src/net/tcp.cpp).

  The kernel adds 16-bit words in memory order on a little-endian machine; RFC 1071
  defines the sum over words in network order.  Both are modelled, and shown to put the
  same two bytes on the wire.
 */
module Checksum {
  import opened Machine

  const MAX_BYTES: nat := 131074     // 65537 words, the most whose sum fits 32 bits

  // ------------------------------------------------------------ definitions

  /** A 16-bit word from its low and its high byte. */
  function Word(lo: int, hi: int): (w: int) { lo + 256 * hi }

  /** The sum of the words as the machine loads them; a last odd byte counts as itself. */
  function SumLE(d: seq<u8>): (s: nat)
  {
    if |d| == 0 then 0
    else if |d| == 1 then d[0]
    else Word(d[0], d[1]) + SumLE(d[2..])
  }

  /** The sum of section 1 of RFC 1071: network order, odd data padded with a zero byte. */
  function SumBE(d: seq<u8>): (s: nat)
  {
    if |d| == 0 then 0
    else if |d| == 1 then 256 * d[0]
    else Word(d[1], d[0]) + SumBE(d[2..])
  }

  /** Adding the carries back in until 16 bits remain. */
  function Fold(sum: nat): (r: nat)
    ensures r < U16
  {
    if sum < U16 then sum else Fold(sum % U16 + sum / U16)
  }

  /** The checksum of RFC 1071, as a number. */
  function Rfc1071(d: seq<u8>): (c: u16) { 0xFFFF - Fold(SumBE(d)) }

  /** The checksum as the kernel computes it, as a number in the machine's byte order. */
  function Kernel(d: seq<u8>): (c: u16) { 0xFFFF - Fold(SumLE(d)) }

  function StoredLE(c: u16): (bytes: seq<u8>) { [c % 256, c / 256] }
  function WireBE(c: u16): (bytes: seq<u8>) ensures |bytes| == 2 { [c / 256, c % 256] }

  /** Byte i counts 256 times if i is even and once if it is odd. */
  function Weighted(d: seq<u8>): (s: nat)
  {
    if d == [] then 0
    else Weighted(d[..|d| - 1]) + (if |d| % 2 == 1 then 256 else 1) * d[|d| - 1] as nat
  }

  /** The sum of the words is the sum of the weighted bytes. */
  lemma {:induction false} SumIsWeighted(d: seq<u8>)
    ensures SumBE(d) == Weighted(d)
    decreases |d|
  {
    if |d| >= 2 {
      SumIsWeighted(d[2..]);
      WeightedFront(d);
    } else if |d| == 1 {
      assert d[..0] == [];
    }
  }

  lemma {:induction false} WeightedFront(d: seq<u8>)
    requires |d| >= 2
    ensures Weighted(d) == 256 * d[0] as nat + d[1] as nat + Weighted(d[2..])
    decreases |d|
  {
    if |d| == 2 {
      assert d[..1][..0] == [] && d[..1][0] == d[0] && d[2..] == [];
    } else {
      var e := d[..|d| - 1];
      WeightedFront(e);
      assert e[2..] == d[2..][..|d| - 3] && d[2..][|d| - 3] == d[|d| - 1];
    }
  }

  // ------------------------------------------------------------ the 32-bit limit

  lemma {:induction false} SumBound(d: seq<u8>)
    ensures SumLE(d) <= (|d| + 1) / 2 * 0xFFFF
  {
    if |d| >= 2 { SumBound(d[2..]); }
  }

  /** Up to MAX_BYTES bytes the sum stays in 32 bits. */
  lemma SumFits(d: seq<u8>)
    requires |d| <= MAX_BYTES
    ensures SumLE(d) < U32
  {
    SumBound(d);
  }

  lemma {:induction false} SumOfOnes(n: nat)
    ensures SumLE(seq(2 * n, _ => 0xFF)) == n * 0xFFFF
  {
    if n != 0 {
      var d := seq(2 * n, _ => 0xFF as u8);
      assert d[2..] == seq(2 * (n - 1), _ => 0xFF);
      SumOfOnes(n - 1);
    }
  }

  /** The limit is exact: two bytes more can overflow. */
  lemma SumLimitIsTight()
    ensures SumLE(seq(MAX_BYTES, _ => 0xFF)) == U32 - 1
    ensures SumLE(seq(MAX_BYTES + 2, _ => 0xFF)) >= U32
  {
    SumOfOnes(65537);
    SumOfOnes(65538);
  }

  // ------------------------------------------------------------ residues

  /** The representative of a sum modulo 65535 that one's-complement addition keeps. */
  function Residue(s: nat): (r: nat)
    ensures r < U16
  {
    if s == 0 then 0 else (s - 1) % 0xFFFF + 1
  }

  lemma ResidueUnique(s: nat, x: nat, z: int)
    requires s >= 1 && 1 <= x <= 0xFFFF && s == x + 0xFFFF * z
    ensures Residue(s) == x
  {
    assert s - 1 == (x - 1) + 0xFFFF * z;
  }

  /** Folding ends at the residue. */
  lemma {:induction false} FoldIsResidue(sum: nat)
    ensures Fold(sum) == Residue(sum)
    decreases sum
  {
    if sum >= U16 {
      var h, l := sum / U16, sum % U16;
      FoldIsResidue(l + h);
      var r, q := Residue(l + h), (l + h - 1) / 0xFFFF;
      assert l + h == r + 0xFFFF * q;
      ResidueUnique(sum, r, q + h);
    }
  }

  /** Exchanging the bytes of every word multiplies the sum by 256 modulo 65535. */
  lemma {:induction false} SwapSum(d: seq<u8>) returns (k: nat)
    ensures SumLE(d) + 0xFFFF * k == 256 * SumBE(d)
    ensures SumLE(d) == 0 <==> SumBE(d) == 0
  {
    if |d| == 0 {
      k := 0;
    } else if |d| == 1 {
      k := d[0];
    } else {
      var j := SwapSum(d[2..]);
      k := j + d[0];
    }
  }

  function Swapped(x: u16): (r: u16) { x % 256 * 256 + x / 256 }

  lemma FoldsAreSwapped(d: seq<u8>)
    ensures Fold(SumLE(d)) == Swapped(Fold(SumBE(d)))
  {
    var k := SwapSum(d);
    var L, B := SumLE(d), SumBE(d);
    FoldIsResidue(L);
    FoldIsResidue(B);
    if B > 0 {
      var f, q := Residue(B), (B - 1) / 0xFFFF;
      assert B == f + 0xFFFF * q;
      assert Swapped(f) == 256 * f - 0xFFFF * (f / 256);
      assert L == Swapped(f) + 0xFFFF * (f / 256 + 256 * q - k);
      ResidueUnique(L, Swapped(f), f / 256 + 256 * q - k);
    }
  }

  /** The kernel's checksum, stored in memory order, is the checksum of RFC 1071 on the wire. */
  lemma WireBytesAgree(d: seq<u8>)
    ensures StoredLE(Kernel(d)) == WireBE(Rfc1071(d))
  {
    FoldsAreSwapped(d);
    SwapComplement(Fold(SumBE(d)));
  }

  lemma SwapComplement(f: u16)
    ensures StoredLE(0xFFFF - Swapped(f)) == WireBE(0xFFFF - f)
  {
    var a, b := f / 256, f % 256;
    assert 0xFFFF - Swapped(f) == 256 * (255 - b) + (255 - a);
    assert 0xFFFF - f == 256 * (255 - a) + (255 - b);
  }

  // ------------------------------------------------------------ filling in and checking

  lemma {:induction false} SumUpdate(d: seq<u8>, at: nat, c: u16)
    requires at % 2 == 0 && at + 1 < |d| && d[at] == 0 && d[at + 1] == 0
    ensures SumLE(d[at := c % 256][at + 1 := c / 256]) == SumLE(d) + c
  {
    var e := d[at := c % 256][at + 1 := c / 256];
    if at == 0 {
      assert e[2..] == d[2..];
    } else {
      SumUpdate(d[2..], at - 2, c);
      assert e[2..] == d[2..][at - 2 := c % 256][at - 2 + 1 := c / 256];
    }
  }

  /** Storing the checksum in its zeroed field makes the check come out as zero. */
  lemma FilledFieldVerifies(d: seq<u8>, at: nat)
    requires at % 2 == 0 && at + 1 < |d| && d[at] == 0 && d[at + 1] == 0
    ensures var bytes := StoredLE(Kernel(d));
      Kernel(d[at := bytes[0]][at + 1 := bytes[1]]) == 0
  {
    hide SumLE, Fold;
    var c := Kernel(d);
    SumUpdate(d, at, c);
    FoldToOnes(SumLE(d));
  }

  /** Adding the complement of its own fold makes a sum fold to all ones. */
  lemma FoldToOnes(s: nat)
    ensures Fold(s + (0xFFFF - Fold(s))) == 0xFFFF
  {
    hide Fold, Residue;
    var f := Residue(s);
    FoldIsResidue(s);
    FoldIsResidue(s + (0xFFFF - f));
    if s > 0 {
      var q := ResidueQuotient(s);
      ResidueUnique(s + (0xFFFF - f), 0xFFFF, q);
    } else {
      ResidueOfZero();
      ResidueUnique(0xFFFF, 0xFFFF, 0);
    }
  }

  lemma ResidueOfZero()
    ensures Residue(0) == 0
  {
  }

  lemma ResidueQuotient(s: nat) returns (q: nat)
    requires s > 0
    ensures s == Residue(s) + 0xFFFF * q
  {
    q := (s - 1) / 0xFFFF;
  }

  // ------------------------------------------------------------ the loops

  /** The word loop and the odd byte, in 32-bit arithmetic, starting from a partial sum. */
  method AddWords(start: u32, d: seq<u8>) returns (sum: u32)
    ensures sum == Add32(start, SumLE(d))
  {
    hide SumLE, Add32;
    sum := start;
    var i, len := 0, |d|;
    assert d[0..] == d;
    while len > 1
      invariant 0 <= i && 0 <= len && i + len == |d|
      invariant Add32(sum, SumLE(d[i..])) == Add32(start, SumLE(d))
    {
      var word := Word(d[i], d[i + 1]);
      SumFrom(d, i);
      WrapAdd(sum, word, SumLE(d[i + 2..]));
      sum := Add32(sum, word);
      i, len := i + 2, len - 2;
    }
    SumFrom(d, i);
    AddNothing(sum);
    if len == 1 {
      sum := Add32(sum, d[i]);
    }
  }

  /** Addition of unsigned 32-bit numbers. */
  function Add32(a: nat, b: nat): (r: u32) { (a + b) % U32 }

  lemma SumFrom(d: seq<u8>, i: nat)
    requires i <= |d|
    ensures SumLE(d[i..]) ==
      if i == |d| then 0 else if i + 1 == |d| then d[i] else Word(d[i], d[i + 1]) + SumLE(d[i + 2..])
  {
    if i + 1 < |d| { assert d[i..][2..] == d[i + 2..]; }
  }

  lemma AddNothing(a: u32)
    ensures Add32(a, 0) == a
  {
  }

  lemma WrapAdd(a: nat, b: nat, c: nat)
    ensures Add32(Add32(a, b), c) == Add32(a, b + c)
  {
    var q, r := (a + b) / U32, (a + b) % U32;
    assert a + b + c == (r + c) + U32 * q;
  }

  method FoldLoop(start: u32) returns (c: u16)
    ensures c == 0xFFFF - Fold(start)
  {
    var sum: u32 := start;
    while sum / U16 != 0
      invariant Fold(sum) == Fold(start)
      decreases sum
    {
      sum := sum % U16 + sum / U16;
    }
    c := 0xFFFF - sum;
  }

  /** inet_checksum; beyond MAX_BYTES bytes the 32-bit sum may wrap. */
  method InetChecksum(d: seq<u8>) returns (c: u16)
    ensures c == 0xFFFF - Fold(SumLE(d) % U32)
    ensures |d| <= MAX_BYTES ==> c == Kernel(d)
  {
    hide SumLE, Fold;
    var sum := AddWords(0, d);
    c := FoldLoop(sum);
    if |d| <= MAX_BYTES {
      SumFits(d);
      assert SumLE(d) % U32 == SumLE(d);
    }
  }

  // ------------------------------------------------------------ TCP

  const IP_PROTO_TCP: nat := 6

  /** The pseudo-header of section 3.1 of RFC 9293. */
  function PseudoHeader(src: seq<u8>, dst: seq<u8>, tcpLen: nat): (h: seq<u8>)
    requires |src| == 4 && |dst| == 4
    ensures |h| == 12
  {
    src + dst + [0, IP_PROTO_TCP, tcpLen % U16 / 256, tcpLen % 256]
  }

  lemma {:induction false} SumConcat(a: seq<u8>, b: seq<u8>)
    requires |a| % 2 == 0
    ensures SumLE(a + b) == SumLE(a) + SumLE(b)
  {
    if a == [] {
      assert a + b == b;
    } else {
      SumConcat(a[2..], b);
      assert (a + b)[2..] == a[2..] + b;
    }
  }

  lemma PseudoSum(src: seq<u8>, dst: seq<u8>, tcpLen: nat)
    requires |src| == 4 && |dst| == 4
    ensures SumLE(PseudoHeader(src, dst, tcpLen)) ==
      Word(src[0], src[1]) + Word(src[2], src[3]) + Word(dst[0], dst[1]) + Word(dst[2], dst[3])
      + Word(0, IP_PROTO_TCP) + Word(tcpLen % U16 / 256, tcpLen % 256)
  {
    var tail: seq<u8> := [0, IP_PROTO_TCP, tcpLen % U16 / 256, tcpLen % 256];
    SumOfFour(src);
    SumOfFour(dst);
    SumOfFour(tail);
    SumConcat(src + dst, tail);
    SumConcat(src, dst);
  }

  lemma SumOfFour(d: seq<u8>)
    requires |d| == 4
    ensures SumLE(d) == Word(d[0], d[1]) + Word(d[2], d[3])
  {
    assert SumLE(d) == Word(d[0], d[1]) + SumLE(d[2..]);
    assert SumLE(d[2..]) == Word(d[2], d[3]) + SumLE(d[2..][2..]);
  }

  /** The pseudo-header, summed field by field. */
  method AddPseudoHeader(src: seq<u8>, dst: seq<u8>, tcpLen: nat) returns (sum: u32)
    requires |src| == 4 && |dst| == 4
    ensures sum == SumLE(PseudoHeader(src, dst, tcpLen))
  {
    hide SumLE, PseudoHeader, Swapped;
    PseudoSum(src, dst, tcpLen);
    SwappedFields(tcpLen);
    sum := Word(src[0], src[1]);
    sum := sum + Word(src[2], src[3]);
    sum := sum + Word(dst[0], dst[1]);
    sum := sum + Word(dst[2], dst[3]);
    sum := sum + Swapped(IP_PROTO_TCP);
    sum := sum + Swapped(tcpLen % U16);
  }

  /** Protocol and length as the machine loads them. */
  lemma SwappedFields(tcpLen: nat)
    ensures Swapped(IP_PROTO_TCP) == Word(0, IP_PROTO_TCP) == 0x600
    ensures Swapped(tcpLen % U16) == Word(tcpLen % U16 / 256, tcpLen % 256) < U16
  {
    assert tcpLen % U16 % 256 == tcpLen % 256;
  }

  /** tcp_checksum is inet_checksum of the pseudo-header followed by the segment. */
  method TcpChecksum(src: seq<u8>, dst: seq<u8>, segment: seq<u8>) returns (c: u16)
    requires |src| == 4 && |dst| == 4
    ensures c == 0xFFFF - Fold(SumLE(PseudoHeader(src, dst, |segment|) + segment) % U32)
    ensures |segment| + 12 <= MAX_BYTES ==> c == Kernel(PseudoHeader(src, dst, |segment|) + segment)
  {
    hide SumLE, Fold, PseudoHeader;
    var sum := AddPseudoHeader(src, dst, |segment|);
    SumConcat(PseudoHeader(src, dst, |segment|), segment);
    sum := AddWords(sum, segment);
    c := FoldLoop(sum);
    if |segment| + 12 <= MAX_BYTES { SumFits(PseudoHeader(src, dst, |segment|) + segment); }
  }
}
