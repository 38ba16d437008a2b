/**
  Machine integers, bitwise operators and byte order.

  The kernel's unsigned types are subset types of `int`, so every place where the
  hardware wraps has to say so.  The operators `&` and `|` are defined on the binary
  digits of natural numbers; the lemmas relate the masks and flag words the kernel
  uses to division and remainder.
 */
module Machine {
  const U16: nat := 0x1_0000
  const U32: nat := 0x1_0000_0000
  const U64: nat := 0x1_0000_0000_0000_0000

  type u8 = x: int | 0 <= x < 0x100
  type u16 = x: int | 0 <= x < 0x1_0000
  type u32 = x: int | 0 <= x < 0x1_0000_0000
  type u64 = x: int | 0 <= x < 0x1_0000_0000_0000_0000

  datatype Option<+T> = None | Some(value: T)

  function Min(a: int, b: int): (r: int) { if a < b then a else b }

  // ---------------------------------------------------------------- bits

  /** `w << k` on unbounded numbers. */
  function Shl(w: nat, k: nat): (r: nat)
  {
    if k == 0 then w else 2 * Shl(w, k - 1)
  }

  /** `w >> k`. */
  function Shr(w: nat, k: nat): (r: nat)
  {
    if k == 0 then w else Shr(w / 2, k - 1)
  }

  /** `2^k - 1`. */
  function Ones(k: nat): (r: nat)
  {
    if k == 0 then 0 else 2 * Ones(k - 1) + 1
  }

  /** Bitwise conjunction: digit by digit, least significant first. */
  function And(a: nat, b: nat): (r: nat)
    ensures r <= a && r <= b
  {
    if a == 0 || b == 0 then 0
    else (if a % 2 == 1 && b % 2 == 1 then 1 else 0) + 2 * And(a / 2, b / 2)
  }

  /** Bitwise disjunction. */
  function Or(a: nat, b: nat): (r: nat)
    ensures a <= r && b <= r && r <= a + b
  {
    if a == 0 then b
    else if b == 0 then a
    else (if a % 2 == 1 || b % 2 == 1 then 1 else 0) + 2 * Or(a / 2, b / 2)
  }

  /** `w & (2^k - 1)` is what is left of w after its high digits are taken away. */
  lemma {:induction false} AndLow(w: nat, k: nat)
    ensures And(w, Ones(k)) == w - Shl(Shr(w, k), k)
  {
    if k == 0 {
    } else {
      AndLow(w / 2, k - 1);
      assert Ones(k) / 2 == Ones(k - 1);
      assert Shl(Shr(w, k), k) == 2 * Shl(Shr(w / 2, k - 1), k - 1);
      ShlZero(k);
    }
  }

  lemma {:induction false} ShlZero(k: nat)
    ensures Shl(0, k) == 0 && Shr(0, k) == 0
  {
    if k != 0 { ShlZero(k - 1); }
  }

  /** A mask whose low k digits are clear selects from `w >> k`. */
  lemma {:induction false} AndHigh(w: nat, m: nat, k: nat)
    ensures And(w, Shl(m, k)) == Shl(And(Shr(w, k), m), k)
  {
    if k != 0 {
      AndHigh(w / 2, m, k - 1);
      assert Shl(m, k) / 2 == Shl(m, k - 1);
    }
  }

  /** When the operands use different digits, `|` adds. */
  lemma {:induction false} OrDisjoint(a: nat, f: nat, k: nat)
    requires f <= Ones(k)
    ensures Or(Shl(a, k), f) == Shl(a, k) + f
  {
    if k != 0 {
      OrDisjoint(a, f / 2, k - 1);
    }
  }

  lemma {:induction false} ShiftSplit(w: nat, j: nat, k: nat)
    ensures Shr(w, j + k) == Shr(Shr(w, j), k)
    ensures Shl(w, j + k) == Shl(Shl(w, j), k)
    decreases j + k
  {
    if j != 0 { ShiftSplit(w / 2, j - 1, k); }
    if k != 0 { ShiftSplit(w, j, k - 1); }
  }

  lemma ShiftBy1(w: nat)
    ensures Shr(w, 1) == w / 2 && Shl(w, 1) == w * 2
  {
    assert Shr(w, 1) == Shr(w / 2, 0);
    assert Shl(w, 1) == 2 * Shl(w, 0);
  }

  lemma ShiftBy2(w: nat)
    ensures Shr(w, 2) == w / 4 && Shl(w, 2) == w * 4
  {
    assert Shr(w, 2) == Shr(w / 2, 1) == Shr(w / 2 / 2, 0);
    assert Shl(w, 2) == 2 * Shl(w, 1) == 2 * (2 * Shl(w, 0));
  }

  lemma ShiftBy3(w: nat)
    ensures Shr(w, 3) == w / 8 && Shl(w, 3) == w * 8
  {
    ShiftSplit(w, 1, 2); ShiftBy1(w); ShiftBy2(w / 2); ShiftBy2(w * 2);
  }

  lemma ShiftBy4(w: nat)
    ensures Shr(w, 4) == w / 0x10 && Shl(w, 4) == w * 0x10
  {
    hide Shl, Shr;
    ShiftSplit(w, 2, 2); ShiftBy2(w); ShiftBy2(w / 4); ShiftBy2(w * 4);
  }

  lemma ShiftBy6(w: nat)
    ensures Shr(w, 6) == w / 0x40 && Shl(w, 6) == w * 0x40
  {
    hide Shl, Shr;
    ShiftSplit(w, 4, 2); ShiftBy4(w); ShiftBy2(w / 0x10); ShiftBy2(w * 0x10);
  }

  lemma ShiftBy9(w: nat)
    ensures Shr(w, 9) == w / 0x200
  {
    hide Shl, Shr;
    ShiftSplit(w, 6, 2); ShiftBy6(w); ShiftBy2(w / 0x40);
    ShiftSplit(w, 8, 1); ShiftBy1(w / 0x100);
  }

  lemma ShiftBy21(w: nat)
    ensures Shr(w, 21) == w / 0x20_0000
  {
    hide Shl, Shr;
    ShiftSplit(w, 12, 9); ShiftBy12(w); ShiftBy9(w / 0x1000);
  }

  lemma ShiftBy30(w: nat)
    ensures Shr(w, 30) == w / 0x4000_0000
  {
    hide Shl, Shr;
    ShiftSplit(w, 21, 9); ShiftBy21(w); ShiftBy9(w / 0x20_0000);
  }

  lemma ShiftBy12(w: nat)
    ensures Shr(w, 12) == w / 0x1000 && Shl(w, 12) == w * 0x1000
  {
    hide Shl, Shr;
    ShiftSplit(w, 6, 6); ShiftBy6(w); ShiftBy6(w / 0x40); ShiftBy6(w * 0x40);
  }

  lemma ShiftBy28(w: nat)
    ensures Shr(w, 28) == w / 0x1000_0000 && Shl(w, 28) == w * 0x1000_0000
  {
    hide Shl, Shr;
    ShiftSplit(w, 12, 12); ShiftBy12(w); ShiftBy12(w / 0x1000); ShiftBy12(w * 0x1000);
    ShiftSplit(w, 24, 4); ShiftBy4(w / 0x100_0000); ShiftBy4(w * 0x100_0000);
  }

  lemma ShiftBy36(w: nat)
    ensures Shr(w, 36) == w / 0x10_0000_0000 && Shl(w, 36) == w * 0x10_0000_0000
  {
    hide Shl, Shr;
    ShiftSplit(w, 12, 12); ShiftBy12(w); ShiftBy12(w / 0x1000); ShiftBy12(w * 0x1000);
    ShiftSplit(w, 24, 12); ShiftBy12(w / 0x100_0000); ShiftBy12(w * 0x100_0000);
  }

  lemma OnesValues()
    ensures Ones(6) == 0x3F && Ones(12) == 0xFFF && Ones(28) == 0x0FFF_FFFF && Ones(36) == 0xF_FFFF_FFFF
  {
    assert Ones(6) == 0x3F;
    assert Ones(12) == 0xFFF;
    assert Ones(18) == 0x3_FFFF;
    assert Ones(24) == 0xFF_FFFF;
    assert Ones(30) == 0x3FFF_FFFF;
  }

  /** The k-th binary digit. */
  predicate Bit(w: nat, k: nat)
  {
    if k == 0 then w % 2 == 1 else Bit(w / 2, k - 1)
  }

  lemma {:induction false} BitOfZero(k: nat)
    ensures !Bit(0, k)
  {
    if k != 0 { BitOfZero(k - 1); }
  }

  lemma {:induction false} BitOfOr(a: nat, b: nat, k: nat)
    ensures Bit(Or(a, b), k) <==> Bit(a, k) || Bit(b, k)
  {
    hide Or;
    OrDigits(a, b);
    if k != 0 { BitOfOr(a / 2, b / 2, k - 1); }
  }

  lemma OrDigits(a: nat, b: nat)
    ensures Or(a, b) / 2 == Or(a / 2, b / 2) && (Or(a, b) % 2 == 1 <==> a % 2 == 1 || b % 2 == 1)
  {
  }

  lemma {:induction false} BitOfAnd(a: nat, b: nat, k: nat)
    ensures Bit(And(a, b), k) <==> Bit(a, k) && Bit(b, k)
  {
    hide And;
    AndDigits(a, b);
    if k != 0 { BitOfAnd(a / 2, b / 2, k - 1); }
  }

  lemma AndDigits(a: nat, b: nat)
    ensures And(a, b) / 2 == And(a / 2, b / 2) && (And(a, b) % 2 == 1 <==> a % 2 == 1 && b % 2 == 1)
  {
  }

  /** `1 << k` has exactly the digit k. */
  lemma {:induction false} BitOfPower(k: nat, j: nat)
    ensures Bit(Shl(1, k), j) <==> j == k
  {
    if k == 0 {
      if j != 0 { BitOfZero(j - 1); }
    } else if j != 0 {
      BitOfPower(k - 1, j - 1);
    }
  }

  /** `w & (1 << k)` tests the digit k. */
  lemma {:induction false} BitTest(w: nat, k: nat)
    ensures And(w, Shl(1, k)) != 0 <==> Bit(w, k)
  {
    if k == 0 {
      AndOne(w);
    } else {
      BitTest(w / 2, k - 1);
      if w == 0 { BitOfZero(k); }
    }
  }

  /** The complement of a byte has exactly the other digits. */
  lemma {:induction false} BitOfComplement(w: nat, n: nat, j: nat)
    requires w <= Ones(n)
    ensures j < n ==> (Bit(Ones(n) - w, j) <==> !Bit(w, j))
  {
    if n != 0 && j != 0 && j < n {
      BitOfComplement(w / 2, n - 1, j - 1);
      assert (Ones(n) - w) / 2 == Ones(n - 1) - w / 2;
    }
  }

  /** Bit 0 of a word. */
  lemma AndOne(w: nat)
    ensures And(w, 1) == w % 2
  {
    AndLow(w, 1);
    assert Ones(1) == 1 && Shr(w, 1) == w / 2 && Shl(w / 2, 1) == 2 * (w / 2);
  }

  /** A mask of one digit. */
  lemma AndDigit(w: nat, k: nat)
    ensures And(w, Shl(1, k)) == Shl(Shr(w, k) % 2, k)
  {
    AndHigh(w, 1, k);
    AndOne(Shr(w, k));
  }

  lemma AndEight(w: nat)
    ensures And(w, 8) == w / 8 % 2 * 8
  {
    hide And, Shl, Shr;
    AndDigit(w, 3);
    ShiftBy3(w); ShiftBy3(1); ShiftBy3(w / 8 % 2);
  }

  lemma AndSixteen(w: nat)
    ensures And(w, 16) == w / 16 % 2 * 16
  {
    hide And, Shl, Shr;
    AndDigit(w, 4);
    ShiftBy4(w); ShiftBy4(1); ShiftBy4(w / 16 % 2);
  }

  lemma AndBit15(w: nat)
    ensures And(w, 0x8000) == w / 0x8000 % 2 * 0x8000
  {
    hide And, Shl, Shr;
    var d := w / 0x8000 % 2;
    AndDigit(w, 15);
    ShiftSplit(w, 12, 3); ShiftBy12(w); ShiftBy3(w / 0x1000);
    ShiftSplit(1, 12, 3); ShiftBy12(1); ShiftBy3(0x1000);
    ShiftSplit(d, 12, 3); ShiftBy12(d); ShiftBy3(0x1000 * d);
    assert w / 0x1000 / 8 == w / 0x8000;
  }

  lemma AndFifteen(w: nat)
    ensures And(w, 15) == w % 16
  {
    AndLow(w, 4);
    ShiftBy4(w); ShiftBy4(w / 16);
    assert Ones(4) == 15;
  }

  /** The output-address field of a descriptor: bits 47 to 12. */
  lemma AndAddress(w: nat)
    ensures And(w, 0x0000_FFFF_FFFF_F000) == w / 0x1000 % 0x10_0000_0000 * 0x1000
  {
    hide And, Shl, Shr, Ones;
    OnesValues();
    ShiftBy12(w); ShiftBy12(Ones(36));
    AndHigh(w, Ones(36), 12);
    AndLow(w / 0x1000, 36);
    ShiftBy36(w / 0x1000); ShiftBy36(w / 0x1000 / 0x10_0000_0000);
    ShiftBy12(w / 0x1000 % 0x10_0000_0000);
  }

  /** A page-aligned address combined with flags from the low 12 bits. */
  lemma OrLowFlags(a: nat, f: nat)
    requires a % 0x1000 == 0 && f < 0x1000
    ensures Or(a, f) == a + f
  {
    hide Or, Shl, Shr, Ones;
    OnesValues();
    ShiftBy12(a / 0x1000);
    OrDisjoint(a / 0x1000, f, 12);
  }

  /** The 28 value bits and the 4 reserved bits of a FAT32 entry. */
  lemma AndFatFields(w: u32)
    ensures And(w, 0x0FFF_FFFF) == w % 0x1000_0000
    ensures And(w, 0xF000_0000) == w / 0x1000_0000 * 0x1000_0000
  {
    hide And, Shl, Shr, Ones;
    OnesValues();
    AndLow(w, 28);
    ShiftBy28(w); ShiftBy28(w / 0x1000_0000);
    AndTopNibble(w);
  }

  lemma AndTopNibble(w: u32)
    ensures And(w, 0xF000_0000) == w / 0x1000_0000 * 0x1000_0000
  {
    var h := w / 0x1000_0000;
    ShiftBy28(w);
    ShiftBy28(0xF);
    AndHigh(w, 0xF, 28);
    assert Ones(4) == 0xF;
    AndLow(h, 4); ShiftBy4(h); ShiftBy4(h / 16);
    ShiftBy28(h);
  }

  /** A nine-bit table index. */
  lemma AndIndex(w: nat)
    ensures And(w, 0x1FF) == w % 0x200
  {
    assert Ones(4) == 0xF && Ones(8) == 0xFF && Ones(9) == 0x1FF;
    AndLow(w, 9);
    ShiftBy9(w);
    ShiftSplit(w / 0x200, 4, 4); ShiftBy4(w / 0x200); ShiftBy4(w / 0x200 * 0x10);
    ShiftSplit(w / 0x200, 8, 1);
    assert Shl(w / 0x200 * 0x100, 1) == 2 * Shl(w / 0x200 * 0x100, 0);
  }

  /** Words of n bits are closed under `|`. */
  lemma {:induction false} OrBound(a: nat, b: nat, n: nat)
    requires a <= Ones(n) && b <= Ones(n)
    ensures Or(a, b) <= Ones(n)
  {
    if n != 0 { OrBound(a / 2, b / 2, n - 1); }
  }

  lemma OrIsU64(a: u64, b: u64)
    ensures Or(a, b) < U64
  {
    OnesValues();
    assert Ones(42) == 0x3FF_FFFF_FFFF;
    assert Ones(48) == 0xFFFF_FFFF_FFFF;
    assert Ones(54) == 0x3F_FFFF_FFFF_FFFF;
    assert Ones(60) == 0xFFF_FFFF_FFFF_FFFF;
    assert Ones(64) == 0xFFFF_FFFF_FFFF_FFFF;
    OrBound(a, b, 64);
  }

  /** Reserved bits and value bits combine without carries. */
  lemma OrFatFields(top: nat, v: nat)
    requires v < 0x1000_0000
    ensures Or(top * 0x1000_0000, v) == top * 0x1000_0000 + v
  {
    OnesValues();
    ShiftBy28(top);
    OrDisjoint(top, v, 28);
  }

  /** The two top bits of a byte. */
  lemma AndTopBits(b: u8)
    ensures And(b, 0xC0) == b / 0x40 * 0x40
  {
    ShiftBy6(b); ShiftBy6(3);
    AndHigh(b, 3, 6);
    assert And(b / 0x40, 3) == b / 0x40 by {
      AndLow(b / 0x40, 2); ShiftBy2(b / 0x40); assert Ones(2) == 3; ShiftBy2(0);
    }
    ShiftBy6(b / 0x40);
  }

  // ---------------------------------------------------------------- byte order

  /** The value of a little-endian byte string. */
  function FromLE(s: seq<u8>): (r: nat)
  {
    if s == [] then 0 else s[0] + 256 * FromLE(s[1..])
  }

  /** The n low-order bytes of w, least significant first. */
  function ToLE(w: nat, n: nat): (s: seq<u8>)
    ensures |s| == n
  {
    if n == 0 then [] else [w % 256] + ToLE(w / 256, n - 1)
  }

  function Pow256(n: nat): (r: nat)
  {
    if n == 0 then 1 else 256 * Pow256(n - 1)
  }

  lemma {:induction false} LERoundTrip(w: nat, n: nat)
    requires w < Pow256(n)
    ensures FromLE(ToLE(w, n)) == w
  {
    if n == 0 {
    } else {
      LERoundTrip(w / 256, n - 1);
      assert ToLE(w, n)[1..] == ToLE(w / 256, n - 1);
    }
  }

  lemma {:induction false} LEBound(s: seq<u8>)
    ensures FromLE(s) < Pow256(|s|)
  {
    if s == [] {
    } else {
      LEBound(s[1..]);
    }
  }

  lemma Pow256Values()
    ensures Pow256(2) == U16 && Pow256(4) == U32 && Pow256(8) == U64
  {
    assert Pow256(4) == U32;
    assert Pow256(6) == 0x1_0000 * U32;
  }

  /** A 16-bit number in network order. */
  function Pair(hi: int, lo: int): (v: int) { 256 * hi + lo }

  /** Bytes in network order as a number. */
  function BigEndian(b: seq<u8>): (v: nat)
  {
    if b == [] then 0 else 256 * BigEndian(b[..|b| - 1]) + b[|b| - 1]
  }

  lemma BigEndian2(b: seq<u8>)
    requires |b| == 2
    ensures BigEndian(b) == Pair(b[0], b[1])
  {
    var front := b[..1];
    assert front[..0] == [] && BigEndian(front) == front[0];
  }

  lemma BigEndian4(b: seq<u8>)
    requires |b| == 4
    ensures BigEndian(b) == 0x1_0000 * Pair(b[0], b[1]) + Pair(b[2], b[3])
  {
    BigEndian2(b[..2]);
    assert b[..3][..2] == b[..2] && b[..3][2] == b[2];
  }

  // ---------------------------------------------------------------- searching bytes

  /** How many bytes come before the first occurrence of b. */
  function Before(s: seq<u8>, b: u8): (n: nat)
    ensures n <= |s| && (n < |s| ==> s[n] == b)
    ensures forall i :: 0 <= i < n ==> s[i] != b
  {
    if s == [] || s[0] == b then 0
    else
      assert forall i :: 0 < i < |s| ==> s[i] == s[1..][i - 1];
      1 + Before(s[1..], b)
  }

  lemma BeforeIs(s: seq<u8>, b: u8, n: nat)
    requires n <= |s| && (n < |s| ==> s[n] == b) && forall i :: 0 <= i < n ==> s[i] != b
    ensures Before(s, b) == n
  {
    var m := Before(s, b);
    assert m < |s| ==> s[m] == b;
  }

  // ---------------------------------------------------------------- products and quotients

  lemma MulLess(a: nat, b: nat, d: nat)
    requires a < b
    ensures a * d + d <= b * d
  {
    assert b * d == (b - a - 1) * d + (a + 1) * d;
    assert (b - a - 1) * d >= 0;
    assert (a + 1) * d == a * d + d;
  }

  lemma DivModUnique(w: nat, d: nat, q: nat, r: nat)
    requires w == q * d + r && r < d
    ensures w / d == q && w % d == r
  {
    var q', r' := w / d, w % d;
    assert w == q' * d + r' && 0 <= r' < d;
    if q < q' { MulLess(q, q', d); } else if q' < q { MulLess(q', q, d); }
  }
}
