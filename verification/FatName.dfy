/**
  8.3 names (src/fs/fat32.cpp): the eleven bytes of a directory entry against the name a
  caller writes, in both directions.
 */
module FatName {
  import opened Machine

  const SPACE: u8 := 0x20
  const DOT: u8 := 0x2E

  type Name11 = s: seq<u8> | |s| == 11 witness seq(11, _ => 0)

  function Lower(b: u8): (r: u8) { if 0x41 <= b <= 0x5A then b + 32 else b }
  function Upper(b: u8): (r: u8) { if 0x61 <= b <= 0x7A then b - 32 else b }

  function Lowered(s: seq<u8>): (r: seq<u8>)
    ensures |r| == |s| && forall i :: 0 <= i < |s| ==> r[i] == Lower(s[i])
  {
    seq(|s|, i requires 0 <= i < |s| => Lower(s[i]))
  }

  function Uppered(s: seq<u8>): (r: seq<u8>)
    ensures |r| == |s| && forall i :: 0 <= i < |s| ==> r[i] == Upper(s[i])
  {
    seq(|s|, i requires 0 <= i < |s| => Upper(s[i]))
  }

  function Padded(s: seq<u8>, n: nat): (r: seq<u8>)
    requires |s| <= n
    ensures |r| == n
  {
    s + seq(n - |s|, _ => SPACE)
  }

  /** What fat_name_to_string writes, without the terminator. */
  function ToName(fat: Name11): (name: seq<u8>)
  {
    var base, ext := fat[..8], fat[8..];
    Lowered(base[..Before(base, SPACE)]) +
    if fat[8] != SPACE then [DOT] + Lowered(ext[..Before(ext, SPACE)]) else []
  }

  /** What string_to_fat_name writes: up to 8 bytes before the first dot, up to 3 after it. */
  function FromName(name: seq<u8>): (fat: Name11)
  {
    var dot := Before(name, DOT);
    var base := name[..Min(dot, 8)];
    var ext := if dot < |name| then name[dot + 1..][..Min(|name| - dot - 1, 3)] else [];
    Padded(Uppered(base), 8) + Padded(Uppered(ext), 3)
  }

  predicate Plain(b: u8) { b != SPACE && !(0x41 <= b <= 0x5A) }

  /** Lower-case names without spaces: up to 8 bytes, then optionally a dot and 1 to 3 bytes. */
  predicate Canonical(base: seq<u8>, ext: seq<u8>)
  {
    && |base| <= 8 && |ext| <= 3
    && (forall i :: 0 <= i < |base| ==> Plain(base[i]) && base[i] != DOT)
    && (forall i :: 0 <= i < |ext| ==> Plain(ext[i]))
  }

  function Join(base: seq<u8>, ext: seq<u8>): (name: seq<u8>)
  {
    if ext == [] then base else base + [DOT] + ext
  }

  lemma PaddedBefore(s: seq<u8>, n: nat)
    requires |s| <= n && forall i :: 0 <= i < |s| ==> s[i] != SPACE
    ensures Before(Padded(s, n), SPACE) == |s| && Padded(s, n)[..|s|] == s
  {
    BeforeIs(Padded(s, n), SPACE, |s|);
  }

  lemma LowerUpper(s: seq<u8>)
    requires forall i :: 0 <= i < |s| ==> Plain(s[i])
    ensures Lowered(Uppered(s)) == s && forall i :: 0 <= i < |s| ==> Uppered(s)[i] != SPACE
  {
  }

  lemma FromJoined(base: seq<u8>, ext: seq<u8>)
    requires Canonical(base, ext)
    ensures FromName(Join(base, ext)) == Padded(Uppered(base), 8) + Padded(Uppered(ext), 3)
  {
    var name := Join(base, ext);
    BeforeIs(name, DOT, |base|);
    assert name[..|base|] == base;
    if ext != [] { assert name[|base| + 1..] == ext; assert ext[..|ext|] == ext; }
  }

  /** The eleven bytes of a canonical name: capital letters, blanks behind base and extension, no dot. */
  lemma StoredBytes(base: seq<u8>, ext: seq<u8>, i: nat)
    requires Canonical(base, ext) && i < 11
    ensures FromName(Join(base, ext))[i] ==
      if i < |base| then Capital(base[i]) else if 8 <= i < 8 + |ext| then Capital(ext[i - 8]) else 0x20
  {
    hide FromName, Join;
    FromJoined(base, ext);
  }

  function Capital(b: u8): (r: u8) { if 0x61 <= b < 0x61 + 26 then b - 0x20 else b }

  /** A canonical name survives the way into a directory entry and back. */
  lemma NameRoundTrip(base: seq<u8>, ext: seq<u8>)
    requires Canonical(base, ext)
    ensures ToName(FromName(Join(base, ext))) == Join(base, ext)
  {
    hide Before, FromName, Lowered, Uppered, Padded;
    FromJoined(base, ext);
    var fat := FromName(Join(base, ext));
    assert fat[..8] == Padded(Uppered(base), 8) && fat[8..] == Padded(Uppered(ext), 3);
    LowerUpper(base);
    LowerUpper(ext);
    PaddedBefore(Uppered(base), 8);
    PaddedBefore(Uppered(ext), 3);
    assert ext != [] ==> fat[8] == Uppered(ext)[0];
  }

  /** The eleven bytes such a name is stored as. */
  predicate CanonicalForm(fat: Name11)
  {
    var base, ext := fat[..8], fat[8..];
    && (forall i :: 0 <= i < 11 ==> !(0x61 <= fat[i] <= 0x7A))
    && (forall i :: Before(base, SPACE) <= i < 8 ==> fat[i] == SPACE)
    && (forall i :: 0 <= i < Before(base, SPACE) ==> fat[i] != DOT)
    && (forall i :: 8 + Before(ext, SPACE) <= i < 11 ==> fat[i] == SPACE)
  }

  lemma UpperLower(s: seq<u8>)
    requires forall i :: 0 <= i < |s| ==> !(0x61 <= s[i] <= 0x7A)
    ensures Uppered(Lowered(s)) == s
  {
  }

  /** A stored name is reproduced from the string it shows as. */
  lemma FormRoundTrip(fat: Name11)
    requires CanonicalForm(fat)
    ensures FromName(ToName(fat)) == fat
  {
    hide Before, FromName, Lowered, Uppered;
    var base, ext := fat[..8][..Before(fat[..8], SPACE)], fat[8..][..Before(fat[8..], SPACE)];
    FormParts(fat);
    FromJoined(Lowered(base), Lowered(ext));
    UpperLower(base);
    UpperLower(ext);
    assert fat == fat[..8] + fat[8..];
  }

  /** One field of a stored name: a run without blanks, filled up with blanks. */
  lemma FieldParts(s: seq<u8>)
    requires forall i :: 0 <= i < |s| ==> !(0x61 <= s[i] <= 0x7A)
    requires forall i :: Before(s, SPACE) <= i < |s| ==> s[i] == SPACE
    ensures var text := s[..Before(s, SPACE)];
      && Padded(text, |s|) == s && (forall i :: 0 <= i < |text| ==> !(0x61 <= text[i] <= 0x7A))
      && (forall i :: 0 <= i < |text| ==> Plain(Lowered(text)[i]))
      && (forall i :: 0 <= i < |text| ==> Lowered(text)[i] == DOT ==> s[i] == DOT)
  {
  }

  lemma FormParts(fat: Name11)
    requires CanonicalForm(fat)
    ensures var base, ext := fat[..8][..Before(fat[..8], SPACE)], fat[8..][..Before(fat[8..], SPACE)];
      && ToName(fat) == Join(Lowered(base), Lowered(ext)) && Canonical(Lowered(base), Lowered(ext))
      && Padded(base, 8) == fat[..8] && Padded(ext, 3) == fat[8..]
      && (forall i :: 0 <= i < |base| ==> !(0x61 <= base[i] <= 0x7A))
      && (forall i :: 0 <= i < |ext| ==> !(0x61 <= ext[i] <= 0x7A))
  {
    hide Before, Lowered, Padded, Plain;
    var left, right := fat[..8], fat[8..];
    assert forall i :: 0 <= i < 8 ==> left[i] == fat[i];
    assert forall i :: 0 <= i < 3 ==> right[i] == fat[8 + i];
    FieldParts(left);
    FieldParts(right);
    var base := Lowered(left[..Before(left, SPACE)]);
    var ext := Lowered(right[..Before(right, SPACE)]);
    assert fat[8] == right[0];
    assert ext == [] ==> ToName(fat) == base + [];
    assert ext != [] ==> ToName(fat) == base + ([DOT] + ext) == base + [DOT] + ext;
  }

  // ------------------------------------------------------------ the loops

  /** Copies lower-cased bytes up to a space or the limit. */
  method LowerUntilSpace(s: seq<u8>) returns (r: seq<u8>)
    ensures r == Lowered(s[..Before(s, SPACE)])
  {
    r := [];
    var j := 0;
    while j < |s| && s[j] != SPACE
      invariant 0 <= j <= |s| && r == Lowered(s[..j])
      invariant forall i :: 0 <= i < j ==> s[i] != SPACE
    {
      r := r + [if 0x41 <= s[j] <= 0x5A then s[j] + 32 else s[j]];
      j := j + 1;
    }
    BeforeIs(s, SPACE, j);
  }

  method FatNameToString(fat: Name11) returns (name: seq<u8>)
    ensures name == ToName(fat)
  {
    hide Before, Lowered;
    name := LowerUntilSpace(fat[..8]);
    if fat[8] != SPACE {
      var ext := LowerUntilSpace(fat[8..]);
      name := name + [DOT] + ext;
    }
  }

  /** Copies upper-cased bytes over the blanks of a field. */
  method UpperInto(s: seq<u8>, width: nat) returns (r: seq<u8>)
    requires |s| <= width
    ensures r == Padded(Uppered(s), width)
  {
    r := seq(width, _ => SPACE);
    var i := 0;
    while i < |s|
      invariant 0 <= i <= |s| && |r| == width
      invariant forall k :: 0 <= k < i ==> r[k] == Upper(s[k])
      invariant forall k :: i <= k < width ==> r[k] == SPACE
    {
      r := r[i := if 0x61 <= s[i] <= 0x7A then s[i] - 32 else s[i]];
      i := i + 1;
    }
  }

  method StringToFatName(name: seq<u8>) returns (fat: Name11)
    ensures fat == FromName(name)
  {
    hide Before, Uppered, Padded;
    var p := 0;
    while p < |name| && name[p] != DOT
      invariant 0 <= p <= |name|
      invariant forall k :: 0 <= k < p ==> name[k] != DOT
    {
      p := p + 1;
    }
    BeforeIs(name, DOT, p);
    var base := UpperInto(name[..Min(p, 8)], 8);
    var rest: seq<u8> := if p < |name| then name[p + 1..][..Min(|name| - p - 1, 3)] else [];
    var ext := UpperInto(rest, 3);
    fat := base + ext;
  }
}
