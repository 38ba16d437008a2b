/**
  Directories (src/fs/fat32.cpp): find_in_dir and list_dir over the sectors of a directory's
  cluster chain, and what they have to do with each other.
 */
module FatDir {
  import opened Machine
  import opened Fat32
  import opened FatVolume
  import opened FatName

  const ENTRY: nat := 32
  const PER_SECTOR: nat := 16
  const MAX_FILENAME: nat := 128
  const ATTR_VOLUME_ID: nat := 0x08
  const ATTR_DIRECTORY: nat := 0x10
  const ATTR_LFN: nat := 0x0F
  const SLASH: u8 := 0x2F

  type Entry = s: seq<u8> | |s| == 32 witness seq(32, _ => 0)

  // ------------------------------------------------------------ entries

  function EntryOf(sector: Sector, e: nat): (x: Entry)
    requires e < PER_SECTOR
  {
    sector[ENTRY * e..ENTRY * e + ENTRY]
  }

  function Attr(x: Entry): (a: u8) { x[11] }
  function FirstCluster(x: Entry): (c: nat) { FromLE(x[20..22]) * 0x1_0000 + FromLE(x[26..28]) }
  function FileSize(x: Entry): (n: nat) { FromLE(x[28..32]) }

  predicate HasAttr(x: Entry, mask: nat) { And(Attr(x), mask) != 0 }

  /** Deleted entries, long-name fragments and volume labels. */
  predicate Skipped(x: Entry) { x[0] == 0xE5 || Attr(x) == ATTR_LFN || HasAttr(x, ATTR_VOLUME_ID) }

  /** The text of a C string: what precedes the first zero byte. */
  function CString(s: seq<u8>): (r: seq<u8>) { s[..Before(s, 0)] }

  function ShownName(x: Entry): (name: seq<u8>) { CString(ToName(x[..11])) }

  /** Entry n of the directory whose chain is s. */
  function EntryAt(v: Volume, g: Geometry, s: seq<nat>, n: nat): (x: Entry)
    requires Sized(v, g) && Clusters(g, s) && n / PER_SECTOR / g.spc < |s|
  {
    EntryOf(FileSector(v, g, s, n / PER_SECTOR), n % PER_SECTOR)
  }

  function SectorCount(g: Geometry, s: seq<nat>): (n: nat) { |s| * g.spc }

  lemma InDirectory(g: Geometry, s: seq<nat>, n: nat)
    requires g.spc >= 1 && n < SectorCount(g, s) * PER_SECTOR
    ensures n / PER_SECTOR / g.spc < |s|
  {
    var t := n / PER_SECTOR;
    assert t / g.spc * g.spc <= t < |s| * g.spc;
  }

  /** The entries a directory shows, from index n on: up to the end mark, without the skipped ones. */
  function Visible(v: Volume, g: Geometry, s: seq<nat>, n: nat): (xs: seq<Entry>)
    requires Sized(v, g) && Clusters(g, s) && n <= SectorCount(g, s) * PER_SECTOR
    decreases SectorCount(g, s) * PER_SECTOR - n
  {
    if n == SectorCount(g, s) * PER_SECTOR then []
    else
      InDirectory(g, s, n);
      var x := EntryAt(v, g, s, n);
      if x[0] == 0 then []
      else if Skipped(x) then Visible(v, g, s, n + 1)
      else [x] + Visible(v, g, s, n + 1)
  }

  function FindName(xs: seq<Entry>, name: seq<u8>): (r: Option<Entry>)
  {
    if xs == [] then None
    else if ShownName(xs[0]) == name then Some(xs[0])
    else FindName(xs[1..], name)
  }

  // ------------------------------------------------------------ listings

  datatype DirInfo = DirInfo(name: seq<u8>, size: nat, firstCluster: nat, isDir: bool)

  function InfoOf(x: Entry): (i: DirInfo)
  {
    DirInfo(ShownName(x), FileSize(x), FirstCluster(x), HasAttr(x, ATTR_DIRECTORY))
  }

  function Infos(xs: seq<Entry>): (r: seq<DirInfo>)
    ensures |r| == |xs| && forall i :: 0 <= i < |xs| ==> r[i] == InfoOf(xs[i])
  {
    seq(|xs|, i requires 0 <= i < |xs| => InfoOf(xs[i]))
  }

  /** What list_dir returns when it may return at most `max` entries. */
  function Listing(v: Volume, g: Geometry, s: seq<nat>, max: nat): (r: seq<DirInfo>)
    requires Sized(v, g) && Clusters(g, s)
  {
    var all := Infos(Visible(v, g, s, 0));
    all[..Min(max, |all|)]
  }

  /** find_in_dir returns the first entry that an unlimited listing shows under the name, and only such. */
  lemma {:induction false} FindAgreesWithListing(xs: seq<Entry>, name: seq<u8>)
    ensures FindName(xs, name).None? <==> forall i :: 0 <= i < |xs| ==> Infos(xs)[i].name != name
    ensures FindName(xs, name).Some? ==>
      exists i :: 0 <= i < |xs| && xs[i] == FindName(xs, name).value && Infos(xs)[i].name == name
               && forall j :: 0 <= j < i ==> Infos(xs)[j].name != name
  {
    hide ShownName, FindName;
    var k := FindIndex(xs, name);
    if k < |xs| {
      assert xs[k] == FindName(xs, name).value && Infos(xs)[k].name == name;
    }
  }

  /** Where the search stops. */
  lemma {:induction false} FindIndex(xs: seq<Entry>, name: seq<u8>) returns (k: nat)
    ensures k <= |xs| && FindName(xs, name) == if k < |xs| then Some(xs[k]) else None
    ensures k < |xs| ==> ShownName(xs[k]) == name
    ensures forall j :: 0 <= j < k ==> ShownName(xs[j]) != name
  {
    hide ShownName;
    if xs == [] || ShownName(xs[0]) == name {
      k := 0;
    } else {
      var i := FindIndex(xs[1..], name);
      k := i + 1;
      assert forall j :: 0 < j < k ==> xs[j] == xs[1..][j - 1];
    }
  }

  /** However short a listing is cut, looking up a name it shows finds the first of its own rows with that name. */
  lemma ListedIsFound(v: Volume, g: Geometry, s: seq<nat>, max: nat, i: nat)
    requires Sized(v, g) && Clusters(g, s) && i < |Listing(v, g, s, max)|
    ensures var l, r := Listing(v, g, s, max), FindName(Visible(v, g, s, 0), Listing(v, g, s, max)[i].name);
      && r.Some?
      && exists j :: 0 <= j <= i && l[j] == InfoOf(r.value) && forall k :: 0 <= k < j ==> l[k].name != l[i].name
  {
    hide Visible, ShownName, FindName;
    var l, xs := Listing(v, g, s, max), Visible(v, g, s, 0);
    var j := FindIndex(xs, l[i].name);
    assert l[i] == InfoOf(xs[i]) && j <= i;
    assert l[j] == InfoOf(xs[j]);
  }

  // ------------------------------------------------------------ what a directory shows, byte by byte

  function EntryCount(g: Geometry, s: seq<nat>): (n: nat) { |s| * g.spc * 16 }

  /** Entry n is bytes 32 n to 32 n + 31 of what reading the chain as a file gives. */
  function RawEntry(v: Volume, g: Geometry, s: seq<nat>, n: nat): (x: Entry)
    requires Sized(v, g) && Clusters(g, s) && n < EntryCount(g, s)
  {
    seq(32, k requires 0 <= k < 32 => RawByte(v, g, s, n, k))
  }

  function RawByte(v: Volume, g: Geometry, s: seq<nat>, n: nat, k: nat): (b: u8)
    requires Sized(v, g) && Clusters(g, s) && n < EntryCount(g, s) && k < 32
  {
    RawByteInside(g, s, n, k);
    FileSector(v, g, s, (32 * n + k) / 512)[(32 * n + k) % 512]
  }

  lemma RawByteInside(g: Geometry, s: seq<nat>, n: nat, k: nat)
    requires g.spc >= 1 && n < EntryCount(g, s) && k < 32
    ensures (32 * n + k) / 512 == n / 16 && (32 * n + k) % 512 == 32 * (n % 16) + k && n / 16 / g.spc < |s|
  {
    EntryPosition(n, k);
    InDirectory(g, s, n);
  }

  lemma EntryPosition(n: nat, k: nat)
    requires k < 32
    ensures (32 * n + k) / 512 == n / 16 && (32 * n + k) % 512 == 32 * (n % 16) + k
  {
    var q, r := n / 16, n % 16;
    assert 32 * n + k == 512 * q + (32 * r + k);
  }

  lemma EntryIsRaw(v: Volume, g: Geometry, s: seq<nat>, n: nat)
    requires Sized(v, g) && Clusters(g, s) && n < EntryCount(g, s)
    ensures n / PER_SECTOR / g.spc < |s| && EntryAt(v, g, s, n) == RawEntry(v, g, s, n)
  {
    hide FileSector;
    InDirectory(g, s, n);
    var x, y := EntryAt(v, g, s, n), RawEntry(v, g, s, n);
    forall k | 0 <= k < 32 ensures x[k] == y[k] {
      RawByteInside(g, s, n, k);
    }
  }

  /** Entry n is shown: the end mark is not reached, it is not deleted, and it is no volume label.  Long-name fragments
      carry the label's bit as well. */
  predicate Shows(v: Volume, g: Geometry, s: seq<nat>, n: nat)
    requires Sized(v, g) && Clusters(g, s) && n < EntryCount(g, s)
  {
    && (forall m :: 0 <= m <= n ==> RawEntry(v, g, s, m)[0] != 0)
    && RawEntry(v, g, s, n)[0] != 0xE5 && RawEntry(v, g, s, n)[11] / 8 % 2 == 0
  }

  predicate ShownAt(v: Volume, g: Geometry, s: seq<nat>, n: nat)
    requires Sized(v, g) && Clusters(g, s)
  {
    n < EntryCount(g, s) && Shows(v, g, s, n)
  }

  /** The shown entries, in order and without gaps. */
  ghost predicate ShownFrom(v: Volume, g: Geometry, s: seq<nat>, from: nat, idx: seq<nat>)
    requires Sized(v, g) && Clusters(g, s)
  {
    && (forall i :: 0 <= i < |idx| ==> from <= idx[i] && ShownAt(v, g, s, idx[i]))
    && (forall i, j :: 0 <= i < j < |idx| ==> idx[i] < idx[j])
    && (forall n :: from <= n && ShownAt(v, g, s, n) ==> n in idx)
  }

  lemma SkippedBits(x: Entry)
    ensures Skipped(x) <==> x[0] == 0xE5 || x[11] / 8 % 2 == 1
    ensures HasAttr(x, ATTR_DIRECTORY) <==> x[11] / 16 % 2 == 1
  {
    hide And;
    AndEight(x[11]);
    AndSixteen(x[11]);
  }

  /** Visible lists exactly the shown entries. */
  lemma {:induction false} VisibleIsShown(v: Volume, g: Geometry, s: seq<nat>, n: nat) returns (idx: seq<nat>)
    requires Sized(v, g) && Clusters(g, s) && n <= EntryCount(g, s)
    requires forall m :: 0 <= m < n ==> RawEntry(v, g, s, m)[0] != 0
    ensures ShownFrom(v, g, s, n, idx) && |Visible(v, g, s, n)| == |idx|
    ensures forall i :: 0 <= i < |idx| ==> Visible(v, g, s, n)[i] == RawEntry(v, g, s, idx[i])
    decreases EntryCount(g, s) - n
  {
    hide Skipped, RawEntry, EntryAt;
    idx := [];
    if n < EntryCount(g, s) {
      EntryIsRaw(v, g, s, n);
      var x := RawEntry(v, g, s, n);
      SkippedBits(x);
      if x[0] != 0 {
        idx := VisibleIsShown(v, g, s, n + 1);
        if !Skipped(x) {
          assert ShownAt(v, g, s, n);
          idx := [n] + idx;
        }
      }
    }
  }

  /** A row of a listing, field by field. */
  predicate RowOf(row: DirInfo, x: Entry)
  {
    && row.name == ShownName(x) && (row.isDir <==> x[11] / 16 % 2 == 1)
    && row.firstCluster == 0x1_0000 * Word16(x, 20) + Word16(x, 26)
    && row.size == 0x1_0000 * Word16(x, 30) + Word16(x, 28)
  }

  /** Two bytes, least significant first. */
  function Word16(x: Entry, at: nat): (w: nat)
    requires at < 31
  {
    var lo: nat, hi: nat := x[at], x[at + 1];
    lo + 256 * hi
  }

  lemma InfoIsRow(x: Entry)
    ensures RowOf(InfoOf(x), x)
  {
    hide ShownName, HasAttr;
    SkippedBits(x);
    TwoBytes(x, 20);
    TwoBytes(x, 26);
    TwoBytes(x, 28);
    TwoBytes(x, 30);
    FourBytes(x);
  }

  lemma FourBytes(x: Entry)
    ensures FromLE(x[28..32]) == FromLE(x[28..30]) + 0x1_0000 * FromLE(x[30..32])
  {
    var b := x[28..32];
    TwoBytes(x, 28);
    assert b[1..][1..] == x[30..32] && b[1..][0] == x[29];
    assert FromLE(b) == b[0] + 256 * FromLE(b[1..]);
    assert FromLE(b[1..]) == b[1] + 256 * FromLE(b[1..][1..]);
  }

  lemma TwoBytes(x: Entry, at: nat)
    requires at < 31
    ensures FromLE(x[at..at + 2]) == Word16(x, at)
  {
    var b := x[at..at + 2];
    assert b[1..][0] == x[at + 1] && b[1..][1..] == [];
    assert FromLE(b) == b[0] + 256 * FromLE(b[1..]);
    assert FromLE(b[1..]) == b[1] + 256 * FromLE([]);
  }

  /** What a lookup gives: the first shown entry with the name, or nothing if none has it. */
  ghost predicate Finds(v: Volume, g: Geometry, s: seq<nat>, name: seq<u8>, r: Option<Entry>)
    requires Sized(v, g) && Clusters(g, s)
  {
    if r.None? then forall n :: 0 <= n && ShownAt(v, g, s, n) ==> ShownName(RawEntry(v, g, s, n)) != name
    else exists n :: 0 <= n && FoundAt(v, g, s, name, n) && RawEntry(v, g, s, n) == r.value
  }

  ghost predicate FoundAt(v: Volume, g: Geometry, s: seq<nat>, name: seq<u8>, n: nat)
    requires Sized(v, g) && Clusters(g, s)
  {
    && ShownAt(v, g, s, n) && ShownName(RawEntry(v, g, s, n)) == name
    && forall m :: 0 <= m < n && ShownAt(v, g, s, m) ==> ShownName(RawEntry(v, g, s, m)) != name
  }

  lemma LookupFinds(v: Volume, g: Geometry, s: seq<nat>, name: seq<u8>)
    requires Sized(v, g) && Clusters(g, s)
    ensures Finds(v, g, s, name, FindName(Visible(v, g, s, 0), name))
  {
    hide Visible, FindName, RawEntry, Shows, ShownName;
    var idx := VisibleIsShown(v, g, s, 0);
    var xs := Visible(v, g, s, 0);
    var k := FindIndex(xs, name);
    if k < |xs| {
      forall m | 0 <= m < idx[k] && ShownAt(v, g, s, m) ensures ShownName(RawEntry(v, g, s, m)) != name {
        var i :| 0 <= i < |idx| && idx[i] == m;
        assert i < k && xs[i] == RawEntry(v, g, s, m);
      }
      assert FoundAt(v, g, s, name, idx[k]);
    } else {
      forall n | 0 <= n && ShownAt(v, g, s, n) ensures ShownName(RawEntry(v, g, s, n)) != name {
        var i :| 0 <= i < |idx| && idx[i] == n;
        assert xs[i] == RawEntry(v, g, s, n);
      }
    }
  }

  /** A lookup has one answer. */
  lemma FindsOne(v: Volume, g: Geometry, s: seq<nat>, name: seq<u8>, r: Option<Entry>, n: nat)
    requires Sized(v, g) && Clusters(g, s) && Finds(v, g, s, name, r) && FoundAt(v, g, s, name, n)
    ensures r == Some(RawEntry(v, g, s, n))
  {
    hide RawEntry, Shows, ShownName;
    var m :| 0 <= m && FoundAt(v, g, s, name, m) && RawEntry(v, g, s, m) == r.value;
    assert !(m < n) && !(n < m);
  }

  predicate NoZero(s: seq<u8>) { forall i :: 0 <= i < |s| ==> s[i] != 0 }

  lemma CanonicalShown(x: Entry, base: seq<u8>, ext: seq<u8>)
    requires Canonical(base, ext) && NoZero(base) && NoZero(ext) && x[..11] == FromName(Join(base, ext))
    ensures ShownName(x) == Join(base, ext)
  {
    hide FromName, ToName;
    NameRoundTrip(base, ext);
    var name := Join(base, ext);
    assert NoZero(name);
    BeforeIs(name, 0, |name|);
  }

  /** The first entry stored under a canonical name is found under it, file or directory, unless an earlier entry with
      other bytes shows the same name. */
  lemma CanonicalIsFound(v: Volume, g: Geometry, s: seq<nat>, base: seq<u8>, ext: seq<u8>, n: nat)
    requires Sized(v, g) && Clusters(g, s) && Canonical(base, ext) && NoZero(base) && NoZero(ext)
    requires ShownAt(v, g, s, n) && RawEntry(v, g, s, n)[..11] == FromName(Join(base, ext))
    requires forall m :: 0 <= m < n && ShownAt(v, g, s, m) ==> ShownName(RawEntry(v, g, s, m)) != Join(base, ext)
    ensures FindName(Visible(v, g, s, 0), Join(base, ext)) == Some(RawEntry(v, g, s, n))
  {
    hide RawEntry, Shows, ShownName, FromName, FindName, Visible, Finds, Canonical;
    CanonicalShown(RawEntry(v, g, s, n), base, ext);
    LookupFinds(v, g, s, Join(base, ext));
    FindsOne(v, g, s, Join(base, ext), FindName(Visible(v, g, s, 0), Join(base, ext)), n);
  }

  /** Entries as the driver writes them show a canonical name exactly if they are stored under it. */
  lemma StoredUnderName(x: Entry, base: seq<u8>, ext: seq<u8>)
    requires Canonical(base, ext) && NoZero(base) && NoZero(ext) && CanonicalForm(x[..11]) && NoZero(x[..11])
    ensures ShownName(x) == Join(base, ext) <==> x[..11] == FromName(Join(base, ext))
  {
    hide FromName, ToName, CanonicalForm, Canonical;
    var fat: Name11 := x[..11];
    FormRoundTrip(fat);
    NameNoZero(fat);
    BeforeIs(ToName(fat), 0, |ToName(fat)|);
    assert ShownName(x) == ToName(fat);
    NameRoundTrip(base, ext);
  }

  lemma NameNoZero(fat: Name11)
    requires NoZero(fat)
    ensures NoZero(ToName(fat))
  {
    hide Before;
    var base, ext := fat[..8], fat[8..];
    assert NoZero(base) && NoZero(ext);
    assert NoZero(Lowered(base[..Before(base, SPACE)])) && NoZero(Lowered(ext[..Before(ext, SPACE)]));
  }

  // ------------------------------------------------------------ what a directory depends on

  /** The same sectors show the same entries. */
  lemma {:induction false} VisibleDependsOnData(v: Volume, w: Volume, g: Geometry, s: seq<nat>, n: nat)
    requires Sized(v, g) && Sized(w, g) && Clusters(g, s) && n <= SectorCount(g, s) * PER_SECTOR
    requires forall i :: 0 <= i < |s| ==> w.data[s[i]] == v.data[s[i]]
    ensures Visible(w, g, s, n) == Visible(v, g, s, n)
    decreases SectorCount(g, s) * PER_SECTOR - n
  {
    hide Skipped, SectorCount;
    if n < SectorCount(g, s) * PER_SECTOR {
      InDirectory(g, s, n);
      assert EntryAt(w, g, s, n) == EntryAt(v, g, s, n);
      VisibleDependsOnData(v, w, g, s, n + 1);
    }
  }

  // ------------------------------------------------------------ the scans

  /** Entry e of sector t, in front of everything behind it. */
  lemma VisibleAt(v: Volume, g: Geometry, s: seq<nat>, t: nat, e: nat)
    requires Sized(v, g) && Clusters(g, s) && t < SectorCount(g, s) && e < PER_SECTOR
    ensures t / g.spc < |s|
    ensures var x, n := EntryOf(FileSector(v, g, s, t), e), t * PER_SECTOR + e;
      Visible(v, g, s, n) ==
        if x[0] == 0 then []
        else if Skipped(x) then Visible(v, g, s, n + 1)
        else [x] + Visible(v, g, s, n + 1)
  {
    hide FileSector, EntryOf, Skipped;
    var n := t * PER_SECTOR + e;
    assert n / PER_SECTOR == t && n % PER_SECTOR == e;
    assert n < SectorCount(g, s) * PER_SECTOR;
    InDirectory(g, s, n);
  }

  /** The entry loop of find_in_dir over the sector in the buffer. */
  method FindInSector(buf: Sector, name: seq<u8>, ghost v: Volume, ghost g: Geometry, ghost s: seq<nat>, ghost t: nat)
    returns (done: bool, result: Option<Entry>)
    requires Sized(v, g) && Clusters(g, s) && t < SectorCount(g, s) && t / g.spc < |s| && buf == FileSector(v, g, s, t)
    ensures done ==> result == FindName(Visible(v, g, s, t * PER_SECTOR), name)
    ensures !done ==>
      FindName(Visible(v, g, s, t * PER_SECTOR), name) == FindName(Visible(v, g, s, (t + 1) * PER_SECTOR), name)
  {
    hide Visible, Skipped, ShownName, FileSector;
    var e := 0;
    while e < PER_SECTOR
      invariant 0 <= e <= PER_SECTOR
      invariant FindName(Visible(v, g, s, t * PER_SECTOR), name) == FindName(Visible(v, g, s, t * PER_SECTOR + e), name)
    {
      var x := EntryOf(buf, e);
      VisibleAt(v, g, s, t, e);
      if x[0] == 0 { return true, None; }
      if !Skipped(x) {
        if ShownName(x) == name { return true, Some(x); }
        assert ([x] + Visible(v, g, s, t * PER_SECTOR + e + 1))[1..] == Visible(v, g, s, t * PER_SECTOR + e + 1);
      }
      e := e + 1;
    }
    return false, None;
  }

  /** The sector loop of find_in_dir over one cluster. */
  method FindInCluster(d: Driver, cluster: nat, name: seq<u8>, ghost s: seq<nat>, ghost m: nat, ghost T: nat)
    returns (done: bool, result: Option<Entry>)
    requires d.Valid() && Clusters(d.g, s) && m < |s| && cluster == s[m] && T == m * d.g.spc
    requires T + d.g.spc <= SectorCount(d.g, s)
    modifies d`sectorBuf
    ensures done ==> result == FindName(Visible(d.Vol(), d.g, s, T * PER_SECTOR), name)
    ensures !done ==>
      FindName(Visible(d.Vol(), d.g, s, T * PER_SECTOR), name) ==
      FindName(Visible(d.Vol(), d.g, s, (T + d.g.spc) * PER_SECTOR), name)
  {
    hide Visible, FindName;
    var j := 0;
    while j < d.g.spc
      invariant 0 <= j <= d.g.spc
      invariant FindName(Visible(d.Vol(), d.g, s, T * PER_SECTOR), name) ==
                FindName(Visible(d.Vol(), d.g, s, (T + j) * PER_SECTOR), name)
    {
      ViewDataAt(d.disk[..], d.g, cluster, j);
      FileSectorIs(d.Vol(), d.g, s, m, T, j);
      d.sectorBuf := d.disk[d.g.dataStart + (cluster - 2) * d.g.spc + j];
      done, result := FindInSector(d.sectorBuf, name, d.Vol(), d.g, s, T + j);
      if done { return; }
      j := j + 1;
    }
    return false, None;
  }

  lemma SectorsUpTo(g: Geometry, s: seq<nat>, m: nat, T: nat)
    requires T == m * g.spc && m < |s|
    ensures T + g.spc <= SectorCount(g, s)
  {
    MulLess(m, |s|, g.spc);
  }

  method FindInDir(d: Driver, dirCluster: nat, name: seq<u8>, ghost s: seq<nat>) returns (result: Option<Entry>)
    requires d.Valid() && |s| > 0 && IsChain(Values(d.Vol(), d.g), s) && Clusters(d.g, s) && dirCluster == s[0]
    modifies d`sectorBuf
    ensures result == FindName(Visible(d.Vol(), d.g, s, 0), name)
    ensures Finds(d.Vol(), d.g, s, name, result)
  {
    hide Visible, FindName, IsChain, Values, Finds;
    LookupFinds(d.Vol(), d.g, s, name);
    var cluster: nat := dirCluster;
    ghost var m: nat, T: nat := 0, 0;
    while !IsEnd(cluster)
      invariant m <= |s| && T == m * d.g.spc
      invariant if m < |s| then cluster == s[m] else IsEnd(cluster)
      invariant T * PER_SECTOR <= SectorCount(d.g, s) * PER_SECTOR
      invariant FindName(Visible(d.Vol(), d.g, s, 0), name) == FindName(Visible(d.Vol(), d.g, s, T * PER_SECTOR), name)
      decreases |s| - m
    {
      SectorsUpTo(d.g, s, m, T);
      var done: bool;
      done, result := FindInCluster(d, cluster, name, s, m, T);
      if done { return; }
      ChainNext(Values(d.Vol(), d.g), s, m);
      cluster := d.NextCluster(cluster);
      m, T := m + 1, T + d.g.spc;
    }
    AllScanned(d.Vol(), d.g, s, m, T, name);
    return None;
  }

  lemma AllScanned(v: Volume, g: Geometry, s: seq<nat>, m: nat, T: nat, name: seq<u8>)
    requires Sized(v, g) && Clusters(g, s) && T == m * g.spc && m <= |s|
    requires T * PER_SECTOR <= SectorCount(g, s) * PER_SECTOR
    requires m == |s|
    ensures Visible(v, g, s, T * PER_SECTOR) == [] && FindName(Visible(v, g, s, T * PER_SECTOR), name) == None
  {
  }

  // ------------------------------------------------------------ list_dir

  /** What has been listed so far, and that what is still ahead completes the full listing. */
  ghost predicate ListedTo(v: Volume, g: Geometry, s: seq<nat>, n: nat, out: seq<DirInfo>, max: nat)
  {
    && Sized(v, g) && Clusters(g, s) && n <= SectorCount(g, s) * PER_SECTOR && |out| <= max
    && out + Infos(Visible(v, g, s, n)) == Infos(Visible(v, g, s, 0))
  }

  lemma ListedPrefix(v: Volume, g: Geometry, s: seq<nat>, n: nat, out: seq<DirInfo>, max: nat)
    requires Sized(v, g) && Clusters(g, s) && ListedTo(v, g, s, n, out, max)
    ensures |out| <= max && out <= Infos(Visible(v, g, s, 0))
  {
    hide Visible, Infos, SectorCount;
  }

  lemma ListOne(v: Volume, g: Geometry, s: seq<nat>, t: nat, e: nat, out: seq<DirInfo>, max: nat)
    requires Sized(v, g) && Clusters(g, s) && t < SectorCount(g, s) && e < PER_SECTOR && t / g.spc < |s|
    requires ListedTo(v, g, s, t * PER_SECTOR + e, out, max)
    ensures var x := EntryOf(FileSector(v, g, s, t), e);
      && (x[0] == 0 ==> out == Infos(Visible(v, g, s, 0)))
      && (x[0] != 0 && Skipped(x) ==> ListedTo(v, g, s, t * PER_SECTOR + e + 1, out, max))
      && (x[0] != 0 && !Skipped(x) && |out| < max ==> ListedTo(v, g, s, t * PER_SECTOR + e + 1, out + [InfoOf(x)], max))
  {
    hide Visible, Skipped, InfoOf, FileSector, EntryOf, SectorCount, ListedTo;
    VisibleAt(v, g, s, t, e);
    NotLast(t, e, SectorCount(g, s));
    ListStep(v, g, s, t * PER_SECTOR + e, EntryOf(FileSector(v, g, s, t), e), out, max);
  }

  /** The listing so far and the entry in front of what is left. */
  lemma ListStep(v: Volume, g: Geometry, s: seq<nat>, n: nat, x: Entry, out: seq<DirInfo>, max: nat)
    requires ListedTo(v, g, s, n, out, max) && n + 1 <= SectorCount(g, s) * PER_SECTOR
    requires Visible(v, g, s, n) ==
      if x[0] == 0 then []
      else if Skipped(x) then Visible(v, g, s, n + 1)
      else [x] + Visible(v, g, s, n + 1)
    ensures x[0] == 0 ==> out == Infos(Visible(v, g, s, 0))
    ensures x[0] != 0 && Skipped(x) ==> ListedTo(v, g, s, n + 1, out, max)
    ensures x[0] != 0 && !Skipped(x) && |out| < max ==> ListedTo(v, g, s, n + 1, out + [InfoOf(x)], max)
  {
    hide Visible, Skipped, InfoOf, SectorCount, Infos;
    if x[0] == 0 {
      assert Infos([]) == [] && out + [] == out;
    } else if !Skipped(x) {
      ListedNext(out, x, Visible(v, g, s, n + 1));
    }
  }

  lemma NotLast(t: nat, e: nat, n: nat)
    requires t < n && e < PER_SECTOR
    ensures t * PER_SECTOR + e + 1 <= n * PER_SECTOR
  {
  }

  lemma ListedNext(out: seq<DirInfo>, x: Entry, rest: seq<Entry>)
    ensures out + Infos([x] + rest) == (out + [InfoOf(x)]) + Infos(rest)
  {
    hide InfoOf;
    assert Infos([x] + rest) == [InfoOf(x)] + Infos(rest);
  }

  method ListSector(buf: Sector, before: seq<DirInfo>, max: nat, ghost v: Volume, ghost g: Geometry,
                    ghost s: seq<nat>, ghost t: nat)
    returns (ended: bool, out: seq<DirInfo>)
    requires Sized(v, g) && Clusters(g, s) && t < SectorCount(g, s) && t / g.spc < |s| && buf == FileSector(v, g, s, t)
    requires ListedTo(v, g, s, t * PER_SECTOR, before, max)
    ensures ended ==> out == Infos(Visible(v, g, s, 0)) && |out| <= max
    ensures !ended ==> |out| <= max && out <= Infos(Visible(v, g, s, 0))
    ensures !ended && |out| < max ==> ListedTo(v, g, s, (t + 1) * PER_SECTOR, out, max)
  {
    hide Visible, Skipped, InfoOf, FileSector;
    out := before;
    var e := 0;
    while e < PER_SECTOR && |out| < max
      invariant 0 <= e <= PER_SECTOR
      invariant ListedTo(v, g, s, t * PER_SECTOR + e, out, max)
    {
      var x := EntryOf(buf, e);
      ListOne(v, g, s, t, e, out, max);
      if x[0] == 0 { return true, out; }
      if !Skipped(x) {
        out := out + [InfoOf(x)];
      }
      e := e + 1;
    }
    return false, out;
  }

  method ListCluster(d: Driver, cluster: nat, before: seq<DirInfo>, max: nat, ghost s: seq<nat>, ghost m: nat,
                     ghost T: nat)
    returns (ended: bool, out: seq<DirInfo>)
    requires d.Valid() && Clusters(d.g, s) && m < |s| && cluster == s[m] && T == m * d.g.spc
    requires T + d.g.spc <= SectorCount(d.g, s)
    requires ListedTo(d.Vol(), d.g, s, T * PER_SECTOR, before, max)
    modifies d`sectorBuf
    ensures ended ==> out == Infos(Visible(d.Vol(), d.g, s, 0)) && |out| <= max
    ensures !ended ==> |out| <= max && out <= Infos(Visible(d.Vol(), d.g, s, 0))
    ensures !ended && |out| < max ==> ListedTo(d.Vol(), d.g, s, (T + d.g.spc) * PER_SECTOR, out, max)
  {
    hide Visible, Infos, ListedTo;
    ListedPrefix(d.Vol(), d.g, s, T * PER_SECTOR, before, max);
    out := before;
    var j := 0;
    while j < d.g.spc && |out| < max
      invariant 0 <= j <= d.g.spc && |out| <= max && out <= Infos(Visible(d.Vol(), d.g, s, 0))
      invariant |out| < max ==> ListedTo(d.Vol(), d.g, s, (T + j) * PER_SECTOR, out, max)
    {
      ViewDataAt(d.disk[..], d.g, cluster, j);
      FileSectorIs(d.Vol(), d.g, s, m, T, j);
      d.sectorBuf := d.disk[d.g.dataStart + (cluster - 2) * d.g.spc + j];
      ended, out := ListSector(d.sectorBuf, out, max, d.Vol(), d.g, s, T + j);
      if ended { return; }
      j := j + 1;
    }
    return false, out;
  }

  /** list_dir from the directory's first cluster on. */
  method ListDir(d: Driver, dirCluster: nat, max: nat, ghost s: seq<nat>)
    returns (out: seq<DirInfo>, ghost idx: seq<nat>)
    requires d.Valid() && |s| > 0 && IsChain(Values(d.Vol(), d.g), s) && Clusters(d.g, s) && dirCluster == s[0]
    modifies d`sectorBuf
    ensures out == Listing(d.Vol(), d.g, s, max)
    ensures ShownFrom(d.Vol(), d.g, s, 0, idx) && |out| == Min(max, |idx|)
    ensures forall i :: 0 <= i < |out| ==> RowOf(out[i], RawEntry(d.Vol(), d.g, s, idx[i]))
  {
    idx := ListedRows(d.Vol(), d.g, s, max);
    out := ListRows(d, dirCluster, max, s);
  }

  lemma ListedRows(v: Volume, g: Geometry, s: seq<nat>, max: nat) returns (idx: seq<nat>)
    requires Sized(v, g) && Clusters(g, s)
    ensures ShownFrom(v, g, s, 0, idx) && |Listing(v, g, s, max)| == Min(max, |idx|)
    ensures forall i :: 0 <= i < Min(max, |idx|) ==> RowOf(Listing(v, g, s, max)[i], RawEntry(v, g, s, idx[i]))
  {
    hide Visible, RawEntry, Shows, InfoOf, RowOf;
    idx := VisibleIsShown(v, g, s, 0);
    forall i | 0 <= i < Min(max, |idx|) ensures RowOf(Listing(v, g, s, max)[i], RawEntry(v, g, s, idx[i])) {
      InfoIsRow(RawEntry(v, g, s, idx[i]));
    }
  }

  /** The cluster loop of list_dir. */
  method ListRows(d: Driver, dirCluster: nat, max: nat, ghost s: seq<nat>) returns (out: seq<DirInfo>)
    requires d.Valid() && |s| > 0 && IsChain(Values(d.Vol(), d.g), s) && Clusters(d.g, s) && dirCluster == s[0]
    modifies d`sectorBuf
    ensures out == Listing(d.Vol(), d.g, s, max)
  {
    hide Visible, Infos, IsChain, Values;
    out := [];
    var cluster: nat := dirCluster;
    ghost var m: nat, T: nat := 0, 0;
    assert [] + Infos(Visible(d.Vol(), d.g, s, 0)) == Infos(Visible(d.Vol(), d.g, s, 0));
    while !IsEnd(cluster) && |out| < max
      invariant m <= |s| && T == m * d.g.spc && |out| <= max && out <= Infos(Visible(d.Vol(), d.g, s, 0))
      invariant if m < |s| then cluster == s[m] else IsEnd(cluster)
      invariant |out| < max ==> ListedTo(d.Vol(), d.g, s, T * PER_SECTOR, out, max)
      decreases |s| - m
    {
      SectorsUpTo(d.g, s, m, T);
      var ended: bool;
      ended, out := ListCluster(d, cluster, out, max, s, m, T);
      if ended { return; }
      ChainNext(Values(d.Vol(), d.g), s, m);
      cluster := d.NextCluster(cluster);
      m, T := m + 1, T + d.g.spc;
    }
    if |out| < max { ListedAll(d.Vol(), d.g, s, m, T, out, max); }
  }

  lemma ListedAll(v: Volume, g: Geometry, s: seq<nat>, m: nat, T: nat, out: seq<DirInfo>, max: nat)
    requires T == m * g.spc && m == |s| && ListedTo(v, g, s, T * PER_SECTOR, out, max)
    ensures out == Infos(Visible(v, g, s, 0))
  {
    assert Visible(v, g, s, T * PER_SECTOR) == [] && out + [] == out;
  }
}
