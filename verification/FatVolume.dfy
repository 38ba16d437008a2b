/**
  The FAT32 driver of src/fs/fat32.cpp on a disk of 512-byte sectors, with its shared
  sector buffer.  `View` reads the disk as a volume of Fat32; the operations are proved
  against that reading.  Block reads and writes succeed.
 */
module FatVolume {
  import opened Machine
  import opened Fat32

  // ------------------------------------------------------------ where things are on the disk

  predicate GeometryOk(g: Geometry, sectors: nat)
  {
    && g.numFats >= 1 && g.spc >= 1
    && g.dataStart == g.fatStart + g.numFats * g.fatSize
    && 4 * (g.total + 2) <= g.fatSize * SECTOR
    && g.dataStart + g.total * g.spc <= sectors <= U32
    && g.total + 2 < 0x0FFF_FFF0
  }

  function FatSector(g: Geometry, f: nat, c: nat): (n: nat) { g.fatStart + f * g.fatSize + c / 128 }

  function DataSector(g: Geometry, c: nat, s: nat): (n: nat)
    requires c >= 2
  {
    g.dataStart + (c - 2) * g.spc + s
  }

  lemma FatSectorBounds(g: Geometry, n: nat, f: nat, c: nat)
    requires GeometryOk(g, n) && f < g.numFats && c < g.total + 2
    ensures FatSector(g, f, c) < g.dataStart <= n && c / 128 < g.fatSize
  {
    MulLess(f, g.numFats, g.fatSize);
    assert g.total * g.spc >= 0;
  }

  lemma DataSectorBounds(g: Geometry, n: nat, c: nat, s: nat)
    requires GeometryOk(g, n) && 2 <= c < g.total + 2 && s < g.spc
    ensures g.dataStart <= DataSector(g, c, s) < n
  {
    MulLess(c - 2, g.total, g.spc);
    assert (c - 2) * g.spc >= 0;
  }

  lemma FatSectorsDiffer(g: Geometry, n: nat, f: nat, c: nat, f': nat, c': nat)
    requires GeometryOk(g, n) && f < g.numFats && f' < g.numFats && c < g.total + 2 && c' < g.total + 2
    requires FatSector(g, f, c) == FatSector(g, f', c')
    ensures f == f' && c / 128 == c' / 128
  {
    FatSectorBounds(g, n, f, c);
    FatSectorBounds(g, n, f', c');
    if f < f' { MulLess(f, f', g.fatSize); } else if f' < f { MulLess(f', f, g.fatSize); }
  }

  lemma DataSectorsDiffer(g: Geometry, n: nat, c: nat, s: nat, c': nat, s': nat)
    requires GeometryOk(g, n) && 2 <= c < g.total + 2 && 2 <= c' < g.total + 2 && s < g.spc && s' < g.spc
    requires DataSector(g, c, s) == DataSector(g, c', s')
    ensures c == c' && s == s'
  {
    if c < c' { MulLess(c - 2, c' - 2, g.spc); } else if c' < c { MulLess(c' - 2, c - 2, g.spc); }
  }

  // ------------------------------------------------------------ the disk as a volume

  function EntryIn(sector: Sector, c: nat): (raw: nat)
    ensures raw < U32
  {
    var at := 4 * (c % 128);
    LEBound(sector[at..at + 4]);
    Pow256Values();
    FromLE(sector[at..at + 4])
  }

  function EntryPut(sector: Sector, c: nat, raw: u32): (r: Sector)
  {
    var at := 4 * (c % 128);
    sector[..at] + ToLE(raw, 4) + sector[at + 4..]
  }

  lemma EntryPutGet(sector: Sector, c: nat, raw: u32, d: nat)
    ensures EntryIn(EntryPut(sector, c, raw), d) == if c % 128 == d % 128 then raw else EntryIn(sector, d)
  {
    var r := EntryPut(sector, c, raw);
    var at, b := 4 * (c % 128), 4 * (d % 128);
    if at == b {
      Pow256Values();
      LERoundTrip(raw, 4);
      assert r[b..b + 4] == ToLE(raw, 4);
    } else {
      assert r[b..b + 4] == sector[b..b + 4];
    }
  }

  function FatCopy(disk: seq<Sector>, g: Geometry, f: nat): (fat: seq<nat>)
    requires GeometryOk(g, |disk|) && f < g.numFats
    ensures |fat| == g.total + 2
  {
    seq(g.total + 2, c requires 0 <= c < g.total + 2 =>
      FatSectorBounds(g, |disk|, f, c); EntryIn(disk[FatSector(g, f, c)], c))
  }

  function ClusterData(disk: seq<Sector>, g: Geometry, c: nat): (x: seq<Sector>)
    requires GeometryOk(g, |disk|) && 2 <= c < g.total + 2
    ensures |x| == g.spc
  {
    seq(g.spc, s requires 0 <= s < g.spc => DataSectorBounds(g, |disk|, c, s); disk[DataSector(g, c, s)])
  }

  function View(disk: seq<Sector>, g: Geometry): (v: Volume)
    requires GeometryOk(g, |disk|)
    ensures Sized(v, g)
  {
    Volume(seq(g.numFats, f requires 0 <= f < g.numFats => FatCopy(disk, g, f)),
           seq(g.total + 2, c requires 0 <= c < g.total + 2 => if c < 2 then [] else ClusterData(disk, g, c)))
  }

  /** Rewriting one entry of one copy of the table. */
  lemma ViewEntry(disk: seq<Sector>, g: Geometry, f: nat, c: nat, raw: u32)
    requires GeometryOk(g, |disk|) && f < g.numFats && c < g.total + 2
    ensures FatSector(g, f, c) < |disk|
    ensures View(disk[FatSector(g, f, c) := EntryPut(disk[FatSector(g, f, c)], c, raw)], g)
         == SetCopy(View(disk, g), g, f, c, raw)
  {
    FatSectorBounds(g, |disk|, f, c);
    var at := FatSector(g, f, c);
    var d' := disk[at := EntryPut(disk[at], c, raw)];
    var v, v' := SetCopy(View(disk, g), g, f, c, raw), View(d', g);
    forall f', c' | 0 <= f' < g.numFats && 0 <= c' < g.total + 2 ensures v'.fats[f'][c'] == v.fats[f'][c']
    {
      FatSectorBounds(g, |disk|, f', c');
      if FatSector(g, f', c') == at {
        FatSectorsDiffer(g, |disk|, f, c, f', c');
        EntryPutGet(disk[at], c, raw, c');
      }
    }
    assert v'.fats == v.fats by {
      forall i | 0 <= i < g.numFats ensures v'.fats[i] == v.fats[i] {}
    }
    forall c', s | 2 <= c' < g.total + 2 && 0 <= s < g.spc ensures v'.data[c'][s] == v.data[c'][s] {
      DataSectorBounds(g, |disk|, c', s);
    }
    assert v'.data == v.data by {
      forall i | 0 <= i < g.total + 2 ensures v'.data[i] == v.data[i] {}
    }
  }

  /** Rewriting one sector of one cluster. */
  lemma ViewData(disk: seq<Sector>, g: Geometry, c: nat, s: nat, x: Sector)
    requires GeometryOk(g, |disk|) && 2 <= c < g.total + 2 && s < g.spc
    ensures DataSector(g, c, s) < |disk|
    ensures View(disk[DataSector(g, c, s) := x], g) == SetSector(View(disk, g), g, c, s, x)
  {
    DataSectorBounds(g, |disk|, c, s);
    var at := DataSector(g, c, s);
    var v, v' := SetSector(View(disk, g), g, c, s, x), View(disk[at := x], g);
    forall f', c' | 0 <= f' < g.numFats && 0 <= c' < g.total + 2 ensures v'.fats[f'][c'] == v.fats[f'][c'] {
      FatSectorBounds(g, |disk|, f', c');
    }
    assert v'.fats == v.fats by {
      forall i | 0 <= i < g.numFats ensures v'.fats[i] == v.fats[i] {}
    }
    forall c', s' | 2 <= c' < g.total + 2 && 0 <= s' < g.spc ensures v'.data[c'][s'] == v.data[c'][s'] {
      DataSectorBounds(g, |disk|, c', s');
      if DataSector(g, c', s') == at { DataSectorsDiffer(g, |disk|, c, s, c', s'); }
    }
    assert v'.data == v.data by {
      forall i | 0 <= i < g.total + 2 ensures v'.data[i] == v.data[i] {}
    }
  }

  /** set_fat_entry after it has dealt with the first n copies. */
  function EntriesSet(v: Volume, g: Geometry, c: nat, value: nat, n: nat): (r: Volume)
    requires Sized(v, g) && c < g.total + 2 && n <= g.numFats
    ensures Sized(r, g)
  {
    v.(fats := seq(|v.fats|, f requires 0 <= f < |v.fats| =>
      if f < n then v.fats[f][c := Replaced(v.fats[f][c], value)] else v.fats[f]))
  }

  /** Where the code finds the entry of a cluster in copy f. */
  lemma FatPosition(g: Geometry, f: nat, c: nat)
    ensures g.fatStart + c * 4 / SECTOR + f * g.fatSize == FatSector(g, f, c) && c * 4 % SECTOR == 4 * (c % 128)
  {
    var q, r := c / 128, c % 128;
    assert c * 4 == q * 512 + 4 * r;
  }

  lemma EntriesSetNext(v: Volume, g: Geometry, c: nat, value: nat, n: nat)
    requires Sized(v, g) && c < g.total + 2 && n < g.numFats
    ensures EntriesSet(v, g, c, value, n + 1) ==
      SetCopy(EntriesSet(v, g, c, value, n), g, n, c, Replaced(v.fats[n][c], value))
    ensures EntriesSet(v, g, c, value, n).fats[n][c] == v.fats[n][c]
    ensures EntriesSet(v, g, c, value, 0) == v
    ensures EntriesSet(v, g, c, value, g.numFats) == SetEntry(v, g, c, value)
  {
    assert EntriesSet(v, g, c, value, 0).fats == v.fats;
    assert EntriesSet(v, g, c, value, g.numFats).fats == SetEntry(v, g, c, value).fats;
    assert EntriesSet(v, g, c, value, n + 1).fats ==
      SetCopy(EntriesSet(v, g, c, value, n), g, n, c, Replaced(v.fats[n][c], value)).fats;
  }

  lemma ReplacedBits(raw: u32, value: u32)
    ensures Or(And(raw, 0xF000_0000), And(value, 0x0FFF_FFFF)) == Replaced(raw, value) < U32
  {
    AndFatFields(raw);
    AndFatFields(value);
    OrFatFields(raw / VALUE_LIMIT, value % VALUE_LIMIT);
  }

  lemma ViewAt(disk: seq<Sector>, g: Geometry, f: nat, c: nat)
    requires GeometryOk(g, |disk|) && f < g.numFats && c < g.total + 2
    ensures FatSector(g, f, c) < |disk|
    ensures View(disk, g).fats[f][c] == EntryIn(disk[FatSector(g, f, c)], c) < U32
  {
    FatSectorBounds(g, |disk|, f, c);
  }

  lemma ViewDataAt(disk: seq<Sector>, g: Geometry, c: nat, s: nat)
    requires GeometryOk(g, |disk|) && 2 <= c < g.total + 2 && s < g.spc
    ensures DataSector(g, c, s) < |disk|
    ensures View(disk, g).data[c][s] == disk[DataSector(g, c, s)]
  {
    DataSectorBounds(g, |disk|, c, s);
  }

  /** Where the parts of a volume lie: entry c of copy f in four bytes of its table, least significant first, and sector
      j of cluster c in the data area. */
  lemma OnDisk(disk: seq<Sector>, g: Geometry, f: nat, c: nat, j: nat)
    requires GeometryOk(g, |disk|) && f < g.numFats && c < g.total + 2 && j < g.spc
    ensures var n, at := g.fatStart + f * g.fatSize + 4 * c / 512, 4 * c % 512;
      && n < |disk| && at + 4 <= 512
      && View(disk, g).fats[f][c] == FromLE([disk[n][at], disk[n][at + 1], disk[n][at + 2], disk[n][at + 3]])
    ensures c >= 2 ==>
      && 0 <= g.dataStart + (c - 2) * g.spc + j < |disk|
      && View(disk, g).data[c][j] == disk[g.dataStart + (c - 2) * g.spc + j]
  {
    hide View, FromLE;
    ViewAt(disk, g, f, c);
    FatPosition(g, f, c);
    var x, at := disk[FatSector(g, f, c)], 4 * (c % 128);
    assert x[at..at + 4] == [x[at], x[at + 1], x[at + 2], x[at + 3]];
    if c >= 2 { ViewDataAt(disk, g, c, j); }
  }

  /** A byte of a file on the disk. */
  lemma FileOnDisk(disk: seq<Sector>, g: Geometry, s: seq<nat>, t: nat)
    requires GeometryOk(g, |disk|) && Clusters(g, s) && t / g.spc < |s|
    ensures var n := g.dataStart + (s[t / g.spc] - 2) * g.spc + t % g.spc;
      0 <= n < |disk| && FileSector(View(disk, g), g, s, t) == disk[n]
  {
    hide View;
    OnDisk(disk, g, 0, s[t / g.spc], t % g.spc);
  }

  // ------------------------------------------------------------ the driver

  class Driver {
    const g: Geometry
    const disk: array<Sector>
    var sectorBuf: Sector

    ghost predicate Valid() { GeometryOk(g, disk.Length) }

    ghost function Vol(): (v: Volume)
      requires Valid()
      reads disk
      ensures Sized(v, g)
    {
      View(disk[..], g)
    }

    constructor (g: Geometry, disk: array<Sector>)
      requires GeometryOk(g, disk.Length)
      ensures Valid() && this.g == g && this.disk == disk
    {
      this.g := g;
      this.disk := disk;
      this.sectorBuf := ZeroSector();
    }

    method NextCluster(cluster: nat) returns (next: nat)
      requires Valid() && cluster < g.total + 2
      modifies this`sectorBuf
      ensures next == Values(Vol(), g)[cluster]
    {
      ViewAt(disk[..], g, 0, cluster);
      var fatOffset := cluster * 4;
      var fatSector := g.fatStart + fatOffset / SECTOR;
      var entryOffset := fatOffset % SECTOR;
      assert fatSector == FatSector(g, 0, cluster) && entryOffset == 4 * (cluster % 128);
      sectorBuf := disk[fatSector];
      var val := FromLE(sectorBuf[entryOffset..entryOffset + 4]);
      AndFatFields(val);
      next := And(val, 0x0FFF_FFFF);
    }

    /** set_fat_entry's work on one copy of the table. */
    method SetFatCopy(f: nat, cluster: nat, sector: nat, entryOffset: nat, value: u32)
      requires Valid() && cluster < g.total + 2 && f < g.numFats
      requires sector == FatSector(g, f, cluster) && entryOffset == 4 * (cluster % 128)
      modifies this`sectorBuf, disk
      ensures Vol() == SetCopy(old(Vol()), g, f, cluster, Replaced(old(Vol()).fats[f][cluster], value))
    {
      ViewAt(disk[..], g, f, cluster);
      sectorBuf := disk[sector];
      var entry := FromLE(sectorBuf[entryOffset..entryOffset + 4]);
      ReplacedBits(entry, value);
      var updated := Or(And(entry, 0xF000_0000), And(value, 0x0FFF_FFFF));
      ViewEntry(disk[..], g, f, cluster, updated);
      sectorBuf := sectorBuf[..entryOffset] + ToLE(updated, 4) + sectorBuf[entryOffset + 4..];
      ghost var before := disk[..];
      disk[sector] := sectorBuf;
      assert disk[..] == before[sector := EntryPut(before[sector], cluster, updated)];
    }

    method SetFatEntry(cluster: nat, value: u32)
      requires Valid() && cluster < g.total + 2
      modifies this`sectorBuf, disk
      ensures Vol() == SetEntry(old(Vol()), g, cluster, value)
    {
      hide View, Replaced, EntriesSet, SetEntry, SetCopy;
      ghost var v := Vol();
      var fatOffset := cluster * 4;
      var fatSector := g.fatStart + fatOffset / SECTOR;
      var entryOffset := fatOffset % SECTOR;
      EntriesSetNext(v, g, cluster, value, 0);
      var f := 0;
      while f < g.numFats
        invariant 0 <= f <= g.numFats
        invariant Vol() == EntriesSet(v, g, cluster, value, f)
      {
        EntriesSetNext(v, g, cluster, value, f);
        FatPosition(g, f, cluster);
        SetFatCopy(f, cluster, fatSector + f * g.fatSize, entryOffset, value);
        f := f + 1;
      }
    }

    method WriteData(cluster: nat, s: nat, x: Sector)
      requires Valid() && 2 <= cluster < g.total + 2 && s < g.spc
      modifies disk
      ensures Vol() == SetSector(old(Vol()), g, cluster, s, x)
    {
      ViewData(disk[..], g, cluster, s, x);
      ghost var before := disk[..];
      disk[g.dataStart + (cluster - 2) * g.spc + s] := x;
      assert disk[..] == before[DataSector(g, cluster, s) := x];
    }

    method ZeroSectors(cluster: nat)
      requires Valid() && 2 <= cluster < g.total + 2
      modifies disk
      ensures Vol() == Zeroed(old(Vol()), g, cluster)
    {
      ghost var v := Vol();
      var s := 0;
      while s < g.spc
        invariant 0 <= s <= g.spc
        invariant Vol().fats == v.fats && |Vol().data| == |v.data|
        invariant forall c :: 0 <= c < |v.data| && c != cluster ==> Vol().data[c] == v.data[c]
        invariant forall i :: 0 <= i < s ==> Vol().data[cluster][i] == ZeroSector()
      {
        WriteData(cluster, s, ZeroSector());
        s := s + 1;
      }
      assert Vol().data[cluster] == ZeroCluster(g);
      assert Vol().data == v.data[cluster := ZeroCluster(g)];
    }

    method AllocCluster() returns (cluster: nat)
      requires Valid()
      modifies this`sectorBuf, disk
      ensures (Vol(), cluster) == Fat32.AllocCluster(old(Vol()), g)
    {
      ghost var v := Vol();
      var c := 2;
      while c < g.total + 2
        invariant 2 <= c <= g.total + 2
        invariant Vol() == v
        invariant forall i :: 2 <= i < c ==> Values(v, g)[i] != 0
      {
        var raw := NextCluster(c);
        if raw == 0 {
          FreeFromIs(Values(v, g), c);
          SetFatEntry(c, 0x0FFF_FFF8);
          ZeroSectors(c);
          return c;
        }
        c := c + 1;
      }
      FreeFromIs(Values(v, g), c);
      return 0;
    }

    /** Writing the data of one cluster: at most spc sectors, as far as the data reaches. */
    method WriteClusterData(cluster: nat, data: seq<u8>, start: nat, ghost v0: Volume, ghost chains: seq<seq<nat>>,
                            ghost k: nat, ghost ext: seq<nat>, ghost chain: seq<nat>, ghost m: nat, ghost T: nat)
      returns (pos: nat)
      requires Valid() && Extended(v0, Vol(), g, chains, k, ext) && k < |chains| && chain == chains[k] + ext
      requires Clusters(g, chain) && Distinct(chain)
      requires m < |chain| && cluster == chain[m] && T == m * g.spc
      requires start == T * SECTOR < |data| && Holds(Vol(), g, chain, data, T)
      modifies this`sectorBuf, disk
      ensures Extended(v0, Vol(), g, chains, k, ext) && Values(Vol(), g) == old(Values(Vol(), g))
      ensures Holds(Vol(), g, chain, data, T + g.spc)
      ensures pos == Min(|data|, (T + g.spc) * SECTOR)
    {
      hide Extended, Holds, Distinct, Values, WellFormed, Clusters, Chunk, SetSector, View;
      ClusterOf(g, chain, m);
      pos := start;
      var s := 0;
      while s < g.spc && pos < |data|
        invariant 0 <= s <= g.spc
        invariant pos == Min(|data|, (T + s) * SECTOR)
        invariant Extended(v0, Vol(), g, chains, k, ext) && Values(Vol(), g) == old(Values(Vol(), g))
        invariant Holds(Vol(), g, chain, data, T + s)
      {
        SectorStep(v0, Vol(), g, chains, k, ext, chain, data, m, T, s);
        var toWrite := Min(|data| - pos, SECTOR);
        FillBuffer(data, pos, toWrite, T + s);
        WriteData(cluster, s, sectorBuf);
        pos := pos + toWrite;
        s := s + 1;
      }
      if s < g.spc { HoldsToEnd(Vol(), g, chain, data, T + s, T + g.spc); }
    }

    /** The zeroed buffer with the next bytes of the data at its front. */
    method FillBuffer(data: seq<u8>, pos: nat, toWrite: nat, ghost t: nat)
      requires pos == t * SECTOR < |data| && toWrite == Min(|data| - pos, SECTOR)
      modifies this`sectorBuf
      ensures sectorBuf == Chunk(data, t)
    {
      sectorBuf := ZeroSector();
      sectorBuf := data[pos..pos + toWrite] + sectorBuf[toWrite..];
    }

    /** alloc_cluster and the link from the previous cluster. */
    method AppendCluster(prev: nat) returns (cluster: nat)
      requires Valid() && 2 <= prev < g.total + 2
      modifies this`sectorBuf, disk
      ensures (Vol(), cluster) == Appended(old(Vol()), g, prev)
    {
      cluster := AllocCluster();
      if cluster != 0 {
        SetFatEntry(prev, cluster);
      }
    }

    /**
      write_file from the file's first cluster on.  `chains` are the chains of the volume,
      chains[k] the file's; the clusters appended to it come back in `ext`.
     */
    method WriteFile(first: nat, data: seq<u8>, ghost chains: seq<seq<nat>>, ghost k: nat)
      returns (ok: bool, ghost ext: seq<nat>)
      requires Valid() && WellFormed(Values(Vol(), g), chains) && k < |chains| && |chains[k]| > 0
      requires first == chains[k][0]
      modifies this`sectorBuf, disk
      ensures Extended(old(Vol()), Vol(), g, chains, k, ext) && Clusters(g, chains[k] + ext)
      ensures ok ==> Holds(Vol(), g, chains[k] + ext, data, |data|)
      ensures ok <==> |data| <= Capacity(g, |chains[k]| + FreeCount(Values(old(Vol()), g), 2))
      ensures ext != [] ==> Capacity(g, |chains[k]| + |ext| - 1) < |data|
    {
      hide Extended, Holds, WellFormed, Values, Appended, Writing, Capacity, FreeCount;
      ghost var v0 := Vol();
      ghost var m: nat, T: nat := 0, 0;
      WriteStart(v0, g, chains, k, data);
      ext := [];
      var cluster, prev, pos := first, 0, 0;
      while pos < |data|
        invariant Writing(v0, Vol(), g, chains, k, ext, data, m, T, pos) && m <= |chains[k] + ext|
        invariant AtCluster(chains[k] + ext, m, cluster, prev)
        decreases |data| - pos
      {
        WritingParts(v0, Vol(), g, chains, k, ext, data, m, T, pos);
        if IsEnd(cluster) || cluster == 0 {
          ghost var before := Vol();
          var newC := AppendCluster(prev);
          WriteAppends(v0, before, g, chains, k, ext, data, m, T, pos, Vol(), newC, prev);
          if newC == 0 {
            return false, ext;
          }
          ext := ext + [newC];
          cluster := newC;
          WritingParts(v0, Vol(), g, chains, k, ext, data, m, T, pos);
        }
        pos := WriteClusterData(cluster, data, pos, v0, chains, k, ext, chains[k] + ext, m, T);
        WriteAdvances(v0, Vol(), g, chains, k, ext, data, m, T, pos);
        prev := cluster;
        cluster := NextCluster(cluster);
        m, T := m + 1, T + g.spc;
      }
      WritingParts(v0, Vol(), g, chains, k, ext, data, m, T, pos);
      WriteDone(v0, Vol(), g, chains, k, ext, data, m, T, pos);
      return true, ext;
    }

    /** The loop of delete_file from the file's first cluster on. */
    method DeleteFile(first: nat)
      requires Valid() && LinksInRange(Values(Vol(), g)) && (first < g.total + 2 || IsEnd(first))
      modifies this`sectorBuf, disk
      ensures Vol() == FreeChain(old(Vol()), g, first)
    {
      hide FreeChain, InUse, LinksInRange, Values;
      ghost var v0 := Vol();
      var cluster: nat := first;
      while !IsEnd(cluster) && cluster >= 2
        invariant LinksInRange(Values(Vol(), g)) && (cluster < g.total + 2 || IsEnd(cluster))
        invariant FreeChain(Vol(), g, cluster) == FreeChain(v0, g, first)
        decreases InUse(Values(Vol(), g)), if cluster == 0 then 0 else 1
      {
        FreeChainStep(Vol(), g, cluster);
        var next := NextCluster(cluster);
        SetFatEntry(cluster, 0);
        cluster := next;
      }
      FreeChainDone(Vol(), g, cluster);
    }

    /** The sectors of one cluster, copied to the buffer from byte start on. */
    method ReadClusterData(cluster: nat, buf: array<u8>, start: nat, fsize: nat, ghost chain: seq<nat>, ghost m: nat,
                           ghost T: nat)
      returns (pos: nat)
      requires Valid() && Clusters(g, chain) && m < |chain| && cluster == chain[m] && T == m * g.spc
      requires start == T * SECTOR < fsize <= buf.Length
      requires ReadSoFar(Vol(), g, chain, buf[..], T * SECTOR)
      modifies this`sectorBuf, buf
      ensures pos == Min(fsize, (T + g.spc) * SECTOR)
      ensures ReadSoFar(Vol(), g, chain, buf[..], pos)
      ensures forall j :: pos <= j < buf.Length ==> buf[j] == old(buf[j])
    {
      hide ReadSoFar, FileSector;
      pos := start;
      var s := 0;
      while s < g.spc && pos < fsize
        invariant 0 <= s <= g.spc && pos == Min(fsize, (T + s) * SECTOR)
        invariant ReadSoFar(Vol(), g, chain, buf[..], pos)
        invariant forall j :: pos <= j < buf.Length ==> buf[j] == old(buf[j])
      {
        DivModUnique(T + s, g.spc, m, s);
        ViewDataAt(disk[..], g, cluster, s);
        sectorBuf := disk[g.dataStart + (cluster - 2) * g.spc + s];
        var toCopy := Min(fsize - pos, SECTOR);
        ghost var before := buf[..];
        CopyOut(buf, pos, toCopy);
        FileSectorIs(Vol(), g, chain, m, T, s);
        ReadMore(Vol(), g, chain, before, buf[..], T + s, toCopy);
        pos := pos + toCopy;
        s := s + 1;
      }
    }

    method CopyOut(buf: array<u8>, at: nat, count: nat)
      requires at + count <= buf.Length && count <= SECTOR
      modifies buf
      ensures forall j :: 0 <= j < buf.Length ==>
        buf[j] == if at <= j < at + count then sectorBuf[j - at] else old(buf[j])
    {
      var i := 0;
      while i < count
        invariant 0 <= i <= count
        invariant forall j :: 0 <= j < buf.Length ==>
        buf[j] == if at <= j < at + i then sectorBuf[j - at] else old(buf[j])
      {
        buf[at + i] := sectorBuf[i];
        i := i + 1;
      }
    }

    /** read_file from the file's first cluster on, into a caller's buffer. */
    method ReadFile(first: nat, fileSize: nat, buf: array<u8>, ghost chain: seq<nat>) returns (bytesRead: nat)
      requires Valid() && IsChain(Values(Vol(), g), chain) && first == chain[0] && Clusters(g, chain)
      modifies this`sectorBuf, buf
      ensures bytesRead == Min(fileSize, buf.Length)
      ensures ReadSoFar(Vol(), g, chain, buf[..], Min(bytesRead, Capacity(g, |chain|)))
      ensures forall j :: Min(bytesRead, Capacity(g, |chain|)) <= j < buf.Length ==> buf[j] == old(buf[j])
    {
      var fsize := Min(fileSize, buf.Length);
      ghost var m: nat, T: nat := 0, 0;
      var cluster, pos := first, 0;
      while pos < fsize && !IsEnd(cluster)
        invariant m <= |chain| && T == m * g.spc && pos == Min(fsize, T * SECTOR)
        invariant if m < |chain| then cluster == chain[m] else IsEnd(cluster)
        invariant ReadSoFar(Vol(), g, chain, buf[..], pos)
        invariant forall j :: pos <= j < buf.Length ==> buf[j] == old(buf[j])
        decreases |chain| - m
      {
        pos := ReadClusterData(cluster, buf, pos, fsize, chain, m, T);
        ChainNext(Values(Vol(), g), chain, m);
        cluster := NextCluster(cluster);
        m, T := m + 1, T + g.spc;
      }
      if m < |chain| { CapacityGrows(g, m, |chain|); }
      return fsize;
    }
  }

  /** The first n bytes of the buffer are the file's. */
  ghost predicate ReadSoFar(v: Volume, g: Geometry, s: seq<nat>, buf: seq<u8>, n: nat)
    requires Sized(v, g) && Clusters(g, s)
  {
    n <= |buf| && forall j: nat :: j < n ==>
      j / SECTOR / g.spc < |s| && buf[j] == FileSector(v, g, s, j / SECTOR)[j % SECTOR]
  }

  lemma ReadMore(v: Volume, g: Geometry, s: seq<nat>, buf: seq<u8>, buf': seq<u8>, t: nat, count: nat)
    requires Sized(v, g) && Clusters(g, s) && t / g.spc < |s| && count <= SECTOR
    requires ReadSoFar(v, g, s, buf, t * SECTOR) && t * SECTOR + count <= |buf'| == |buf|
    requires forall j :: 0 <= j < t * SECTOR ==> buf'[j] == buf[j]
    requires forall j :: t * SECTOR <= j < t * SECTOR + count ==> buf'[j] == FileSector(v, g, s, t)[j - t * SECTOR]
    ensures ReadSoFar(v, g, s, buf', t * SECTOR + count)
  {
    forall j: nat | j < t * SECTOR + count
      ensures j / SECTOR / g.spc < |s| && buf'[j] == FileSector(v, g, s, j / SECTOR)[j % SECTOR]
    {
      if j >= t * SECTOR { assert j / SECTOR == t; }
    }
  }

  lemma FreeFromIs(fat: seq<nat>, c: nat)
    requires 2 <= c <= |fat| && (c < |fat| ==> fat[c] == 0) && forall i :: 2 <= i < c ==> fat[i] != 0
    ensures FreeFrom(fat, 2) == c
  {
    var f := FreeFrom(fat, 2);
    assert f < |fat| ==> fat[f] == 0;
  }
}
