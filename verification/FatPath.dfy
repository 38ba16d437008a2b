/**
  Paths (src/fs/fat32.cpp): resolve_path, and write_file, read_file and delete_file as
  their callers see them, from a path to the bytes on the disk.
 */
module FatPath {
  import opened Machine
  import opened Fat32
  import opened FatVolume
  import opened FatDir

  // ------------------------------------------------------------ path components

  function Stripped(path: seq<u8>): (r: seq<u8>)
  {
    if path != [] && path[0] == SLASH then path[1..] else path
  }

  function Rest(path: seq<u8>): (r: seq<u8>)
    requires path != []
    ensures |r| < |path|
  {
    var n := Before(path, SLASH);
    if n < |path| then path[n + 1..] else []
  }

  /** The parts between slashes, each cut to what the component buffer holds. */
  function Components(path: seq<u8>): (cs: seq<seq<u8>>)
    ensures cs == [] <==> path == []
    decreases |path|
  {
    if path == [] then [] else [path[..Min(Before(path, SLASH), MAX_FILENAME - 1)]] + Components(Rest(path))
  }

  /** Parts with a slash between any two. */
  function WithSlashes(parts: seq<seq<u8>>): (path: seq<u8>)
  {
    if parts == [] then []
    else if |parts| == 1 then parts[0]
    else parts[0] + [0x2F] + WithSlashes(parts[1..])
  }

  /** Each part cut to the 127 bytes the component buffer holds. */
  function Cut(parts: seq<seq<u8>>): (cs: seq<seq<u8>>)
    ensures |cs| == |parts| && forall i :: 0 <= i < |parts| ==> cs[i] == parts[i][..Min(|parts[i]|, 127)]
  {
    seq(|parts|, i requires 0 <= i < |parts| => parts[i][..Min(|parts[i]|, 127)])
  }

  /** A path of parts, with or without one slash in front and one behind, has these parts as its components; only an
      empty last part does not show. */
  lemma {:induction false} ComponentsOfParts(parts: seq<seq<u8>>, tail: seq<u8>)
    requires forall i :: 0 <= i < |parts| ==> 0x2F !in parts[i]
    requires parts != [] && (tail == [0x2F] || (tail == [] && parts[|parts| - 1] != []))
    ensures Components(WithSlashes(parts) + tail) == Cut(parts)
    decreases |parts|
  {
    hide Before, Cut;
    CutFirst(parts);
    var path, p := WithSlashes(parts) + tail, parts[0];
    if |parts| == 1 {
      BeforeIs(path, SLASH, |p|);
      assert path[..|p|] == p;
      assert Rest(path) == [];
    } else {
      var rest := WithSlashes(parts[1..]) + tail;
      assert path == p + [0x2F] + rest;
      BeforeIs(path, SLASH, |p|);
      assert path[|p| + 1..] == rest && path[..|p|] == p;
      ComponentsOfParts(parts[1..], tail);
    }
    assert path[..Min(|p|, 127)] == p[..Min(|p|, 127)];
  }

  lemma CutFirst(parts: seq<seq<u8>>)
    requires parts != []
    ensures Cut(parts) == [parts[0][..Min(|parts[0]|, 127)]] + Cut(parts[1..])
  {
  }

  lemma LeadingSlash(path: seq<u8>)
    ensures Stripped([0x2F] + path) == path && (path == [] || path[0] != 0x2F ==> Stripped(path) == path)
  {
    assert ([0x2F] + path)[1..] == path;
  }

  // ------------------------------------------------------------ resolution

  /** The chain that starts at a cluster, or the number of chains. */
  function HeadIndex(chains: seq<seq<nat>>, c: nat): (a: nat)
    ensures a <= |chains|
    ensures a < |chains| ==> |chains[a]| > 0 && chains[a][0] == c
    ensures forall i :: 0 <= i < a ==> chains[i] == [] || chains[i][0] != c
  {
    if chains == [] then 0
    else if |chains[0]| > 0 && chains[0][0] == c then 0
    else 1 + HeadIndex(chains[1..], c)
  }

  /** The entry a path leads to, the directory chains read on the way, and whether all of them were chains of the
      volume. */
  datatype Lookup = Lookup(entry: Option<Entry>, dirs: set<nat>, sound: bool)

  predicate ChainsFit(g: Geometry, chains: seq<seq<nat>>) { forall a :: 0 <= a < |chains| ==> Clusters(g, chains[a]) }

  function Resolve(v: Volume, g: Geometry, chains: seq<seq<nat>>, cluster: nat, cs: seq<seq<u8>>): (r: Lookup)
    requires Sized(v, g) && ChainsFit(g, chains)
    decreases |cs|
  {
    var a := HeadIndex(chains, cluster);
    if cs == [] || a == |chains| then Lookup(None, {}, cs == [])
    else
      match FindName(Visible(v, g, chains[a], 0), cs[0])
      case None => Lookup(None, {a}, true)
      case Some(x) =>
        if |cs| == 1 then Lookup(Some(x), {a}, true)
        else if !HasAttr(x, ATTR_DIRECTORY) then Lookup(None, {a}, true)
        else
          var r := Resolve(v, g, chains, FirstCluster(x), cs[1..]);
          r.(dirs := r.dirs + {a})
  }

  /** The entries on the way: each is the first with its component's name among those its directory shows, and each but
      the last is a directory, whose first cluster starts the next one. */
  ghost predicate Leads(v: Volume, g: Geometry, chains: seq<seq<nat>>, cluster: nat, cs: seq<seq<u8>>, xs: seq<Entry>)
    requires Sized(v, g) && ChainsFit(g, chains) && |xs| == |cs|
    decreases |cs|
  {
    cs != [] ==>
      && var a := HeadIndex(chains, cluster);
      && a < |chains| && Finds(v, g, chains[a], cs[0], Some(xs[0]))
      && (|cs| > 1 ==>
            && xs[0][11] / 16 % 2 == 1
            && Leads(v, g, chains, 0x1_0000 * Word16(xs[0], 20) + Word16(xs[0], 26), cs[1..], xs[1..]))
  }

  lemma FoundOnce(v: Volume, g: Geometry, s: seq<nat>, name: seq<u8>, x: Entry)
    requires Sized(v, g) && Clusters(g, s)
    ensures FindName(Visible(v, g, s, 0), name) == Some(x) <==> Finds(v, g, s, name, Some(x))
  {
    hide Visible, FindName, RawEntry, Shows, ShownName;
    LookupFinds(v, g, s, name);
    if Finds(v, g, s, name, Some(x)) {
      var n :| 0 <= n && FoundAt(v, g, s, name, n) && RawEntry(v, g, s, n) == x;
      FindsOne(v, g, s, name, FindName(Visible(v, g, s, 0), name), n);
    }
  }

  /** A path resolves to an entry exactly if entries lead there. */
  lemma {:induction false} ResolveIff(v: Volume, g: Geometry, chains: seq<seq<nat>>, cluster: nat, cs: seq<seq<u8>>,
                                      x: Entry)
    requires Sized(v, g) && ChainsFit(g, chains) && cs != []
    ensures Resolve(v, g, chains, cluster, cs).entry == Some(x) <==>
      exists xs :: LeadsTo(v, g, chains, cluster, cs, x, xs)
    decreases |cs|
  {
    hide Visible, FindName, Finds, FirstCluster, HasAttr, Word16;
    var a := HeadIndex(chains, cluster);
    if a < |chains| {
      var found := FindName(Visible(v, g, chains[a], 0), cs[0]);
      forall y: Entry { FoundOnce(v, g, chains[a], cs[0], y); }
      if found.Some? {
        var y := found.value;
        SkippedBits(y);
        InfoIsRow(y);
        FirstClusterIs(y);
        if |cs| == 1 {
          assert LeadsTo(v, g, chains, cluster, cs, y, [y]);
        } else if HasAttr(y, ATTR_DIRECTORY) {
          ResolveIff(v, g, chains, FirstCluster(y), cs[1..], x);
          if xs :| LeadsTo(v, g, chains, cluster, cs, x, xs) {
            assert xs == [y] + xs[1..];
            LeadsFurther(v, g, chains, cluster, cs, x, y, xs[1..]);
          }
          if ys :| LeadsTo(v, g, chains, FirstCluster(y), cs[1..], x, ys) {
            LeadsFurther(v, g, chains, cluster, cs, x, y, ys);
          }
        }
      }
    }
  }

  lemma FirstClusterIs(x: Entry)
    ensures FirstCluster(x) == 0x1_0000 * Word16(x, 20) + Word16(x, 26)
  {
    TwoBytes(x, 20);
    TwoBytes(x, 26);
  }

  ghost predicate LeadsTo(v: Volume, g: Geometry, chains: seq<seq<nat>>, cluster: nat, cs: seq<seq<u8>>, x: Entry,
                          xs: seq<Entry>)
    requires Sized(v, g) && ChainsFit(g, chains) && cs != []
  {
    |xs| == |cs| && xs[|xs| - 1] == x && Leads(v, g, chains, cluster, cs, xs)
  }

  /** One step on the way, whose entry is known to be y. */
  lemma LeadsFurther(v: Volume, g: Geometry, chains: seq<seq<nat>>, cluster: nat, cs: seq<seq<u8>>, x: Entry, y: Entry,
                     xs: seq<Entry>)
    requires Sized(v, g) && ChainsFit(g, chains) && |cs| > 1 && HeadIndex(chains, cluster) < |chains|
    requires Finds(v, g, chains[HeadIndex(chains, cluster)], cs[0], Some(y)) && y[11] / 16 % 2 == 1
    ensures LeadsTo(v, g, chains, cluster, cs, x, [y] + xs) <==>
      LeadsTo(v, g, chains, 0x1_0000 * Word16(y, 20) + Word16(y, 26), cs[1..], x, xs)
  {
    hide Finds, Word16;
    if |xs| == |cs| - 1 {
      assert ([y] + xs)[1..] == xs && ([y] + xs)[|xs|] == xs[|xs| - 1];
    }
  }

  lemma {:induction false} HeadAfterExtend(chains: seq<seq<nat>>, k: nat, ext: seq<nat>, c: nat)
    requires k < |chains| && |chains[k]| > 0
    ensures HeadIndex(chains[k := chains[k] + ext], c) == HeadIndex(chains, c)
    decreases |chains|
  {
    var r := chains[k := chains[k] + ext];
    if k > 0 {
      HeadAfterExtend(chains[1..], k - 1, ext, c);
      assert r[1..] == chains[1..][k - 1 := chains[1..][k - 1] + ext];
    } else {
      assert r[1..] == chains[1..];
    }
  }

  /** Growing a file that is no directory on the path changes nothing about where the path leads. */
  lemma {:induction false} ResolveStable(v: Volume, w: Volume, g: Geometry, chains: seq<seq<nat>>, k: nat,
                                         ext: seq<nat>,
                                         cluster: nat, cs: seq<seq<u8>>)
    requires Sized(v, g) && Sized(w, g) && ChainsFit(g, chains) && k < |chains| && |chains[k]| > 0
    requires ChainsFit(g, chains[k := chains[k] + ext])
    requires forall a, i :: 0 <= a < |chains| && a != k && 0 <= i < |chains[a]| ==>
      w.data[chains[a][i]] == v.data[chains[a][i]]
    requires k !in Resolve(v, g, chains, cluster, cs).dirs
    ensures Resolve(w, g, chains[k := chains[k] + ext], cluster, cs) == Resolve(v, g, chains, cluster, cs)
    decreases |cs|
  {
    HeadAfterExtend(chains, k, ext, cluster);
    var a := HeadIndex(chains, cluster);
    if cs != [] && a < |chains| {
      VisibleDependsOnData(v, w, g, chains[a], 0);
      var f := FindName(Visible(v, g, chains[a], 0), cs[0]);
      if f.Some? && |cs| > 1 && HasAttr(f.value, ATTR_DIRECTORY) {
        ResolveStable(v, w, g, chains, k, ext, FirstCluster(f.value), cs[1..]);
      }
    }
  }

  /** Other chains keep their sectors when chain k is written and extended. */
  lemma OthersKeepData(v0: Volume, v: Volume, g: Geometry, chains: seq<seq<nat>>, k: nat, ext: seq<nat>)
    requires Extended(v0, v, g, chains, k, ext) && WellFormed(Values(v0, g), chains)
    ensures forall a, i :: 0 <= a < |chains| && a != k && 0 <= i < |chains[a]| ==>
      v.data[chains[a][i]] == v0.data[chains[a][i]]
    ensures ChainsFit(g, chains) && ChainsFit(g, chains[k := chains[k] + ext])
  {
    AllFit(v0, g, chains);
    AllFit(v, g, chains[k := chains[k] + ext]);
    forall a, i | 0 <= a < |chains| && a != k && 0 <= i < |chains[a]|
      ensures v.data[chains[a][i]] == v0.data[chains[a][i]]
    {
      var c := chains[a][i];
      OutsideExtension(Values(v0, g), chains, k, ext, a, i);
    }
  }

  lemma AllFit(v: Volume, g: Geometry, chains: seq<seq<nat>>)
    requires Sized(v, g) && WellFormed(Values(v, g), chains)
    ensures ChainsFit(g, chains)
  {
    forall a | 0 <= a < |chains| ensures Clusters(g, chains[a]) {
      ChainClusters(v, g, chains[a]);
    }
  }

  lemma OutsideExtension(fat: seq<nat>, chains: seq<seq<nat>>, k: nat, ext: seq<nat>, a: nat, i: nat)
    requires WellFormed(fat, chains) && k < |chains| && a < |chains| && a != k && i < |chains[a]|
    requires forall j :: 0 <= j < |ext| ==> InRange(fat, ext[j]) && fat[ext[j]] == 0
    ensures chains[a][i] !in chains[k] + ext
  {
    var c := chains[a][i];
    assert c in chains[a];
    forall j | 0 <= j < |ext| ensures ext[j] != c { FreeIsOutside(fat, chains, ext[j]); }
    assert forall j :: 0 <= j < |chains[k]| ==> chains[k][j] != chains[a][i];
  }

  // ------------------------------------------------------------ the operations by path

  /** resolve_path; the root directory itself comes back as None with root set. */
  method ResolvePath(d: Driver, path: seq<u8>, ghost chains: seq<seq<nat>>) returns (root: bool, result: Option<Entry>)
    requires d.Valid() && WellFormed(Values(d.Vol(), d.g), chains) && ChainsFit(d.g, chains)
    requires Resolve(d.Vol(), d.g, chains, d.g.root, Components(Stripped(path))).sound
    modifies d`sectorBuf
    ensures root <==> Stripped(path) == []
    ensures root ==> result == None
    ensures result == Resolve(d.Vol(), d.g, chains, d.g.root, Components(Stripped(path))).entry
  {
    hide Visible, FindName, WellFormed, IsChain, Values, HasAttr, Before, Clusters;
    var p := if path != [] && path[0] == SLASH then path[1..] else path;
    if p == [] { return true, None; }
    root := false;
    var cluster: nat := d.g.root;
    while true
      invariant p != [] && Resolve(d.Vol(), d.g, chains, cluster, Components(p)).sound
      invariant Resolve(d.Vol(), d.g, chains, cluster, Components(p)).entry
             == Resolve(d.Vol(), d.g, chains, d.g.root, Components(Stripped(path))).entry
      decreases |p|
    {
      ghost var a := HeadIndex(chains, cluster);
      HeadIsChain(d.Vol(), d.g, chains, a);
      var n := Before(p, SLASH);
      var component := p[..Min(n, MAX_FILENAME - 1)];
      ghost var cs := Components(p);
      p := if n < |p| then p[n + 1..] else [];
      result := FindInDir(d, cluster, component, chains[a]);
      assert cs[0] == component && cs[1..] == Components(p);
      if result.None? { return; }
      if p == [] { return; }
      if !HasAttr(result.value, ATTR_DIRECTORY) { return false, None; }
      cluster := FirstCluster(result.value);
    }
  }

  lemma HeadIsChain(v: Volume, g: Geometry, chains: seq<seq<nat>>, a: nat)
    requires Sized(v, g) && WellFormed(Values(v, g), chains) && a < |chains|
    ensures |chains[a]| > 0 && IsChain(Values(v, g), chains[a]) && Clusters(g, chains[a])
  {
    assert IsChain(Values(v, g), chains[a]);
    ChainClusters(v, g, chains[a]);
  }

  /** Where a path leads on the volume. */
  function Target(v: Volume, g: Geometry, chains: seq<seq<nat>>, path: seq<u8>): (r: Lookup)
    requires Sized(v, g) && ChainsFit(g, chains)
  {
    Resolve(v, g, chains, g.root, Components(Stripped(path)))
  }

  /** The entry of the file a path names; none if the path leads nowhere or to a directory. */
  function FileAt(v: Volume, g: Geometry, chains: seq<seq<nat>>, path: seq<u8>): (x: Option<Entry>)
    requires Sized(v, g) && ChainsFit(g, chains)
  {
    var e := Target(v, g, chains, path).entry;
    if e.Some? && !HasAttr(e.value, ATTR_DIRECTORY) then e else None
  }

  /** The directories on the path are chains of a well-formed volume, and so is the file, chain k, if there is one. */
  ghost predicate PathOk(v: Volume, g: Geometry, chains: seq<seq<nat>>, path: seq<u8>, k: nat)
  {
    && Sized(v, g) && WellFormed(Values(v, g), chains) && ChainsFit(g, chains)
    && Target(v, g, chains, path).sound
    && (FileAt(v, g, chains, path).Some? ==>
          k < |chains| && |chains[k]| > 0 && chains[k][0] == FirstCluster(FileAt(v, g, chains, path).value))
  }

  /** resolve_path and the test for directories, common to the three operations. */
  method OpenFile(d: Driver, path: seq<u8>, ghost chains: seq<seq<nat>>) returns (entry: Option<Entry>)
    requires d.Valid() && WellFormed(Values(d.Vol(), d.g), chains) && ChainsFit(d.g, chains)
    requires Target(d.Vol(), d.g, chains, path).sound
    modifies d`sectorBuf
    ensures entry == FileAt(d.Vol(), d.g, chains, path)
  {
    hide Resolve, WellFormed, Values, HasAttr;
    var root, found := ResolvePath(d, path, chains);
    if root || found.None? { return None; }
    if HasAttr(found.value, ATTR_DIRECTORY) { return None; }
    return found;
  }

  /** write_file, for entries that have a first cluster. */
  method WritePath(d: Driver, path: seq<u8>, data: seq<u8>, ghost chains: seq<seq<nat>>, ghost k: nat)
    returns (ok: bool, ghost ext: seq<nat>)
    requires d.Valid() && PathOk(d.Vol(), d.g, chains, path, k)
    modifies d`sectorBuf, d.disk
    ensures FileAt(old(d.Vol()), d.g, chains, path).None? ==> !ok && d.Vol() == old(d.Vol())
    ensures FileAt(old(d.Vol()), d.g, chains, path).Some? ==>
      && Extended(old(d.Vol()), d.Vol(), d.g, chains, k, ext) && Clusters(d.g, chains[k] + ext)
      && (ok ==> Holds(d.Vol(), d.g, chains[k] + ext, data, |data|))
      && (ok <==> |data| <= Capacity(d.g, |chains[k]| + FreeCount(Values(old(d.Vol()), d.g), 2)))
      && (ext != [] ==> Capacity(d.g, |chains[k]| + |ext| - 1) < |data|)
  {
    hide Extended, Holds, WellFormed, Values, Capacity, FreeCount, FileAt, Target;
    var entry := OpenFile(d, path, chains);
    if entry.None? { return false, []; }
    ok, ext := d.WriteFile(FirstCluster(entry.value), data, chains, k);
  }

  /** read_file. */
  method ReadPath(d: Driver, path: seq<u8>, buf: array<u8>, ghost chains: seq<seq<nat>>, ghost k: nat)
    returns (ok: bool, bytesRead: nat)
    requires d.Valid() && PathOk(d.Vol(), d.g, chains, path, k)
    modifies d`sectorBuf, buf
    ensures ok <==> FileAt(d.Vol(), d.g, chains, path).Some?
    ensures !ok ==> buf[..] == old(buf[..])
    ensures ok ==>
      && bytesRead == Min(FileSize(FileAt(d.Vol(), d.g, chains, path).value), buf.Length)
      && k < |chains|
      && var n := Min(bytesRead, Capacity(d.g, |chains[k]|));
      && ReadSoFar(d.Vol(), d.g, chains[k], buf[..], n)
      && forall j :: n <= j < buf.Length ==> buf[j] == old(buf[j])
  {
    hide WellFormed, Values, Capacity, FileAt, Target, IsChain, ReadSoFar;
    var entry := OpenFile(d, path, chains);
    if entry.None? { return false, 0; }
    HeadIsChain(d.Vol(), d.g, chains, k);
    bytesRead := d.ReadFile(FirstCluster(entry.value), FileSize(entry.value), buf, chains[k]);
    ok := true;
  }

  /** delete_file: exactly the file's chain becomes free. */
  method DeletePath(d: Driver, path: seq<u8>, ghost chains: seq<seq<nat>>, ghost k: nat) returns (ok: bool)
    requires d.Valid() && PathOk(d.Vol(), d.g, chains, path, k) && LinksInRange(Values(d.Vol(), d.g))
    modifies d`sectorBuf, d.disk
    ensures ok <==> FileAt(old(d.Vol()), d.g, chains, path).Some?
    ensures !ok ==> d.Vol() == old(d.Vol())
    ensures ok ==>
      && k < |chains|
      && Values(d.Vol(), d.g) == Cleared(Values(old(d.Vol()), d.g), chains[k])
      && FreeCount(Values(d.Vol(), d.g), 2) == FreeCount(Values(old(d.Vol()), d.g), 2) + |chains[k]|
      && WellFormed(Values(d.Vol(), d.g), Without(chains, k))
      && d.Vol().data == old(d.Vol()).data && ReservedBitsKept(old(d.Vol()), d.Vol())
      && (Mirrored(old(d.Vol())) ==> Mirrored(d.Vol()))
  {
    hide WellFormed, Values, FileAt, Target, LinksInRange, FreeChain, FreeCount, Cleared;
    var entry := OpenFile(d, path, chains);
    if entry.None? { return false; }
    DeleteFreesChain(d.Vol(), d.g, chains, k);
    d.DeleteFile(FirstCluster(entry.value));
    return true;
  }

  lemma ChunkByte(data: seq<u8>, j: nat)
    requires j < |data|
    ensures Chunk(data, j / SECTOR)[j % SECTOR] == data[j]
  {
    assert j == j / SECTOR * SECTOR + j % SECTOR;
  }

  /** What was written is what is read. */
  lemma WrittenIsRead(v: Volume, g: Geometry, s: seq<nat>, data: seq<u8>, buf: seq<u8>)
    requires Sized(v, g) && Clusters(g, s) && Holds(v, g, s, data, |data|) && |buf| == |data|
    requires ReadSoFar(v, g, s, buf, |data|)
    ensures buf == data
  {
    forall j: nat | j < |data| ensures buf[j] == data[j] {
      ChunkByte(data, j);
      assert FileSector(v, g, s, j / SECTOR) == Chunk(data, j / SECTOR);
    }
  }

  /** A file that holds the data has room for it. */
  lemma HeldDataFits(v: Volume, g: Geometry, s: seq<nat>, data: seq<u8>)
    requires Sized(v, g) && Clusters(g, s) && Holds(v, g, s, data, |data|)
    ensures |data| <= Capacity(g, |s|)
  {
    hide FileSector, Chunk;
    if data != [] {
      var t := (|data| - 1) / SECTOR;
      assert t < |data| && t * SECTOR < |data| && t / g.spc < |s|;
      RoomFor(|data|, g.spc, |s|);
    }
  }

  lemma RoomFor(n: nat, spc: nat, clusters: nat)
    requires n > 0 && spc > 0 && (n - 1) / SECTOR / spc < clusters
    ensures n <= clusters * spc * SECTOR
  {
    var t := (n - 1) / SECTOR;
    var q, r := t / spc, t % spc;
    assert t == q * spc + r && r < spc;
    assert (q + 1) * spc == q * spc + spc;
    if q + 1 < clusters { MulLess(q + 1, clusters, spc); }
    assert t + 1 <= clusters * spc;
  }

  /** The path leads to the same file after its chain grew. */
  lemma PathOkAfterWrite(v0: Volume, v: Volume, g: Geometry, chains: seq<seq<nat>>, path: seq<u8>, k: nat,
                         ext: seq<nat>)
    requires PathOk(v0, g, chains, path, k) && FileAt(v0, g, chains, path).Some?
    requires Extended(v0, v, g, chains, k, ext) && k !in Target(v0, g, chains, path).dirs
    ensures var grown := chains[k := chains[k] + ext];
      PathOk(v, g, grown, path, k) && FileAt(v, g, grown, path) == FileAt(v0, g, chains, path)
  {
    hide Resolve, HasAttr;
    OthersKeepData(v0, v, g, chains, k, ext);
    ResolveStable(v0, v, g, chains, k, ext, g.root, Components(Stripped(path)));
  }

  /**
    write_file(path, data, n) and then read_file(path, buf, n): if the write succeeds, the
    buffer holds the data, whether or not the chain had to grow on the way.
   */
  method WriteThenRead(d: Driver, path: seq<u8>, data: seq<u8>, buf: array<u8>, ghost chains: seq<seq<nat>>,
                       ghost k: nat)
    returns (ok: bool)
    requires d.Valid() && PathOk(d.Vol(), d.g, chains, path, k)
    requires k !in Target(d.Vol(), d.g, chains, path).dirs && |data| == buf.Length
    requires FileAt(d.Vol(), d.g, chains, path).Some? ==> FileSize(FileAt(d.Vol(), d.g, chains, path).value) >= |data|
    modifies d`sectorBuf, d.disk, buf
    ensures ok ==> buf[..] == data
    ensures ok <==>
      && FileAt(old(d.Vol()), d.g, chains, path).Some?
      && |data| <= Capacity(d.g, |chains[k]| + FreeCount(Values(old(d.Vol()), d.g), 2))
  {
    hide Extended, Holds, Capacity, FreeCount, FileAt, Values, ReadSoFar, Target, WellFormed;
    ghost var v0 := d.Vol();
    ghost var ext;
    ok, ext := WritePath(d, path, data, chains, k);
    if ok {
      PathOkAfterWrite(v0, d.Vol(), d.g, chains, path, k, ext);
      ghost var grown := chains[k := chains[k] + ext];
      assert grown[k] == chains[k] + ext;
      HeldDataFits(d.Vol(), d.g, grown[k], data);
      var found, n := ReadPath(d, path, buf, grown, k);
      WrittenIsRead(d.Vol(), d.g, grown[k], data, buf[..]);
    }
  }
}
