/**
  FAT32 volumes as values (src/fs/fat32.cpp): the file allocation tables as sequences of
  32-bit entries, the data area cluster by cluster, and cluster chains.
 */
module Fat32 {
  import opened Machine

  const SECTOR: nat := 512
  const END_OF_CHAIN: nat := 0x0FFF_FFF8
  const VALUE_LIMIT: nat := 0x1000_0000     // entries carry 28 value bits below 4 reserved bits

  type Sector = s: seq<u8> | |s| == 512 witness seq(512, _ => 0)

  datatype Geometry = Geometry(fatStart: nat, numFats: nat, fatSize: nat, dataStart: nat, spc: nat, total: nat,
      root: nat)

  /** Raw FAT entries of every copy, and the sectors of every cluster from 2 on. */
  datatype Volume = Volume(fats: seq<seq<nat>>, data: seq<seq<Sector>>)

  predicate IsEnd(cluster: nat) { cluster >= END_OF_CHAIN }

  predicate Sized(v: Volume, g: Geometry)
  {
    && |v.fats| == g.numFats >= 1
    && (forall f :: 0 <= f < |v.fats| ==> |v.fats[f]| == g.total + 2)
    && |v.data| == g.total + 2
    && (forall c :: 2 <= c < |v.data| ==> |v.data[c]| == g.spc)
    && g.spc >= 1 && g.total + 2 < END_OF_CHAIN
  }

  /** The entry values the kernel follows: those of the first copy. */
  function Values(v: Volume, g: Geometry): (fat: seq<nat>)
    requires Sized(v, g)
    ensures |fat| == g.total + 2
  {
    seq(g.total + 2, c requires 0 <= c < g.total + 2 => v.fats[0][c] % VALUE_LIMIT)
  }

  predicate Mirrored(v: Volume) { forall f :: 0 <= f < |v.fats| ==> v.fats[f] == v.fats[0] }

  // ------------------------------------------------------------ operations

  /** set_fat_entry on one raw entry: new value bits, old reserved bits. */
  function Replaced(raw: nat, value: nat): (r: nat)
  {
    raw / VALUE_LIMIT * VALUE_LIMIT + value % VALUE_LIMIT
  }

  function SetEntry(v: Volume, g: Geometry, c: nat, value: nat): (r: Volume)
    requires Sized(v, g) && c < g.total + 2
    ensures Sized(r, g)
  {
    v.(fats := seq(|v.fats|, f requires 0 <= f < |v.fats| => v.fats[f][c := Replaced(v.fats[f][c], value)]))
  }

  /** One raw entry of one copy. */
  function SetCopy(v: Volume, g: Geometry, f: nat, c: nat, raw: nat): (r: Volume)
    requires Sized(v, g) && f < g.numFats && c < g.total + 2
    ensures Sized(r, g)
  {
    var copy: seq<nat> := v.fats[f][c := raw];
    v.(fats := v.fats[f := copy])
  }

  function SetSector(v: Volume, g: Geometry, c: nat, s: nat, sector: Sector): (r: Volume)
    requires Sized(v, g) && 2 <= c < g.total + 2 && s < g.spc
    ensures Sized(r, g)
  {
    var cluster: seq<Sector> := v.data[c][s := sector];
    v.(data := v.data[c := cluster])
  }

  function ZeroSector(): (s: Sector) { seq(SECTOR, _ => 0) }

  function ZeroCluster(g: Geometry): (s: seq<Sector>)
    ensures |s| == g.spc
  {
    seq(g.spc, _ => ZeroSector())
  }

  lemma SetEntryValues(v: Volume, g: Geometry, c: nat, value: nat)
    requires Sized(v, g) && c < g.total + 2
    ensures Values(SetEntry(v, g, c, value), g) == Values(v, g)[c := value % VALUE_LIMIT]
    ensures Mirrored(v) ==> Mirrored(SetEntry(v, g, c, value))
  {
    var r := SetEntry(v, g, c, value);
    forall i | 0 <= i < g.total + 2 ensures Values(r, g)[i] == Values(v, g)[c := value % VALUE_LIMIT][i] {
      if i == c { ReplacedFields(v.fats[0][c], value); }
    }
  }

  /** The value bits become the new value, the reserved bits stay. */
  lemma ReplacedFields(raw: nat, value: nat)
    ensures Replaced(raw, value) % VALUE_LIMIT == value % VALUE_LIMIT
    ensures Replaced(raw, value) / VALUE_LIMIT == raw / VALUE_LIMIT
  {
    var q, x := raw / VALUE_LIMIT, value % VALUE_LIMIT;
    assert Replaced(raw, value) == q * VALUE_LIMIT + x;
  }

  // ------------------------------------------------------------ chains

  predicate InRange(fat: seq<nat>, c: nat) { 2 <= c < |fat| }

  predicate Linked(fat: seq<nat>, s: seq<nat>, i: nat)
    requires i + 1 < |s| && InRange(fat, s[i])
  {
    fat[s[i]] == s[i + 1]
  }

  /** The clusters one meets from s[0] on, ending at an end mark. */
  predicate IsChain(fat: seq<nat>, s: seq<nat>)
  {
    && |s| > 0
    && (forall i :: 0 <= i < |s| ==> InRange(fat, s[i]))
    && (forall i :: 0 <= i < |s| - 1 ==> Linked(fat, s, i))
    && IsEnd(fat[s[|s| - 1]])
  }

  /** No cluster occurs twice, in one chain or in two. */
  predicate AllDistinct(chains: seq<seq<nat>>)
  {
    forall a, i, b, j | 0 <= a < |chains| && 0 <= i < |chains[a]| && 0 <= b < |chains| && 0 <= j < |chains[b]| ::
      chains[a][i] == chains[b][j] ==> a == b && i == j
  }

  predicate WellFormed(fat: seq<nat>, chains: seq<seq<nat>>)
  {
    && |fat| < END_OF_CHAIN
    && (forall a :: 0 <= a < |chains| ==> IsChain(fat, chains[a]))
    && AllDistinct(chains)
  }

  /** Free clusters belong to no chain. */
  lemma FreeIsOutside(fat: seq<nat>, chains: seq<seq<nat>>, c: nat)
    requires WellFormed(fat, chains) && InRange(fat, c) && fat[c] == 0
    ensures forall a :: 0 <= a < |chains| ==> c !in chains[a]
  {
    forall a | 0 <= a < |chains| ensures c !in chains[a] {
      var s := chains[a];
      forall i | 0 <= i < |s| ensures s[i] != c {
        assert IsChain(fat, s);
        if i < |s| - 1 { assert Linked(fat, s, i) && InRange(fat, s[i + 1]); }
      }
    }
  }

  /** A change of the table outside a chain leaves the chain a chain. */
  lemma ChainElsewhere(fat: seq<nat>, fat': seq<nat>, s: seq<nat>)
    requires IsChain(fat, s) && |fat'| == |fat|
    requires forall i :: 0 <= i < |s| ==> fat'[s[i]] == fat[s[i]]
    ensures IsChain(fat', s)
  {
    forall i | 0 <= i < |s| - 1 ensures Linked(fat', s, i) { assert Linked(fat, s, i); }
  }

  /** Hanging a fresh cluster onto the end of chain k. */
  lemma ExtendChain(fat: seq<nat>, chains: seq<seq<nat>>, k: nat, c: nat)
    requires WellFormed(fat, chains) && k < |chains| && InRange(fat, c) && fat[c] == 0
    ensures var s := chains[k];
      WellFormed(fat[c := END_OF_CHAIN][s[|s| - 1] := c], chains[k := s + [c]])
  {
    var s := chains[k];
    var last := s[|s| - 1];
    var fat' := fat[c := END_OF_CHAIN][last := c];
    FreeIsOutside(fat, chains, c);
    assert IsChain(fat, s) && last != c;
    var r := chains[k := s + [c]];
    forall a | 0 <= a < |r| ensures IsChain(fat', r[a]) {
      if a == k {
        ExtendOne(fat, s, c);
      } else {
        forall i | 0 <= i < |chains[a]| ensures fat'[chains[a][i]] == fat[chains[a][i]] {
          assert chains[a][i] in chains[a] && chains[a][i] != chains[k][|s| - 1];
        }
        ChainElsewhere(fat, fat', chains[a]);
      }
    }
    DistinctAfterExtend(chains, k, c);
  }

  lemma ExtendOne(fat: seq<nat>, s: seq<nat>, c: nat)
    requires IsChain(fat, s) && InRange(fat, c) && c !in s
    requires forall i, j :: 0 <= i < |s| && 0 <= j < |s| && s[i] == s[j] ==> i == j
    ensures IsChain(fat[c := END_OF_CHAIN][s[|s| - 1] := c], s + [c])
  {
    var fat' := fat[c := END_OF_CHAIN][s[|s| - 1] := c];
    var r := s + [c];
    forall i | 0 <= i < |r| - 1 ensures Linked(fat', r, i) {
      if i < |s| - 1 { assert Linked(fat, s, i); }
    }
  }

  lemma DistinctAfterExtend(chains: seq<seq<nat>>, k: nat, c: nat)
    requires AllDistinct(chains) && k < |chains| && forall a :: 0 <= a < |chains| ==> c !in chains[a]
    ensures AllDistinct(chains[k := chains[k] + [c]])
  {
    var r := chains[k := chains[k] + [c]];
    forall a, i, b, j | 0 <= a < |r| && 0 <= i < |r[a]| && 0 <= b < |r| && 0 <= j < |r[b]| && r[a][i] == r[b][j]
      ensures a == b && i == j
    {
      assert i < |chains[a]| ==> r[a][i] == chains[a][i] && chains[a][i] in chains[a];
      assert j < |chains[b]| ==> r[b][j] == chains[b][j] && chains[b][j] in chains[b];
    }
  }

  // ------------------------------------------------------------ free clusters

  /** The lowest free cluster from `from` on, or the size of the table. */
  function FreeFrom(fat: seq<nat>, from: nat): (c: nat)
    requires from <= |fat|
    ensures from <= c <= |fat|
    ensures c < |fat| ==> fat[c] == 0
    ensures forall i :: from <= i < c ==> fat[i] != 0
    decreases |fat| - from
  {
    if from == |fat| then from else if fat[from] == 0 then from else FreeFrom(fat, from + 1)
  }

  function FreeCount(fat: seq<nat>, from: nat): (n: nat)
    requires from <= |fat|
    decreases |fat| - from
  {
    if from == |fat| then 0 else (if fat[from] == 0 then 1 else 0) + FreeCount(fat, from + 1)
  }

  lemma {:induction false} FreeCountUpdate(fat: seq<nat>, from: nat, c: nat, value: nat)
    requires from <= |fat| && c < |fat|
    ensures FreeCount(fat[c := value], from) ==
      if c < from then FreeCount(fat, from)
      else FreeCount(fat, from) - (if fat[c] == 0 then 1 else 0) + (if value == 0 then 1 else 0)
    decreases |fat| - from
  {
    if from < |fat| { FreeCountUpdate(fat, from + 1, c, value); }
  }

  lemma {:induction false} FreeCountZero(fat: seq<nat>, from: nat)
    requires from <= |fat|
    ensures FreeCount(fat, from) == 0 <==> FreeFrom(fat, from) == |fat|
    decreases |fat| - from
  {
    if from < |fat| && fat[from] != 0 { FreeCountZero(fat, from + 1); }
  }

  /** alloc_cluster: mark the lowest free cluster as an end of chain and zero its sectors. */
  function AllocCluster(v: Volume, g: Geometry): (r: (Volume, nat))
    requires Sized(v, g)
    ensures Sized(r.0, g) && r.1 < g.total + 2
  {
    var c := FreeFrom(Values(v, g), 2);
    if c == g.total + 2 then (v, 0)
    else (Zeroed(SetEntry(v, g, c, END_OF_CHAIN), g, c), c)
  }

  /** alloc_cluster gives 0 exactly if no entry is 0; otherwise the lowest such cluster, now an end of chain and full of
      zero bytes, and nothing else changes. */
  lemma AllocMeans(v: Volume, g: Geometry)
    requires Sized(v, g)
    ensures var (r, c) := AllocCluster(v, g);
      if c == 0 then r == v && forall i :: 2 <= i < g.total + 2 ==> Values(v, g)[i] != 0
      else
        && 2 <= c && Values(v, g)[c] == 0 && (forall i :: 2 <= i < c ==> Values(v, g)[i] != 0)
        && Values(r, g) == Values(v, g)[c := 0x0FFF_FFF8]
        && r.data == v.data[c := r.data[c]]
        && forall j, b :: 0 <= j < g.spc && 0 <= b < 512 ==> r.data[c][j][b] == 0
  {
    hide Values, SetEntry;
    var c := FreeFrom(Values(v, g), 2);
    if c < g.total + 2 {
      SetEntryValues(v, g, c, END_OF_CHAIN);
      SetEntryData(v, g, c, END_OF_CHAIN);
      ValuesOfZeroed(SetEntry(v, g, c, END_OF_CHAIN), g, c);
    }
  }

  lemma SetEntryData(v: Volume, g: Geometry, c: nat, value: nat)
    requires Sized(v, g) && c < g.total + 2
    ensures SetEntry(v, g, c, value).data == v.data
  {
  }

  lemma ValuesOfZeroed(v: Volume, g: Geometry, c: nat)
    requires Sized(v, g) && 2 <= c < g.total + 2
    ensures Values(Zeroed(v, g, c), g) == Values(v, g)
  {
  }

  function Zeroed(v: Volume, g: Geometry, c: nat): (r: Volume)
    requires Sized(v, g) && 2 <= c < g.total + 2
    ensures Sized(r, g)
  {
    v.(data := v.data[c := ZeroCluster(g)])
  }

  // ------------------------------------------------------------ file contents

  /** The t-th sector of the file whose chain is s. */
  function FileSector(v: Volume, g: Geometry, s: seq<nat>, t: nat): (x: Sector)
    requires Sized(v, g) && Clusters(g, s) && t / g.spc < |s|
  {
    v.data[s[t / g.spc]][t % g.spc]
  }

  /** The t-th 512 bytes of some data, padded with zeros. */
  function Chunk(data: seq<u8>, t: nat): (x: Sector)
    requires t * SECTOR < |data|
  {
    if (t + 1) * SECTOR <= |data| then data[t * SECTOR..(t + 1) * SECTOR]
    else data[t * SECTOR..] + seq((t + 1) * SECTOR - |data|, _ => 0)
  }

  /** The first T sectors of the file hold the data, as far as it reaches. */
  ghost predicate Holds(v: Volume, g: Geometry, s: seq<nat>, data: seq<u8>, T: nat)
    requires Sized(v, g) && Clusters(g, s)
  {
    forall t: nat :: t < T && t * SECTOR < |data| ==> t / g.spc < |s| && FileSector(v, g, s, t) == Chunk(data, t)
  }

  predicate Clusters(g: Geometry, s: seq<nat>) { forall i :: 0 <= i < |s| ==> 2 <= s[i] < g.total + 2 }

  lemma ClusterOf(g: Geometry, s: seq<nat>, m: nat)
    requires Clusters(g, s) && m < |s|
    ensures 2 <= s[m] < g.total + 2
  {
  }

  predicate Distinct(s: seq<nat>) { forall a, b :: 0 <= a < |s| && 0 <= b < |s| && s[a] == s[b] ==> a == b }

  /** Writing the next sector of the data makes one more sector right. */
  lemma WriteSector(v: Volume, g: Geometry, s: seq<nat>, data: seq<u8>, T: nat)
    requires Sized(v, g) && Clusters(g, s) && Distinct(s)
    requires T / g.spc < |s| && T * SECTOR < |data|
    requires Holds(v, g, s, data, T)
    ensures Holds(SetSector(v, g, s[T / g.spc], T % g.spc, Chunk(data, T)), g, s, data, T + 1)
  {
    var r := SetSector(v, g, s[T / g.spc], T % g.spc, Chunk(data, T));
    forall t: nat | t < T + 1 && t * SECTOR < |data|
      ensures t / g.spc < |s| && FileSector(r, g, s, t) == Chunk(data, t)
    {
      if t < T {
        assert t / g.spc < |s| && FileSector(v, g, s, t) == Chunk(data, t);
        OtherSector(v, g, s, t, T, Chunk(data, T));
      }
    }
  }

  lemma OtherSector(v: Volume, g: Geometry, s: seq<nat>, t: nat, T: nat, x: Sector)
    requires Sized(v, g) && Clusters(g, s) && Distinct(s)
    requires t != T && t / g.spc < |s| && T / g.spc < |s|
    ensures FileSector(SetSector(v, g, s[T / g.spc], T % g.spc, x), g, s, t) == FileSector(v, g, s, t)
  {
    hide Distinct, SetSector, FileSector;
    QuotientDetermines(t, T, g.spc);
    var i, j, m, k: nat := t / g.spc, t % g.spc, T / g.spc, T % g.spc;
    OtherCell(v, g, s, i, j, m, k, x);
    FileSectorAt(v, g, s, t);
    FileSectorAt(SetSector(v, g, s[m], k, x), g, s, t);
  }

  lemma FileSectorAt(v: Volume, g: Geometry, s: seq<nat>, t: nat)
    requires Sized(v, g) && Clusters(g, s) && t / g.spc < |s|
    ensures FileSector(v, g, s, t) == v.data[s[t / g.spc]][t % g.spc]
  {
  }

  lemma OtherCell(v: Volume, g: Geometry, s: seq<nat>, i: nat, j: nat, m: nat, k: nat, x: Sector)
    requires Sized(v, g) && Clusters(g, s) && Distinct(s)
    requires i < |s| && m < |s| && j < g.spc && k < g.spc && (i != m || j != k)
    ensures SetSector(v, g, s[m], k, x).data[s[i]][j] == v.data[s[i]][j]
  {
    assert i != m ==> s[i] != s[m];
  }

  lemma QuotientDetermines(t: nat, T: nat, d: nat)
    requires d > 0 && t != T
    ensures t / d != T / d || t % d != T % d
  {
    assert t == t / d * d + t % d && T == T / d * d + T % d;
  }

  // ------------------------------------------------------------ the progress of write_file

  /** Outside the clusters of s nothing changed: no entry of any copy, no sector. */
  ghost predicate Untouched(v0: Volume, v: Volume, s: seq<nat>)
  {
    && |v.fats| == |v0.fats| && |v.data| == |v0.data|
    && (forall f, c :: 0 <= f < |v0.fats| && 0 <= c < |v0.fats[f]| && c !in s ==>
          c < |v.fats[f]| && v.fats[f][c] == v0.fats[f][c])
    && (forall c :: 0 <= c < |v0.data| && c !in s ==> v.data[c] == v0.data[c])
  }

  ghost predicate ReservedBitsKept(v0: Volume, v: Volume)
  {
    && |v.fats| == |v0.fats| && (forall f :: 0 <= f < |v0.fats| ==> |v0.fats[f]| <= |v.fats[f]|)
    && forall f, c :: 0 <= f < |v0.fats| && 0 <= c < |v0.fats[f]| ==>
         v.fats[f][c] / VALUE_LIMIT == v0.fats[f][c] / VALUE_LIMIT
  }

  /** What holds of the volume after ext was appended to chain k. */
  ghost predicate Extended(v0: Volume, v: Volume, g: Geometry, chains: seq<seq<nat>>, k: nat, ext: seq<nat>)
  {
    && Sized(v0, g) && Sized(v, g) && k < |chains|
    && WellFormed(Values(v, g), chains[k := chains[k] + ext])
    && (Mirrored(v0) ==> Mirrored(v))
    && ReservedBitsKept(v0, v) && Untouched(v0, v, chains[k] + ext)
    && (forall i :: 0 <= i < |ext| ==> 2 <= ext[i] < g.total + 2 && Values(v0, g)[ext[i]] == 0)
    && FreeCount(Values(v, g), 2) == FreeCount(Values(v0, g), 2) - |ext|
  }

  lemma WellFormedChain(fat: seq<nat>, chains: seq<seq<nat>>, k: nat)
    requires WellFormed(fat, chains) && k < |chains|
    ensures IsChain(fat, chains[k]) && Distinct(chains[k])
  {
  }

  lemma ChainClusters(v: Volume, g: Geometry, s: seq<nat>)
    requires Sized(v, g) && IsChain(Values(v, g), s)
    ensures Clusters(g, s)
  {
    assert forall i :: 0 <= i < |s| ==> InRange(Values(v, g), s[i]);
  }

  lemma SetEntryKeeps(v: Volume, g: Geometry, c: nat, value: nat)
    requires Sized(v, g) && c < g.total + 2
    ensures ReservedBitsKept(v, SetEntry(v, g, c, value)) && Untouched(v, SetEntry(v, g, c, value), [c])
  {
    var r := SetEntry(v, g, c, value);
    forall f, i | 0 <= f < |v.fats| && 0 <= i < |v.fats[f]|
      ensures r.fats[f][i] / VALUE_LIMIT == v.fats[f][i] / VALUE_LIMIT && (i != c ==> r.fats[f][i] == v.fats[f][i])
    {
      if i == c { ReplacedFields(v.fats[f][c], value); }
    }
  }

  lemma UntouchedTransitive(a: Volume, b: Volume, c: Volume, s: seq<nat>, t: seq<nat>, u: seq<nat>)
    requires Untouched(a, b, s) && Untouched(b, c, t)
    requires forall x :: x in s || x in t ==> x in u
    requires forall f :: 0 <= f < |a.fats| ==> |b.fats[f]| == |a.fats[f]|
    ensures Untouched(a, c, u)
  {
  }

  lemma ReservedTransitive(a: Volume, b: Volume, c: Volume)
    requires ReservedBitsKept(a, b) && ReservedBitsKept(b, c)
    requires forall f :: 0 <= f < |a.fats| ==> |b.fats[f]| == |a.fats[f]|
    ensures ReservedBitsKept(a, c)
  {
    forall f, i | 0 <= f < |a.fats| && 0 <= i < |a.fats[f]|
      ensures i < |c.fats[f]| && c.fats[f][i] / VALUE_LIMIT == a.fats[f][i] / VALUE_LIMIT
    {
      assert i < |b.fats[f]| && b.fats[f][i] / VALUE_LIMIT == a.fats[f][i] / VALUE_LIMIT;
    }
  }

  /** alloc_cluster followed by linking the new cluster behind the last one. */
  function Appended(v: Volume, g: Geometry, last: nat): (r: (Volume, nat))
    requires Sized(v, g) && last < g.total + 2
    ensures Sized(r.0, g)
  {
    var (w, c) := AllocCluster(v, g);
    if c == 0 then (v, 0) else (SetEntry(w, g, last, c), c)
  }

  lemma AppendedEffect(v: Volume, g: Geometry, last: nat)
    requires Sized(v, g) && 2 <= last < g.total + 2
    ensures var (r, c) := Appended(v, g, last);
      && (c == 0 <==> FreeCount(Values(v, g), 2) == 0)
      && (c == 0 ==> r == v)
      && (c != 0 ==>
            && 2 <= c < g.total + 2 && Values(v, g)[c] == 0
            && Values(r, g) == Values(v, g)[c := END_OF_CHAIN][last := c]
            && (Mirrored(v) ==> Mirrored(r)) && ReservedBitsKept(v, r) && Untouched(v, r, [c, last])
            && r.data == v.data[c := ZeroCluster(g)])
  {
    var fat := Values(v, g);
    FreeCountZero(fat, 2);
    hide Replaced, Untouched, ReservedBitsKept, Mirrored, SetEntry, Zeroed;
    var (w, c) := AllocCluster(v, g);
    if c != 0 {
      AllocEffect(v, g, c);
      LinkEffect(w, g, last, c);
      var r := SetEntry(w, g, last, c);
      UntouchedTransitive(v, w, r, [c], [last], [c, last]);
      ReservedTransitive(v, w, r);
    }
  }

  lemma AllocEffect(v: Volume, g: Geometry, c: nat)
    requires Sized(v, g) && 2 <= c < g.total + 2
    ensures var w := Zeroed(SetEntry(v, g, c, END_OF_CHAIN), g, c);
      && Values(w, g) == Values(v, g)[c := END_OF_CHAIN]
      && (Mirrored(v) ==> Mirrored(w)) && ReservedBitsKept(v, w) && Untouched(v, w, [c])
      && w.data == v.data[c := ZeroCluster(g)]
  {
    var u := SetEntry(v, g, c, END_OF_CHAIN);
    SetEntryValues(v, g, c, END_OF_CHAIN);
    SetEntryKeeps(v, g, c, END_OF_CHAIN);
    assert Values(Zeroed(u, g, c), g) == Values(u, g);
  }

  lemma LinkEffect(w: Volume, g: Geometry, last: nat, c: nat)
    requires Sized(w, g) && last < g.total + 2 && c < g.total + 2
    ensures var r := SetEntry(w, g, last, c);
      && Values(r, g) == Values(w, g)[last := c]
      && (Mirrored(w) ==> Mirrored(r)) && ReservedBitsKept(w, r) && Untouched(w, r, [last]) && r.data == w.data
  {
    SetEntryValues(w, g, last, c);
    SetEntryKeeps(w, g, last, c);
  }

  lemma AppendKeeps(v0: Volume, v: Volume, g: Geometry, chains: seq<seq<nat>>, k: nat, ext: seq<nat>)
    requires Extended(v0, v, g, chains, k, ext)
    ensures var s := chains[k] + ext;
      && |s| > 0 && 2 <= s[|s| - 1] < g.total + 2
      && var (r, c) := Appended(v, g, s[|s| - 1]);
      && (c == 0 <==> FreeCount(Values(v, g), 2) == 0)
      && (c == 0 ==> r == v)
      && (c != 0 ==> Extended(v0, r, g, chains, k, ext + [c]) && 2 <= c < g.total + 2 && c !in s)
      && (c != 0 ==> r.data == v.data[c := ZeroCluster(g)])
  {
    var s := chains[k] + ext;
    var all := chains[k := s];
    WellFormedChain(Values(v, g), all, k);
    ChainClusters(v, g, s);
    AppendedEffect(v, g, s[|s| - 1]);
    var (r, c) := Appended(v, g, s[|s| - 1]);
    if c != 0 {
      AppendExtends(v0, v, g, chains, k, ext, r, c);
    }
  }

  /** Linking a free cluster behind a used one takes one cluster. */
  lemma LinkCounts(fat: seq<nat>, last: nat, c: nat)
    requires 2 <= c < |fat| && last < |fat| && fat[c] == 0 && fat[last] != 0
    ensures FreeCount(fat[c := END_OF_CHAIN][last := c], 2) == FreeCount(fat, 2) - 1
  {
    FreeCountUpdate(fat, 2, c, END_OF_CHAIN);
    FreeCountUpdate(fat[c := END_OF_CHAIN], 2, last, c);
  }

  lemma AppendExtends(v0: Volume, v: Volume, g: Geometry, chains: seq<seq<nat>>, k: nat, ext: seq<nat>, r: Volume,
                      c: nat)
    requires Extended(v0, v, g, chains, k, ext) && Sized(r, g)
    requires var s := chains[k] + ext;
      && |s| > 0 && 2 <= s[|s| - 1] < g.total + 2 && 2 <= c < g.total + 2 && Values(v, g)[c] == 0
      && Values(r, g) == Values(v, g)[c := END_OF_CHAIN][s[|s| - 1] := c]
      && (Mirrored(v) ==> Mirrored(r)) && ReservedBitsKept(v, r) && Untouched(v, r, [c, s[|s| - 1]])
    ensures Extended(v0, r, g, chains, k, ext + [c]) && c !in chains[k] + ext
  {
    hide Untouched, ReservedBitsKept, WellFormed;
    var s := chains[k] + ext;
    var fat := Values(v, g);
    var all := chains[k := s];
    assert all[k] == s && s + [c] == chains[k] + (ext + [c]);
    FreeIsOutside(fat, all, c);
    ExtendChain(fat, all, k, c);
    assert all[k := s + [c]] == chains[k := chains[k] + (ext + [c])];
    UntouchedTransitive(v0, v, r, s, [c, s[|s| - 1]], chains[k] + (ext + [c]));
    ReservedTransitive(v0, v, r);
    WellFormedChain(fat, chains[k := s], k);
    LinkCounts(fat, s[|s| - 1], c);
    StillFree(v0, v, g, s, c);
  }

  lemma StillFree(v0: Volume, v: Volume, g: Geometry, s: seq<nat>, c: nat)
    requires Sized(v0, g) && Sized(v, g) && Untouched(v0, v, s) && c !in s && c < g.total + 2
    ensures Values(v, g)[c] == Values(v0, g)[c]
  {
    assert v.fats[0][c] == v0.fats[0][c];
  }

  /** Appending a cluster keeps what the file already holds. */
  lemma HoldsAppend(v: Volume, r: Volume, g: Geometry, s: seq<nat>, c: nat, data: seq<u8>, T: nat)
    requires Sized(v, g) && Sized(r, g) && Clusters(g, s) && 2 <= c < g.total + 2 && c !in s
    requires r.data == v.data[c := ZeroCluster(g)] && Holds(v, g, s, data, T)
    ensures Holds(r, g, s + [c], data, T)
  {
    forall t: nat | t < T && t * SECTOR < |data|
      ensures t / g.spc < |s + [c]| && FileSector(r, g, s + [c], t) == Chunk(data, t)
    {
      assert t / g.spc < |s| && FileSector(v, g, s, t) == Chunk(data, t);
      assert (s + [c])[t / g.spc] == s[t / g.spc] && s[t / g.spc] in s;
    }
  }

  /** Writing a sector of a file of the volume. */
  lemma SectorKeeps(v0: Volume, v: Volume, g: Geometry, chains: seq<seq<nat>>, k: nat, ext: seq<nat>, c: nat, j: nat,
                    x: Sector)
    requires Extended(v0, v, g, chains, k, ext) && c in chains[k] + ext && 2 <= c < g.total + 2 && j < g.spc
    ensures Extended(v0, SetSector(v, g, c, j, x), g, chains, k, ext)
  {
    assert Values(SetSector(v, g, c, j, x), g) == Values(v, g);
  }

  // ------------------------------------------------------------ delete_file

  /** Every link leads to a cluster of the volume, or is free, reserved (1) or an end mark. */
  predicate LinksInRange(fat: seq<nat>)
  {
    forall c :: 0 <= c < |fat| ==> fat[c] < |fat| || IsEnd(fat[c])
  }

  lemma {:induction false} FreeCountBound(fat: seq<nat>, from: nat)
    requires from <= |fat|
    ensures FreeCount(fat, from) <= |fat| - from
    decreases |fat| - from
  {
    if from < |fat| { FreeCountBound(fat, from + 1); }
  }

  /** How many entries are not free: what shrinks while a chain is being freed, cyclic or not. */
  function InUse(fat: seq<nat>): (n: nat)
    requires |fat| >= 2
  {
    FreeCountBound(fat, 2);
    |fat| - FreeCount(fat, 2)
  }

  lemma FreeingShrinks(v: Volume, g: Geometry, c: nat)
    requires Sized(v, g) && 2 <= c < g.total + 2 && LinksInRange(Values(v, g))
    ensures var r := SetEntry(v, g, c, 0);
      && Values(r, g) == Values(v, g)[c := 0] && LinksInRange(Values(r, g))
      && InUse(Values(r, g)) == InUse(Values(v, g)) - (if Values(v, g)[c] == 0 then 0 else 1)
  {
    SetEntryValues(v, g, c, 0);
    FreeCountUpdate(Values(v, g), 2, c, 0);
  }

  /** The loop of delete_file: zero the entry, go on to what it used to say. */
  function FreeChain(v: Volume, g: Geometry, c: nat): (r: Volume)
    requires Sized(v, g) && LinksInRange(Values(v, g)) && (c < g.total + 2 || IsEnd(c))
    ensures Sized(r, g)
    decreases InUse(Values(v, g)), if c == 0 then 0 else 1
  {
    if IsEnd(c) || c < 2 then v
    else
      FreeingShrinks(v, g, c);
      FreeChain(SetEntry(v, g, c, 0), g, Values(v, g)[c])
  }

  /** One turn of delete_file's loop. */
  lemma FreeChainStep(v: Volume, g: Geometry, c: nat)
    requires Sized(v, g) && LinksInRange(Values(v, g)) && 2 <= c < g.total + 2
    ensures var r, next := SetEntry(v, g, c, 0), Values(v, g)[c];
      && LinksInRange(Values(r, g)) && (next < g.total + 2 || IsEnd(next))
      && FreeChain(v, g, c) == FreeChain(r, g, next)
      && (InUse(Values(r, g)) < InUse(Values(v, g)) || (InUse(Values(r, g)) == InUse(Values(v, g)) && next == 0))
  {
    FreeingShrinks(v, g, c);
  }

  lemma FreeChainDone(v: Volume, g: Geometry, c: nat)
    requires Sized(v, g) && LinksInRange(Values(v, g)) && (c < 2 || IsEnd(c))
    ensures FreeChain(v, g, c) == v
  {
  }

  predicate InChain(fat: seq<nat>, c: nat) { 2 <= c < |fat| && !IsEnd(c) }

  /** Where n links lead from c; 0 once the links leave the table. */
  function After(fat: seq<nat>, c: nat, n: nat): (x: nat)
  {
    if n == 0 then c
    else
      var p := After(fat, c, n - 1);
      if InChain(fat, p) then fat[p] else 0
  }

  ghost predicate Reached(fat: seq<nat>, c: nat, x: nat) { InChain(fat, x) && exists n: nat :: After(fat, c, n) == x }

  lemma {:induction false} AfterFirst(fat: seq<nat>, c: nat, n: nat)
    requires InChain(fat, c)
    ensures After(fat, c, n + 1) == After(fat, fat[c], n)
  {
    if n > 0 { AfterFirst(fat, c, n - 1); }
  }

  /** With c's entry zeroed the links lead where they led, until they come back to c. */
  lemma {:induction false} AfterCut(fat: seq<nat>, c: nat, d: nat, n: nat)
    requires InChain(fat, c)
    ensures After(fat[c := 0], d, n) == After(fat, d, n) || After(fat[c := 0], d, n) == 0
  {
    if n > 0 { AfterCut(fat, c, d, n - 1); }
  }

  lemma {:induction false} AfterWhole(fat: seq<nat>, c: nat, n: nat)
    requires InChain(fat, c) && InChain(fat, After(fat, fat[c], n))
    ensures var x := After(fat, fat[c], n); x == c || Reached(fat[c := 0], fat[c], x)
  {
    var cut, d := fat[c := 0], fat[c];
    var x := After(fat, d, n);
    if n == 0 {
      assert After(cut, d, 0) == x;
    } else {
      var p := After(fat, d, n - 1);
      AfterWhole(fat, c, n - 1);
      if p == c {
        assert After(cut, d, 0) == x;
      } else {
        var m: nat :| After(cut, d, m) == p;
        assert After(cut, d, m + 1) == x;
      }
    }
  }

  /** What c reaches is c and what its successor reaches without c. */
  lemma ReachedStep(fat: seq<nat>, c: nat, x: nat)
    requires InChain(fat, c)
    ensures Reached(fat, c, x) <==> x == c || Reached(fat[c := 0], fat[c], x)
  {
    if Reached(fat, c, x) && x != c {
      var n: nat :| After(fat, c, n) == x;
      AfterFirst(fat, c, n - 1);
      AfterWhole(fat, c, n - 1);
    }
    if Reached(fat[c := 0], fat[c], x) {
      var n: nat :| After(fat[c := 0], fat[c], n) == x;
      AfterCut(fat, c, fat[c], n);
      AfterFirst(fat, c, n);
    }
    if x == c { assert After(fat, c, 0) == c; }
  }

  lemma NothingReached(fat: seq<nat>, c: nat, x: nat)
    requires !InChain(fat, c)
    ensures !Reached(fat, c, x)
  {
    forall n: nat ensures !InChain(fat, After(fat, c, n)) {
      StaysOut(fat, c, n);
    }
  }

  lemma {:induction false} StaysOut(fat: seq<nat>, c: nat, n: nat)
    requires !InChain(fat, c)
    ensures !InChain(fat, After(fat, c, n))
  {
    if n > 0 { StaysOut(fat, c, n - 1); }
  }

  /** On any table with links in range, cyclic ones included, exactly what c reaches is freed. */
  lemma {:induction false} FreeChainExact(v: Volume, g: Geometry, c: nat, x: nat)
    requires Sized(v, g) && LinksInRange(Values(v, g)) && (c < g.total + 2 || IsEnd(c)) && x < g.total + 2
    ensures Values(FreeChain(v, g, c), g)[x] == if Reached(Values(v, g), c, x) then 0 else Values(v, g)[x]
    decreases InUse(Values(v, g)), if c == 0 then 0 else 1
  {
    var fat := Values(v, g);
    if IsEnd(c) || c < 2 {
      NothingReached(fat, c, x);
    } else {
      FreeingShrinks(v, g, c);
      FreeChainExact(SetEntry(v, g, c, 0), g, fat[c], x);
      ReachedStep(fat, c, x);
    }
  }

  lemma {:induction false} FreeChainKeeps(v: Volume, g: Geometry, c: nat)
    requires Sized(v, g) && LinksInRange(Values(v, g)) && (c < g.total + 2 || IsEnd(c))
    ensures var r := FreeChain(v, g, c);
      r.data == v.data && ReservedBitsKept(v, r) && (Mirrored(v) ==> Mirrored(r))
    decreases InUse(Values(v, g)), if c == 0 then 0 else 1
  {
    if !(IsEnd(c) || c < 2) {
      FreeingShrinks(v, g, c);
      var w := SetEntry(v, g, c, 0);
      FreeChainKeeps(w, g, Values(v, g)[c]);
      SetEntryKeeps(v, g, c, 0);
      SetEntryValues(v, g, c, 0);
      ReservedTransitive(v, w, FreeChain(w, g, Values(v, g)[c]));
    }
  }

  /** Zeroing the entries of a set of clusters. */
  function Cleared(fat: seq<nat>, s: seq<nat>): (r: seq<nat>)
    ensures |r| == |fat|
  {
    seq(|fat|, c requires 0 <= c < |fat| => if c in s then 0 else fat[c])
  }

  lemma {:induction false} FreeSuffix(v: Volume, g: Geometry, s: seq<nat>)
    requires Sized(v, g) && LinksInRange(Values(v, g)) && IsChain(Values(v, g), s) && Distinct(s)
    ensures 2 <= s[0] < g.total + 2
    ensures Values(FreeChain(v, g, s[0]), g) == Cleared(Values(v, g), s)
    ensures FreeCount(Values(FreeChain(v, g, s[0]), g), 2) == FreeCount(Values(v, g), 2) + |s|
    decreases |s|
  {
    var fat, c := Values(v, g), s[0];
    assert InRange(fat, c);
    FreeingShrinks(v, g, c);
    var w := SetEntry(v, g, c, 0);
    FreeCountUpdate(fat, 2, c, 0);
    if |s| == 1 {
      assert Values(w, g) == Cleared(fat, s);
    } else {
      var rest := s[1..];
      assert Linked(fat, s, 0);
      RestIsChain(fat, s);
      FreeSuffix(w, g, rest);
      assert Cleared(Values(w, g), rest) == Cleared(fat, s) by {
        assert s == [c] + rest;
      }
    }
  }

  lemma RestIsChain(fat: seq<nat>, s: seq<nat>)
    requires IsChain(fat, s) && Distinct(s) && |s| > 1
    ensures IsChain(fat[s[0] := 0], s[1..]) && Distinct(s[1..]) && fat[s[0]] == s[1] && fat[s[0]] != 0
  {
    var fat', rest := fat[s[0] := 0], s[1..];
    assert Linked(fat, s, 0) && InRange(fat, s[1]);
    forall i | 0 <= i < |rest| - 1 ensures Linked(fat', rest, i) { assert Linked(fat, s, i + 1) && s[i + 1] != s[0]; }
    forall i | 0 <= i < |rest| ensures InRange(fat', rest[i]) { assert InRange(fat, s[i + 1]); }
    assert s[|s| - 1] != s[0];
  }

  function Without<T>(xs: seq<T>, k: nat): (r: seq<T>)
    requires k < |xs|
  {
    xs[..k] + xs[k + 1..]
  }

  /** On a well-formed volume delete_file frees exactly the file's chain and leaves the other chains intact. */
  lemma DeleteFreesChain(v: Volume, g: Geometry, chains: seq<seq<nat>>, k: nat)
    requires Sized(v, g) && LinksInRange(Values(v, g)) && WellFormed(Values(v, g), chains) && k < |chains|
    ensures 2 <= chains[k][0] < g.total + 2
    ensures var fat, r := Values(v, g), FreeChain(v, g, chains[k][0]);
      && Values(r, g) == Cleared(fat, chains[k])
      && FreeCount(Values(r, g), 2) == FreeCount(fat, 2) + |chains[k]|
      && WellFormed(Values(r, g), Without(chains, k))
      && r.data == v.data && ReservedBitsKept(v, r) && (Mirrored(v) ==> Mirrored(r))
  {
    var fat, s := Values(v, g), chains[k];
    WellFormedChain(fat, chains, k);
    FreeSuffix(v, g, s);
    FreeChainKeeps(v, g, s[0]);
    ClearedKeepsOthers(fat, chains, k);
  }

  lemma ClearedKeepsOthers(fat: seq<nat>, chains: seq<seq<nat>>, k: nat)
    requires WellFormed(fat, chains) && k < |chains|
    ensures WellFormed(Cleared(fat, chains[k]), Without(chains, k))
  {
    var fat', others := Cleared(fat, chains[k]), Without(chains, k);
    forall a | 0 <= a < |others| ensures IsChain(fat', others[a]) {
      var b := if a < k then a else a + 1;
      assert others[a] == chains[b] && IsChain(fat, chains[b]);
      forall i | 0 <= i < |chains[b]| ensures fat'[chains[b][i]] == fat[chains[b][i]] {
        assert InRange(fat, chains[b][i]);
        assert forall j :: 0 <= j < |chains[k]| ==> chains[k][j] != chains[b][i];
      }
      ChainElsewhere(fat, fat', chains[b]);
    }
    forall a, i, b, j | 0 <= a < |others| && 0 <= i < |others[a]| && 0 <= b < |others|
        && 0 <= j < |others[b]| && others[a][i] == others[b][j]
      ensures a == b && i == j
    {
      var a', b' := if a < k then a else a + 1, if b < k then b else b + 1;
      assert chains[a'][i] == chains[b'][j];
    }
  }

  /** One sector of write_file: sector j of cluster m of the chain s. */
  lemma SectorStep(v0: Volume, v: Volume, g: Geometry, chains: seq<seq<nat>>, k: nat, ext: seq<nat>, s: seq<nat>,
                   data: seq<u8>,
                   m: nat, T: nat, j: nat)
    requires Extended(v0, v, g, chains, k, ext) && Sized(v, g) && k < |chains| && s == chains[k] + ext
    requires Clusters(g, s) && Distinct(s)
    requires m < |s| && T == m * g.spc && j < g.spc && (T + j) * SECTOR < |data|
    requires Holds(v, g, s, data, T + j)
    ensures var w := SetSector(v, g, s[m], j, Chunk(data, T + j));
      && Extended(v0, w, g, chains, k, ext) && Values(w, g) == Values(v, g)
      && Holds(w, g, s, data, T + j + 1)
  {
    hide Extended, Holds;
    DivModUnique(T + j, g.spc, m, j);
    WriteSector(v, g, s, data, T + j);
    assert s[m] in s;
    SectorKeeps(v0, v, g, chains, k, ext, s[m], j, Chunk(data, T + j));
    assert Values(SetSector(v, g, s[m], j, Chunk(data, T + j)), g) == Values(v, g);
  }

  /** Beyond the end of the data there is nothing left to hold. */
  lemma HoldsToEnd(v: Volume, g: Geometry, s: seq<nat>, data: seq<u8>, T: nat, T': nat)
    requires Sized(v, g) && Clusters(g, s) && Holds(v, g, s, data, T) && |data| <= T * SECTOR
    ensures Holds(v, g, s, data, T')
  {
  }

  /** Following the link of the m-th cluster of a chain. */
  lemma ChainNext(fat: seq<nat>, s: seq<nat>, m: nat)
    requires IsChain(fat, s) && m < |s|
    ensures InRange(fat, s[m])
    ensures m + 1 < |s| ==> fat[s[m]] == s[m + 1]
    ensures m + 1 == |s| ==> IsEnd(fat[s[m]])
  {
    assert InRange(fat, s[m]);
    if m + 1 < |s| { assert Linked(fat, s, m); }
  }

  /** The chain of the file being written. */
  lemma ExtendedChain(v0: Volume, v: Volume, g: Geometry, chains: seq<seq<nat>>, k: nat, ext: seq<nat>)
    requires Extended(v0, v, g, chains, k, ext)
    ensures var s := chains[k] + ext;
      Sized(v, g) && k < |chains| && IsChain(Values(v, g), s) && Distinct(s) && Clusters(g, s)
  {
    var all := chains[k := chains[k] + ext];
    WellFormedChain(Values(v, g), all, k);
    ChainClusters(v, g, all[k]);
  }

  /** Where write_file's loop stands: m clusters, T sectors, pos bytes of the file are done. */
  ghost predicate Writing(v0: Volume, v: Volume, g: Geometry, chains: seq<seq<nat>>, k: nat, ext: seq<nat>,
                          data: seq<u8>,
                          m: nat, T: nat, pos: nat)
  {
    && Extended(v0, v, g, chains, k, ext)
    && var s := chains[k] + ext;
    && Clusters(g, s) && m <= |s|
    && T == m * g.spc && pos == Min(|data|, T * SECTOR)
    && Holds(v, g, s, data, T)
    && (ext != [] ==> Capacity(g, |s| - 1) < |data|)
  }

  /** The next cluster to write and the one before it. */
  predicate AtCluster(s: seq<nat>, m: nat, cluster: nat, prev: nat)
  {
    && (if m < |s| then cluster == s[m] else IsEnd(cluster))
    && (if 0 < m <= |s| then prev == s[m - 1] else prev == 0)
  }

  lemma WritingParts(v0: Volume, v: Volume, g: Geometry, chains: seq<seq<nat>>, k: nat, ext: seq<nat>, data: seq<u8>,
                     m: nat, T: nat, pos: nat)
    requires Writing(v0, v, g, chains, k, ext, data, m, T, pos)
    ensures Extended(v0, v, g, chains, k, ext) && k < |chains|
    ensures var s := chains[k] + ext;
      && |s| > 0 && m <= |s| && Clusters(g, s) && Distinct(s)
      && T == m * g.spc && pos == Min(|data|, T * SECTOR) && Holds(v, g, s, data, T)
      && (ext != [] ==> Capacity(g, |s| - 1) < |data|)
  {
    hide Holds;
    ExtendedChain(v0, v, g, chains, k, ext);
  }

  lemma WriteStart(v: Volume, g: Geometry, chains: seq<seq<nat>>, k: nat, data: seq<u8>)
    requires Sized(v, g) && WellFormed(Values(v, g), chains) && k < |chains| && |chains[k]| > 0
    ensures Writing(v, v, g, chains, k, [], data, 0, 0, 0)
    ensures AtCluster(chains[k] + [], 0, chains[k][0], 0)
  {
    ExtendedStart(v, g, chains, k);
    ExtendedChain(v, v, g, chains, k, []);
  }

  /** The file needs another cluster and gets one. */
  lemma WriteAppends(v0: Volume, v: Volume, g: Geometry, chains: seq<seq<nat>>, k: nat, ext: seq<nat>, data: seq<u8>,
                     m: nat, T: nat, pos: nat, r: Volume, c: nat, prev: nat)
    requires Writing(v0, v, g, chains, k, ext, data, m, T, pos) && pos < |data|
    requires m == |chains[k] + ext| && m > 0 && prev == (chains[k] + ext)[m - 1] && 2 <= prev < g.total + 2
    requires (r, c) == Appended(v, g, prev)
    ensures c == 0 ==> r == v && Extended(v0, r, g, chains, k, ext)
    ensures c == 0 ==> |data| > Capacity(g, |chains[k]| + FreeCount(Values(v0, g), 2))
    ensures c != 0 ==> Writing(v0, r, g, chains, k, ext + [c], data, m, T, pos) && (chains[k] + (ext + [c]))[m] == c
  {
    hide Appended, Holds;
    AppendKeeps(v0, v, g, chains, k, ext);
    var s := chains[k] + ext;
    if c != 0 {
      HoldsAppend(v, r, g, s, c, data, T);
      assert s + [c] == chains[k] + (ext + [c]);
      ExtendedChain(v0, r, g, chains, k, ext + [c]);
    }
  }

  /** A cluster has been written. */
  lemma WriteAdvances(v0: Volume, v: Volume, g: Geometry, chains: seq<seq<nat>>, k: nat, ext: seq<nat>, data: seq<u8>,
                      m: nat, T: nat, pos: nat)
    requires Extended(v0, v, g, chains, k, ext) && Clusters(g, chains[k] + ext) && m < |chains[k] + ext|
    requires T == m * g.spc
    requires Holds(v, g, chains[k] + ext, data, T + g.spc) && pos == Min(|data|, (T + g.spc) * SECTOR)
    requires ext != [] ==> Capacity(g, |chains[k] + ext| - 1) < |data|
    ensures Writing(v0, v, g, chains, k, ext, data, m + 1, T + g.spc, pos)
    ensures var s, c := chains[k] + ext, (chains[k] + ext)[m];
      2 <= c < g.total + 2 && AtCluster(s, m + 1, Values(v, g)[c], c)
  {
    hide Holds;
    ExtendedChain(v0, v, g, chains, k, ext);
    ChainNext(Values(v, g), chains[k] + ext, m);
  }

  lemma WriteDone(v0: Volume, v: Volume, g: Geometry, chains: seq<seq<nat>>, k: nat, ext: seq<nat>, data: seq<u8>,
                  m: nat, T: nat, pos: nat)
    requires Writing(v0, v, g, chains, k, ext, data, m, T, pos) && pos >= |data|
    ensures Holds(v, g, chains[k] + ext, data, |data|)
    ensures |data| <= Capacity(g, |chains[k]| + FreeCount(Values(v0, g), 2))
  {
    hide Holds;
    HoldsToEnd(v, g, chains[k] + ext, data, T, |data|);
    var most := |chains[k]| + FreeCount(Values(v0, g), 2);
    if m < most { CapacityGrows(g, m, most); }
  }

  lemma ExtendedStart(v: Volume, g: Geometry, chains: seq<seq<nat>>, k: nat)
    requires Sized(v, g) && WellFormed(Values(v, g), chains) && k < |chains|
    ensures Extended(v, v, g, chains, k, []) && |chains[k]| > 0
  {
    assert chains[k] + [] == chains[k] && chains[k := chains[k]] == chains;
    assert IsChain(Values(v, g), chains[k]);
  }

  /** The bytes a chain of n clusters can hold. */
  function Capacity(g: Geometry, n: nat): (bytes: nat) { n * g.spc * SECTOR }

  lemma CapacityGrows(g: Geometry, a: nat, b: nat)
    requires a < b && g.spc >= 1
    ensures Capacity(g, a) < Capacity(g, b)
  {
    MulLess(a, b, g.spc);
  }

  lemma FileSectorIs(v: Volume, g: Geometry, s: seq<nat>, m: nat, T: nat, j: nat)
    requires Sized(v, g) && Clusters(g, s) && m < |s| && T == m * g.spc && j < g.spc
    ensures (T + j) / g.spc < |s| && FileSector(v, g, s, T + j) == v.data[s[m]][j]
  {
    DivModUnique(T + j, g.spc, m, j);
  }
}
