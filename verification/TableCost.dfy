/**
  How many pages mapping a list of virtual pages takes for tables, exactly.
 */
module TableCost {
  import opened Machine
  import opened Pages
  import opened PageTable

  predicate Private(vpn: nat) { Index1(vpn) >= FIRST_PRIVATE }

  /** Tables v still lacks once vpn is mapped, if it lacked m before. */
  function StillMissing(vpn: nat, v: nat, m: nat): (n: nat)
  {
    if Index1(v) != Index1(vpn) then m
    else if Index2(v) != Index2(vpn) then Min(1, m)
    else 0
  }

  // ------------------------------------------------------------ what one mapping leaves missing

  /** A level 2 table hung below the root is one table less for everything in its gigabyte. */
  lemma RootGraftMissing(s: State, u: nat, vpn: nat, q: nat, v: nat)
    requires Inv(s) && IsUser(s, u) && Private(vpn) && Private(v) && OnPath(s, u, vpn, NoTable) && q < |s.mem|
    requires !s.used[q]
    ensures var i1 := Index1(vpn);
      var r := Grafted(s, u, i1, Level2(u, i1), q);
      Inv(r) && IsUser(r, u) && Missing(r, u, v) == if Index1(v) == i1 then 1 else Missing(s, u, v)
  {
    hide Missing, UserRootOk, Level2Ok, KernelOk;
    var i1 := Index1(vpn);
    var path := FindPath(s, u, v);
    GraftExtendsPath(s, u, i1, Level2(u, i1), q, u, v, path);
    MissingOnPath(s, u, v, path);
    MissingOnPath(Grafted(s, u, i1, Level2(u, i1), q), u, v, GraftedPath(u, i1, q, u, v, path));
  }

  /** A level 3 table hung below level 2 is one table less for everything in its two megabytes. */
  lemma LeafGraftMissing(s: State, u: nat, vpn: nat, t2: nat, q: nat, v: nat)
    requires Inv(s) && IsUser(s, u) && Private(vpn) && Private(v) && OnPath(s, u, vpn, NoLeafTable(t2))
    requires q < |s.mem| && !s.used[q]
    ensures var i1, i2 := Index1(vpn), Index2(vpn);
      var r := Grafted(s, t2, i2, Level3(u, i1, i2), q);
      Inv(r) && IsUser(r, u) && Missing(r, u, v) == if Index1(v) == i1 && Index2(v) == i2 then 0 else Missing(s, u, v)
  {
    hide Missing, UserRootOk, Level2Ok, KernelOk;
    var i1, i2 := Index1(vpn), Index2(vpn);
    var path := FindPath(s, u, v);
    GraftExtendsPath(s, t2, i2, Level3(u, i1, i2), q, u, v, path);
    MissingOnPath(s, u, v, path);
    MissingOnPath(Grafted(s, t2, i2, Level3(u, i1, i2), q), u, v, GraftedPath(t2, i2, q, u, v, path));
  }

  lemma StoreMissing(s: State, u: nat, t3: nat, index: nat, d: nat, v: nat)
    requires Inv(s) && IsUser(s, u) && Private(v) && t3 in s.place && s.place[t3].Level3? && index < ENTRIES
    ensures Missing(LeafStored(s, t3, index, d), u, v) == Missing(s, u, v)
  {
    hide Missing, UserRootOk, Level2Ok, KernelOk;
    var path := FindPath(s, u, v);
    StoreKeepsPath(s, t3, index, d, u, v, path);
    MissingOnPath(s, u, v, path);
    MissingOnPath(LeafStored(s, t3, index, d), u, v, path);
  }

  /** Work on other pages changes nothing about the tables a mapping lacks. */
  lemma DataMissing(s: State, r: State, u: nat, v: nat)
    requires Inv(s) && Inv(r) && OnlyData(s, r) && IsUser(s, u) && Private(v)
    ensures IsUser(r, u) && u < |s.mem| && Missing(r, u, v) == Missing(s, u, v)
  {
    hide Missing, UserRootOk, Level2Ok, KernelOk;
    var path := FindPath(s, u, v);
    assert OnPath(r, u, v, path);
    MissingOnPath(s, u, v, path);
    MissingOnPath(r, u, v, path);
  }

  /** With its level 2 table there, a mapping takes a level 3 table if there is none and a page is free. */
  lemma Level2Missing(s: State, u: nat, vpn: nat, d: nat, t2: nat, v: nat)
    requires Inv(s) && IsUser(s, u) && Private(vpn) && Private(v) && OnPath(s, u, vpn, NoLeafTable(t2))
    requires CountFree(s.used) >= 1
    ensures var r := MapPage(s, u, vpn, d);
      Missing(r, u, v) == if Index1(v) == Index1(vpn) && Index2(v) == Index2(vpn) then 0 else Missing(s, u, v)
  {
    hide Missing, UserRootOk, Level2Ok, KernelOk, MapPage, Grafted, LeafStored;
    var i1, i2 := Index1(vpn), Index2(vpn);
    var t3 := Level2Map(s, u, vpn, d, t2);
    LeafGraftMissing(s, u, vpn, t2, t3, v);
    StoreMissing(Grafted(s, t2, i2, Level3(u, i1, i2), t3), u, t3, Index3(vpn), d, v);
  }

  lemma Level2Map(s: State, u: nat, vpn: nat, d: nat, t2: nat) returns (t3: nat)
    requires Inv(s) && IsUser(s, u) && Private(vpn) && OnPath(s, u, vpn, NoLeafTable(t2)) && CountFree(s.used) >= 1
    ensures t3 < |s.mem| && !s.used[t3]
    ensures var r := Grafted(s, t2, Index2(vpn), Level3(u, Index1(vpn), Index2(vpn)), t3);
      t3 in r.place && r.place[t3].Level3? && MapPage(s, u, vpn, d) == LeafStored(r, t3, Index3(vpn), d)
  {
    hide UserRootOk, Level2Ok, KernelOk;
    LinkPresent(s, u, Index1(vpn), Level2(u, Index1(vpn)), t2);
    var place := Level3(u, Index1(vpn), Index2(vpn));
    LinkFresh(s, t2, Index2(vpn), place);
    t3 := Link(s, t2, Index2(vpn), place).1.value;
  }

  /** What a mapping that took effect leaves missing for any other page of the same table. */
  lemma MapMissing(s: State, u: nat, vpn: nat, d: nat, v: nat)
    requires Inv(s) && IsUser(s, u) && Private(vpn) && Private(v) && u < |s.mem| && CanMap(s, u, vpn)
    ensures Missing(MapPage(s, u, vpn, d), u, v) == StillMissing(vpn, v, Missing(s, u, v))
  {
    hide Missing, UserRootOk, Level2Ok, KernelOk, MapPage, Grafted, LeafStored;
    var i1 := Index1(vpn);
    var path := FindPath(s, u, vpn);
    MissingOnPath(s, u, vpn, path);
    if Index1(v) == i1 { SamePath(s, u, vpn, v); }
    match path
    case Tables(t2, t3) =>
      MapFromReady(s, u, vpn, d, t2, t3);
      StoreMissing(s, u, t3, Index3(vpn), d, v);
    case NoLeafTable(t2) =>
      Level2Missing(s, u, vpn, d, t2, v);
    case NoTable =>
      var s1, t := LinkLevel2(s, u, vpn);
      LinkFresh(s, u, i1, Level2(u, i1));
      RootGraftMissing(s, u, vpn, t.value, v);
      MapAfterLink(s, u, vpn, d, s1, t.value);
      Level2Missing(s1, u, vpn, d, t.value, v);
    case _ =>
  }

  /** Pages of one gigabyte share the first table, pages of two megabytes both. */
  lemma SamePath(s: State, u: nat, vpn: nat, v: nat)
    requires Inv(s) && IsUser(s, u) && Private(vpn) && Private(v) && u < |s.mem| && Index1(v) == Index1(vpn)
    ensures Missing(s, u, v) <= 2 && (Missing(s, u, v) == 2 <==> Missing(s, u, vpn) == 2)
    ensures Index2(v) == Index2(vpn) ==> Missing(s, u, v) == Missing(s, u, vpn)
  {
  }

  // ------------------------------------------------------------ what a list of mappings costs

  /** Tables v lacks once the pages vs are mapped. */
  function MissingGiven(s: State, u: nat, vs: seq<nat>, v: nat): (n: nat)
    requires Sized(s) && u < |s.mem|
  {
    if vs == [] then Missing(s, u, v)
    else StillMissing(vs[|vs| - 1], v, MissingGiven(s, u, vs[..|vs| - 1], v))
  }

  /** Tables it takes to map the pages vs, one after the other. */
  function TablesFor(s: State, u: nat, vs: seq<nat>): (n: nat)
    requires Sized(s) && u < |s.mem|
  {
    if vs == [] then 0
    else
      var rest := vs[..|vs| - 1];
      TablesFor(s, u, rest) + MissingGiven(s, u, rest, vs[|vs| - 1])
  }

  lemma TablesForNext(s: State, u: nat, vs: seq<nat>, v: nat)
    requires Sized(s) && u < |s.mem|
    ensures TablesFor(s, u, vs + [v]) == TablesFor(s, u, vs) + MissingGiven(s, u, vs, v)
    ensures forall w :: MissingGiven(s, u, vs + [v], w) == StillMissing(v, w, MissingGiven(s, u, vs, w))
  {
    assert (vs + [v])[..|vs|] == vs;
  }

  lemma {:induction false} TablesForPrefix(s: State, u: nat, vs: seq<nat>, n: nat)
    requires Sized(s) && u < |s.mem| && n <= |vs|
    ensures TablesFor(s, u, vs[..n]) <= TablesFor(s, u, vs)
    decreases |vs|
  {
    if n < |vs| {
      TablesForPrefix(s, u, vs[..|vs| - 1], n);
      assert vs[..|vs| - 1][..n] == vs[..n];
    } else {
      assert vs[..n] == vs;
    }
  }

  /** A table without mappings of its own, as create_user_page_table returns it. */
  predicate NoTables(s: State, u: nat)
    requires Sized(s) && u < |s.mem|
  {
    forall i :: FIRST_PRIVATE <= i < ENTRIES ==> s.mem[u][i] == 0
  }

  /** The gigabytes and the two-megabyte stretches the pages lie in. */
  function Gigabytes(vs: seq<nat>): (g: set<nat>) { set v | v in vs :: Index1(v) }
  function Stretches(vs: seq<nat>): (g: set<(nat, nat)>) { set v | v in vs :: (Index1(v), Index2(v)) }

  lemma AddedSize<T>(s: set<T>, x: T)
    ensures |s + {x}| == |s| + if x in s then 0 else 1
  {
    if x in s { assert s + {x} == s; }
  }

  lemma SetsNext(vs: seq<nat>, v: nat)
    ensures Gigabytes(vs + [v]) == Gigabytes(vs) + {Index1(v)}
    ensures Stretches(vs + [v]) == Stretches(vs) + {(Index1(v), Index2(v))}
    ensures |Gigabytes(vs + [v])| == |Gigabytes(vs)| + if Index1(v) in Gigabytes(vs) then 0 else 1
    ensures |Stretches(vs + [v])| == |Stretches(vs)| + if (Index1(v), Index2(v)) in Stretches(vs) then 0 else 1
  {
    hide Index1, Index2;
    var ws := vs + [v];
    assert forall x :: x in ws <==> x in vs || x == v;
    AddedSize(Gigabytes(vs), Index1(v));
    AddedSize(Stretches(vs), (Index1(v), Index2(v)));
  }

  lemma {:induction false} MissingFresh(s: State, u: nat, vs: seq<nat>, v: nat)
    requires Sized(s) && u < |s.mem| && NoTables(s, u) && Private(v)
    ensures MissingGiven(s, u, vs, v) ==
      (if Index1(v) in Gigabytes(vs) then 0 else 1) + (if (Index1(v), Index2(v)) in Stretches(vs) then 0 else 1)
  {
    if vs == [] {
    } else {
      var rest, w := vs[..|vs| - 1], vs[|vs| - 1];
      MissingFresh(s, u, rest, v);
      assert vs == rest + [w];
      SetsNext(rest, w);
      StretchInGigabyte(rest, v);
    }
  }

  lemma StretchInGigabyte(vs: seq<nat>, v: nat)
    ensures (Index1(v), Index2(v)) in Stretches(vs) ==> Index1(v) in Gigabytes(vs)
  {
  }

  lemma NoSets()
    ensures Gigabytes([]) == {} && Stretches([]) == {}
  {
  }

  /** For a fresh table the cost is one table per gigabyte and one per two megabytes touched. */
  lemma {:induction false} FreshTables(s: State, u: nat, vs: seq<nat>)
    requires Sized(s) && u < |s.mem| && NoTables(s, u) && forall i :: 0 <= i < |vs| ==> Private(vs[i])
    ensures TablesFor(s, u, vs) == |Gigabytes(vs)| + |Stretches(vs)|
  {
    hide Gigabytes, Stretches, Index1, Index2, MissingGiven, NoTables;
    if vs == [] {
      NoSets();
    } else {
      var rest, w := vs[..|vs| - 1], vs[|vs| - 1];
      FreshTables(s, u, rest);
      MissingFresh(s, u, rest, w);
      assert vs == rest + [w];
      SetsNext(rest, w);
    }
  }

  lemma FreshFaults(s: State, u: nat, v: nat)
    requires Inv(s) && IsUser(s, u) && u < |s.mem| && NoTables(s, u) && Private(v)
    ensures Walk(s.mem, u, v) == Fault
  {
    WalkAlong(s, u, v, NoTable);
  }

  lemma CreatedHasNoTables(s: State)
    requires Inv(s) && CountFree(s.used) > 0
    ensures var (r, u) := CreateTable(s); u.Some? && NoTables(r, u.value)
  {
    CreateTableRefines(s);
  }

  // ------------------------------------------------------------ the outcome of one mapping

  /** A mapping shows exactly if the tables it lacks can be had. */
  lemma MapShowsIff(s: State, u: nat, vpn: nat, d: nat)
    requires Inv(s) && IsUser(s, u) && vpn < VPN_LIMIT && Private(vpn) && u < |s.mem|
    requires LeafOf(d) != Walk(s.mem, u, vpn)
    ensures Walk(MapPage(s, u, vpn, d).mem, u, vpn) == LeafOf(d) <==> Missing(s, u, vpn) <= CountFree(s.used)
  {
    MapPageRefines(s, u, vpn, d);
  }

  /** A mapping that lacked pages for its tables took what there was, and still lacks a table. */
  lemma FailedMissing(s: State, u: nat, vpn: nat, d: nat)
    requires Inv(s) && IsUser(s, u) && vpn < VPN_LIMIT && Private(vpn) && u < |s.mem| && !CanMap(s, u, vpn)
    ensures var r := MapPage(s, u, vpn, d); CountFree(r.used) == 0 && Missing(r, u, vpn) > 0
  {
    hide Missing, UserRootOk, Level2Ok, KernelOk, MapPage, Grafted, LeafStored;
    var i1 := Index1(vpn);
    MapPageRefines(s, u, vpn, d);
    var path := FindPath(s, u, vpn);
    MissingOnPath(s, u, vpn, path);
    match path
    case NoLeafTable(t2) =>
      StuckAtLevel2(s, u, vpn, d, t2);
    case NoTable =>
      var s1, t := LinkLevel2(s, u, vpn);
      LinkFresh(s, u, i1, Level2(u, i1));
      if t.Some? {
        RootGraftMissing(s, u, vpn, t.value, vpn);
        MapAfterLink(s, u, vpn, d, s1, t.value);
        StuckAtLevel2(s1, u, vpn, d, t.value);
      } else {
        StuckAtRoot(s, u, vpn, d);
      }
    case _ =>
  }

  lemma StuckAtLevel2(s: State, u: nat, vpn: nat, d: nat, t2: nat)
    requires Inv(s) && IsUser(s, u) && Private(vpn) && OnPath(s, u, vpn, NoLeafTable(t2)) && CountFree(s.used) == 0
    ensures MapPage(s, u, vpn, d) == s
  {
    LinkPresent(s, u, Index1(vpn), Level2(u, Index1(vpn)), t2);
    CountFreeZero(s.used);
  }

  lemma StuckAtRoot(s: State, u: nat, vpn: nat, d: nat)
    requires Inv(s) && IsUser(s, u) && Private(vpn) && OnPath(s, u, vpn, NoTable) && CountFree(s.used) == 0
    ensures MapPage(s, u, vpn, d) == s
  {
    CountFreeZero(s.used);
  }
}
