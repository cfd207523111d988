/** Map areas and address spaces (os7-ref/src/mm/memory_set.rs). */
module MemorySets {
  import opened Words
  import opened Sv39
  import opened FrameAllocators
  import opened PageTables

  /** A framed area: the pages from `start` to `end`, and the frame of each page. */
  datatype MapArea = MapArea(start: nat, end: nat, perm: Flags, frames: map<nat, Ppn>)

  ghost predicate InRange(area: MapArea, vpn: nat) {
    area.start <= vpn < area.end
  }

  /** Every page of the area, and no other, has its own frame, mapped with the
      permissions of the area. */
  ghost predicate AreaOk(mem: Memory, root: nat, area: MapArea) {
    && area.start <= area.end
    && (forall vpn :: vpn in area.frames <==> InRange(area, vpn))
    && (forall vpn :: vpn in area.frames ==> Lookup(mem, root, vpn) == Some((area.frames[vpn], WithV(area.perm))))
    && (forall x, y :: x in area.frames && y in area.frames && x != y ==> area.frames[x] != area.frames[y])
  }

  /** The frames of an area are newly live since `live`, and are no tables. */
  ghost predicate AreaFresh(area: MapArea, up: map<nat, Link>, live: set<nat>, live': set<nat>) {
    forall f :: f in area.frames.Values ==> f !in live && f !in up && f in live'
  }

  /** Since `mem`, mappings have only been added, and only for pages of the area. */
  ghost predicate OnlyMaps(mem: Memory, mem': Memory, root: nat, area: MapArea) {
    forall v :: Lookup(mem', root, v) == Lookup(mem, root, v)
      || (Lookup(mem, root, v).None? && exists vpn :: InRange(area, vpn) && Key(vpn) == Key(v))
  }

  /** Outside the tables and the frames of the area, memory is as before. */
  ghost predicate OnlyFrames(mem: Memory, mem': Memory, up: map<nat, Link>, area: MapArea) {
    |mem'| == |mem| && forall f {:trigger mem'[f]} ::
      0 <= f < |mem| && f !in up && f !in area.frames.Values ==> mem'[f] == mem[f]
  }

  /** One more page: the invariant of the mapping loop. */
  lemma PageMapped(mem0: Memory, mem: Memory, mem': Memory, root: nat, area: MapArea, f: Ppn)
    requires AreaOk(mem, root, area) && area.end - area.start < 134217728 && f !in area.frames.Values
    requires OnlyMaps(mem0, mem, root, area)
    requires forall v :: Lookup(mem', root, v) ==
                         if Key(v) == Key(area.end) then Some((f, WithV(area.perm))) else Lookup(mem, root, v)
    requires Lookup(mem0, root, area.end) == None
    ensures var area' := area.(end := area.end + 1, frames := area.frames[area.end := f]);
      && AreaOk(mem', root, area') && OnlyMaps(mem0, mem', root, area')
      && area'.frames.Values == area.frames.Values + {f}
  {
    hide Lookup;
    var area' := area.(end := area.end + 1, frames := area.frames[area.end := f]);
    forall vpn | vpn in area.frames ensures Key(vpn) != Key(area.end) {
      KeyApart(vpn, area.end);
    }
    forall v ensures Lookup(mem', root, v) == Lookup(mem0, root, v)
      || (Lookup(mem0, root, v).None? && exists vpn :: InRange(area', vpn) && Key(vpn) == Key(v))
    {
      if Key(v) == Key(area.end) {
        assert InRange(area', area.end);
        LookupKey(mem0, root, v, area.end);
      } else if Lookup(mem, root, v) != Lookup(mem0, root, v) {
        var vpn :| InRange(area, vpn) && Key(vpn) == Key(v);
        assert InRange(area', vpn);
      }
    }
    assert area.end !in area.frames;
    assert area'.frames.Values == area.frames.Values + {f} by {
      forall x | x in area.frames ensures area.frames[x] in area'.frames.Values {
        assert area'.frames[x] == area.frames[x];
      }
      assert area'.frames[area.end] == f;
    }
  }

  /** Before its end, a page to be mapped is still unmapped. */
  lemma StillUnmapped(mem0: Memory, mem: Memory, root: nat, area: MapArea, vpn: nat)
    requires OnlyMaps(mem0, mem, root, area) && Lookup(mem0, root, vpn) == None
    requires area.start <= area.end <= vpn < area.start + 134217728
    ensures Lookup(mem, root, vpn) == None
  {
    hide Lookup;
    if Lookup(mem, root, vpn) != Lookup(mem0, root, vpn) {
      var v :| InRange(area, v) && Key(v) == Key(vpn);
      KeyApart(v, vpn);
      assert false;
    }
  }

  lemma KeyApart(v: nat, vpn: nat)
    requires v < vpn < v + 134217728
    ensures Key(v) != Key(vpn)
  {
  }

  /** Clearing a frame that is no table changes no mapping. */
  lemma FrameCleared(mem: Memory, root: nat, up: map<nat, Link>, f: nat)
    requires TableTree(mem, root, up) && f !in up && f < |mem|
    ensures TableTree(mem[f := ZERO_PAGE], root, up)
    ensures forall v :: Lookup(mem[f := ZERO_PAGE], root, v) == Lookup(mem, root, v)
  {
    hide Lookup, TableTree;
    TreeFrame(mem, mem[f := ZERO_PAGE], root, up);
    forall v ensures Lookup(mem[f := ZERO_PAGE], root, v) == Lookup(mem, root, v) {
      LookupFrame(mem, mem[f := ZERO_PAGE], root, up, v);
    }
  }

  /** What mapping an area has done so far: tables and frames newly live, the frames
      zeroed and mapped, nothing else touched. */
  ghost predicate Progress(mem0: Memory, mem: Memory, live0: set<nat>, live: set<nat>, root: nat,
                           up0: map<nat, Link>, up: map<nat, Link>, area: MapArea) {
    && AreaOk(mem, root, area) && OnlyMaps(mem0, mem, root, area) && OnlyFrames(mem0, mem, up, area)
    && AreaFresh(area, up, live0, live)
    && (forall t :: t in up0 ==> t in up)
    && (forall t :: t in up && t !in up0 ==> t !in live0)
    && live == live0 + up.Keys + area.frames.Values
    && (forall f :: f in area.frames.Values ==> PageOf(mem, f) == ZERO_PAGE)
  }

  lemma NoProgress(mem: Memory, live: set<nat>, root: nat, up: map<nat, Link>, start: nat, perm: Flags)
    requires up.Keys <= live
    ensures Progress(mem, mem, live, live, root, up, up, MapArea(start, start, perm, map[]))
  {
  }

  /** One turn of the mapping loop: a frame `f` is taken and cleared, giving `mem1`,
      and page `area.end` is mapped to it, giving `mem2`. */
  lemma Progressed(mem0: Memory, mem: Memory, mem2: Memory, live0: set<nat>, live: set<nat>, live2: set<nat>, root: nat,
                   up0: map<nat, Link>, up: map<nat, Link>, up2: map<nat, Link>, area: MapArea, f: Ppn)
    requires Progress(mem0, mem, live0, live, root, up0, up, area) && area.end - area.start < 134217728
    requires f !in live && f < |mem| && Gained(up, up2, live + {f}, live2)
    requires OnlyTables(mem[f := ZERO_PAGE], mem2, up2) && Lookup(mem0, root, area.end) == None
    requires forall v :: Lookup(mem2, root, v) ==
                         if Key(v) == Key(area.end) then Some((f, WithV(area.perm))) else Lookup(mem, root, v)
    ensures Progress(mem0, mem2, live0, live2, root, up0, up2,
                     area.(end := area.end + 1, frames := area.frames[area.end := f]))
  {
    hide Lookup;
    assert f !in area.frames.Values;
    PageMapped(mem0, mem, mem2, root, area, f);
    hide AreaOk, OnlyMaps;
  }

  /** Map every page of an area to a new zeroed frame.  False stands for the panic
      when memory is exhausted. */
  method MapPages(start: nat, end: nat, perm: Flags, pt: PageTable, a: StackFrameAllocator)
    returns (ok: bool, area: MapArea)
    requires pt.Valid(a) && start <= end <= start + 134217728
    requires forall vpn :: start <= vpn < end ==> Lookup(a.mem, pt.root, vpn) == None
    modifies pt`frames, pt`up, a
    ensures pt.Valid(a) && (!ok ==> a.Exhausted())
    ensures a.Free() >= old(a.Free()) - 3 * (end - start) && (!ok ==> old(a.Free()) < 3 * (end - start))
    ensures ok ==> area.start == start && area.end == end && area.perm == perm
    ensures ok ==> Progress(old(a.mem), a.mem, old(a.live), a.live, pt.root, old(pt.up), pt.up, area)
  {
    hide Lookup, TableTree, ListsTables, Partition, Progress, Gained, OnlyTables;
    area := MapArea(start, start, perm, map[]);
    NoProgress(a.mem, a.live, pt.root, pt.up, start, perm);
    while area.end < end
      invariant area.start == start && area.perm == perm && start <= area.end <= end
      invariant pt.Valid(a) && a.Free() >= old(a.Free()) - 3 * (area.end - start)
      invariant Progress(old(a.mem), a.mem, old(a.live), a.live, pt.root, old(pt.up), pt.up, area)
    {
      ghost var mem, live, up := a.mem, a.live, pt.up;
      var r := a.Alloc();
      if r.None? {
        return false, area;
      }
      FrameCleared(mem, pt.root, up, r.value);
      assert Lookup(mem, pt.root, area.end) == None by {
        StillNone(old(a.mem), mem, old(a.live), live, pt.root, old(pt.up), up, area);
      }
      ok := pt.Map(area.end, r.value, perm, a);
      if !ok {
        return false, area;
      }
      Progressed(old(a.mem), mem, a.mem, old(a.live), live, a.live, pt.root, old(pt.up), up, pt.up, area, r.value);
      area := area.(end := area.end + 1, frames := area.frames[area.end := r.value]);
    }
    ok := true;
  }

  lemma StillNone(mem0: Memory, mem: Memory, live0: set<nat>, live: set<nat>, root: nat,
                  up0: map<nat, Link>, up: map<nat, Link>, area: MapArea)
    requires Progress(mem0, mem, live0, live, root, up0, up, area) && Lookup(mem0, root, area.end) == None
    requires area.end < area.start + 134217728
    ensures Lookup(mem, root, area.end) == None
  {
    hide Lookup;
    StillUnmapped(mem0, mem, root, area, area.end);
  }

  /** The page of the trampoline, which no area collects: the highest one. */
  const TRAMPOLINE_VPN := 0xF_FFFF_FFFF_FFFF

  ghost predicate InSome(areas: seq<MapArea>, v: nat) {
    exists k, vpn :: 0 <= k < |areas| && InRange(areas[k], vpn) && Key(vpn) == Key(v)
  }

  /** The data frames of all areas. */
  ghost function DataFrames(areas: seq<MapArea>): set<nat> {
    set k, vpn | 0 <= k < |areas| && vpn in areas[k].frames :: areas[k].frames[vpn]
  }

  /** All areas are mapped, on frames that no two of them share; nothing else is
      mapped but the trampoline. */
  ghost predicate SpaceOk(mem: Memory, live: set<nat>, root: nat, up: map<nat, Link>, areas: seq<MapArea>) {
    && (forall k :: 0 <= k < |areas| ==> AreaOk(mem, root, areas[k]))
    && (forall i, j :: 0 <= i < j < |areas| ==> areas[i].frames.Values !! areas[j].frames.Values)
    && DataFrames(areas) !! up.Keys && DataFrames(areas) <= live
    && (forall v :: Lookup(mem, root, v).Some? ==> Key(v) == Key(TRAMPOLINE_VPN) || InSome(areas, v))
  }

  lemma DataFramesSnoc(areas: seq<MapArea>, area: MapArea)
    ensures DataFrames(areas + [area]) == DataFrames(areas) + area.frames.Values
  {
    var all := areas + [area];
    forall f | f in DataFrames(areas) ensures f in DataFrames(all) {
      var k, vpn :| 0 <= k < |areas| && vpn in areas[k].frames && areas[k].frames[vpn] == f;
      assert all[k].frames[vpn] == f;
    }
    forall f | f in area.frames.Values ensures f in DataFrames(all) {
      var vpn :| vpn in area.frames && area.frames[vpn] == f;
      assert all[|areas|].frames[vpn] == f;
    }
    forall f | f in DataFrames(all) ensures f in DataFrames(areas) + area.frames.Values {
      var k, vpn :| 0 <= k < |all| && vpn in all[k].frames && all[k].frames[vpn] == f;
      if k < |areas| {
        assert areas[k].frames[vpn] == f;
      }
    }
  }

  /** A step on one address space: it may write to its own frames only, its new
      frames were not live, and the frames it lost are no longer live. */
  ghost predicate OwnStep(mem: Memory, mem': Memory, live: set<nat>, live': set<nat>, own: set<nat>, own': set<nat>) {
    && |mem'| == |mem|
    && (forall f {:trigger mem'[f]} :: 0 <= f < |mem| && f !in own && f !in own' ==> mem'[f] == mem[f])
    && (own' - own) !! live
    && live' == live - own + own'
  }

  /** An area stays mapped while mappings are only added. */
  lemma AreaKept(mem: Memory, mem': Memory, root: nat, area: MapArea)
    requires AreaOk(mem, root, area)
    requires forall v :: Lookup(mem, root, v).Some? ==> Lookup(mem', root, v) == Lookup(mem, root, v)
    ensures AreaOk(mem', root, area)
  {
    hide Lookup;
  }

  /** Pushing a mapped area extends the space. */
  lemma Pushed(mem: Memory, mem': Memory, live: set<nat>, live': set<nat>, root: nat,
               up: map<nat, Link>, up': map<nat, Link>, areas: seq<MapArea>, area: MapArea)
    requires SpaceOk(mem, live, root, up, areas) && up.Keys <= live
    requires Progress(mem, mem', live, live', root, up, up', area)
    ensures SpaceOk(mem', live', root, up', areas + [area])
    ensures OwnStep(mem, mem', live, live', up.Keys + DataFrames(areas), up'.Keys + DataFrames(areas + [area]))
  {
    hide Lookup, AreaOk;
    var all := areas + [area];
    DataFramesSnoc(areas, area);
    forall k | 0 <= k < |all| ensures AreaOk(mem', root, all[k]) {
      if k < |areas| {
        AreaKept(mem, mem', root, areas[k]);
      }
    }
    forall i, j | 0 <= i < j < |all| ensures all[i].frames.Values !! all[j].frames.Values {
      if j == |areas| {
        ValuesInData(areas, i);
      }
    }
    forall v | Lookup(mem', root, v).Some? ensures Key(v) == Key(TRAMPOLINE_VPN) || InSome(all, v) {
      if Lookup(mem', root, v) == Lookup(mem, root, v) {
        if InSome(areas, v) {
          var k, vpn :| 0 <= k < |areas| && InRange(areas[k], vpn) && Key(vpn) == Key(v);
          assert InRange(all[k], vpn);
        }
      } else {
        var vpn :| InRange(area, vpn) && Key(vpn) == Key(v);
        assert InRange(all[|areas|], vpn);
      }
    }
  }

  lemma ValuesInData(areas: seq<MapArea>, k: nat)
    requires k < |areas|
    ensures areas[k].frames.Values <= DataFrames(areas)
  {
    forall f | f in areas[k].frames.Values ensures f in DataFrames(areas) {
      var vpn :| vpn in areas[k].frames && areas[k].frames[vpn] == f;
    }
  }

  /** Some page from `start` up to `i` has the key of `v`. */
  ghost predicate KeyIn(start: nat, i: nat, v: nat) {
    exists vpn :: start <= vpn < i && Key(vpn) == Key(v)
  }

  lemma KeyInNext(start: nat, i: nat, v: nat)
    requires start <= i
    ensures KeyIn(start, i + 1, v) <==> KeyIn(start, i, v) || Key(v) == Key(i)
  {
    hide Key;
    if KeyIn(start, i, v) {
      var vpn :| start <= vpn < i && Key(vpn) == Key(v);
      assert start <= vpn < i + 1;
    }
  }

  /** The pages from `start` up to `i` are unmapped, and no others, since `mem0`. */
  ghost predicate UnmappedTo(mem0: Memory, mem: Memory, root: nat, start: nat, i: nat) {
    forall v :: Lookup(mem, root, v) == if KeyIn(start, i, v) then None else Lookup(mem0, root, v)
  }

  /** Area `k` is gone, and exactly its pages are unmapped. */
  ghost predicate RemovedAt(mem: Memory, mem': Memory, root: nat, was: seq<MapArea>, now: seq<MapArea>, k: nat) {
    k < |was| && now == Without(was, k) && UnmappedTo(mem, mem', root, was[k].start, was[k].end)
  }

  lemma UnmappedOne(mem0: Memory, mem: Memory, mem': Memory, root: nat, start: nat, i: nat)
    requires UnmappedTo(mem0, mem, root, start, i) && start <= i
    requires forall v :: Lookup(mem', root, v) == if Key(v) == Key(i) then None else Lookup(mem, root, v)
    ensures UnmappedTo(mem0, mem', root, start, i + 1)
  {
    hide Lookup, Key, KeyIn;
    forall v ensures Lookup(mem', root, v) == if KeyIn(start, i + 1, v) then None else Lookup(mem0, root, v) {
      KeyInNext(start, i, v);
    }
  }

  /** Two pages of well-mapped areas with the same key are the same page. */
  lemma KeysApart(mem: Memory, root: nat, area: MapArea, x: nat, y: nat)
    requires AreaOk(mem, root, area) && x in area.frames && y in area.frames && Key(x) == Key(y)
    ensures x == y
  {
    hide Lookup;
    LookupKey(mem, root, x, y);
  }

  /** The page at `i` of a partly unmapped area is still mapped. */
  lemma StillMapped(mem0: Memory, mem: Memory, root: nat, area: MapArea, i: nat)
    requires AreaOk(mem0, root, area) && UnmappedTo(mem0, mem, root, area.start, i) && InRange(area, i)
    ensures Lookup(mem, root, i).Some?
  {
    hide Lookup, Key;
    if KeyIn(area.start, i, i) {
      var vpn :| area.start <= vpn < i && Key(vpn) == Key(i);
      KeysApart(mem0, root, area, vpn, i);
      assert false;
    }
  }

  ghost predicate FirstWithStart(areas: seq<MapArea>, start: nat, k: nat) {
    k < |areas| && areas[k].start == start && forall j :: 0 <= j < k ==> areas[j].start != start
  }

  /** The areas without the one at `idx`. */
  function Without(areas: seq<MapArea>, idx: nat): (r: seq<MapArea>)
    requires idx < |areas|
    ensures |r| == |areas| - 1
    ensures forall k {:trigger r[k]} :: 0 <= k < |r| ==> r[k] == areas[if k < idx then k else k + 1]
  {
    areas[..idx] + areas[idx + 1..]
  }

  lemma DataFramesWithout(areas: seq<MapArea>, idx: nat)
    requires idx < |areas|
    requires forall i, j :: 0 <= i < j < |areas| ==> areas[i].frames.Values !! areas[j].frames.Values
    ensures DataFrames(Without(areas, idx)) == DataFrames(areas) - areas[idx].frames.Values
  {
    var r := Without(areas, idx);
    forall f | f in DataFrames(r) ensures f in DataFrames(areas) - areas[idx].frames.Values {
      var k, vpn :| 0 <= k < |r| && vpn in r[k].frames && r[k].frames[vpn] == f;
      var j := if k < idx then k else k + 1;
      assert areas[j].frames[vpn] == f && f in areas[j].frames.Values;
    }
    forall f | f in DataFrames(areas) && f !in areas[idx].frames.Values ensures f in DataFrames(r) {
      var k, vpn :| 0 <= k < |areas| && vpn in areas[k].frames && areas[k].frames[vpn] == f;
      assert k != idx;
      assert r[if k < idx then k else k - 1].frames[vpn] == f;
    }
  }

  /** Pages of areas on different frames have different keys. */
  lemma AreasApart(mem: Memory, root: nat, area: MapArea, other: MapArea, x: nat, y: nat)
    requires AreaOk(mem, root, area) && AreaOk(mem, root, other) && area.frames.Values !! other.frames.Values
    requires x in area.frames && y in other.frames
    ensures Key(x) != Key(y)
  {
    hide Lookup, Key;
    assert area.frames[x] in area.frames.Values && other.frames[y] in other.frames.Values;
    if Key(x) == Key(y) {
      LookupKey(mem, root, x, y);
      assert false;
    }
  }

  /** Another area stays mapped while this one is unmapped. */
  lemma OtherAreaKept(mem: Memory, mem': Memory, root: nat, area: MapArea, other: MapArea)
    requires AreaOk(mem, root, area) && AreaOk(mem, root, other)
    requires area.frames.Values !! other.frames.Values
    requires UnmappedTo(mem, mem', root, area.start, area.end)
    ensures AreaOk(mem', root, other)
  {
    hide Lookup, Key;
    forall y | y in other.frames ensures Lookup(mem', root, y) == Lookup(mem, root, y) {
      if KeyIn(area.start, area.end, y) {
        var x :| area.start <= x < area.end && Key(x) == Key(y);
        AreasApart(mem, root, area, other, x, y);
        assert false;
      }
    }
  }

  /** Removing an unmapped area shrinks the space. */
  lemma Removed(mem: Memory, mem': Memory, live: set<nat>, live': set<nat>, root: nat, up: map<nat, Link>,
                areas: seq<MapArea>, idx: nat)
    requires SpaceOk(mem, live, root, up, areas) && up.Keys <= live && idx < |areas|
    requires UnmappedTo(mem, mem', root, areas[idx].start, areas[idx].end) && OnlyTables(mem, mem', up)
    requires live' == live - areas[idx].frames.Values
    ensures SpaceOk(mem', live', root, up, Without(areas, idx))
    ensures OwnStep(mem, mem', live, live', up.Keys + DataFrames(areas), up.Keys + DataFrames(Without(areas, idx)))
  {
    hide Lookup, AreaOk, Key;
    var r, area := Without(areas, idx), areas[idx];
    DataFramesWithout(areas, idx);
    ValuesInData(areas, idx);
    forall k | 0 <= k < |r| ensures AreaOk(mem', root, r[k]) {
      OtherAreaKept(mem, mem', root, area, r[k]);
    }
    forall v | Lookup(mem', root, v).Some? ensures Key(v) == Key(TRAMPOLINE_VPN) || InSome(r, v) {
      assert Lookup(mem', root, v) == Lookup(mem, root, v);
      if InSome(areas, v) {
        var k, vpn :| 0 <= k < |areas| && InRange(areas[k], vpn) && Key(vpn) == Key(v);
        if k != idx {
          assert InRange(r[if k < idx then k else k - 1], vpn);
        }
      }
    }
  }

  /** The frames of the first pages of an area. */
  ghost function FramesTo(area: MapArea, i: nat): set<nat> {
    set vpn | vpn in area.frames && vpn < i :: area.frames[vpn]
  }

  /** Unmap every page of an area and drop its frames: no drop panics. */
  method UnmapPages(area: MapArea, pt: PageTable, a: StackFrameAllocator)
    requires pt.Valid(a) && AreaOk(a.mem, pt.root, area)
    requires forall f :: f in area.frames.Values ==> f in a.live && f !in pt.up
    modifies pt`frames, pt`up, a
    ensures pt.Valid(a) && pt.up == old(pt.up) && OnlyTables(old(a.mem), a.mem, pt.up)
    ensures UnmappedTo(old(a.mem), a.mem, pt.root, area.start, area.end)
    ensures a.live == old(a.live) - area.frames.Values
  {
    hide Lookup, TableTree, ListsTables, Partition, Key;
    var i := area.start;
    assert FramesTo(area, i) == {};
    assert UnmappedTo(a.mem, a.mem, pt.root, i, i);
    while i < area.end
      invariant area.start <= i <= area.end && pt.Valid(a) && pt.up == old(pt.up)
      invariant OnlyTables(old(a.mem), a.mem, pt.up)
      invariant UnmappedTo(old(a.mem), a.mem, pt.root, area.start, i)
      invariant a.live == old(a.live) - FramesTo(area, i)
    {
      StillMapped(old(a.mem), a.mem, pt.root, area, i);
      ghost var mem := a.mem;
      DropPage(area, i, a, old(a.live));
      pt.Unmap(i, a);
      UnmappedOne(old(a.mem), mem, a.mem, pt.root, area.start, i);
      i := i + 1;
    }
    assert FramesTo(area, i) == area.frames.Values;
  }

  /** Drop the frame of page `i`. */
  method DropPage(area: MapArea, i: nat, a: StackFrameAllocator, ghost live0: set<nat>)
    requires a.Valid() && i in area.frames && area.frames.Values <= live0
    requires forall x, y :: x in area.frames && y in area.frames && x != y ==> area.frames[x] != area.frames[y]
    requires a.live == live0 - FramesTo(area, i)
    modifies a
    ensures a.Valid() && a.mem == old(a.mem) && a.live == live0 - FramesTo(area, i + 1)
  {
    hide Lookup, TableTree, ListsTables, Key;
    var f := area.frames[i];
    assert f in area.frames.Values;
    assert f !in FramesTo(area, i) && f in a.live;
    assert FramesTo(area, i + 1) == FramesTo(area, i) + {f};
    var ok := a.Dealloc(f);
    assert ok;
  }

  /** Drop all frames of an area. */
  method DropPages(area: MapArea, a: StackFrameAllocator)
    requires a.Valid() && area.start <= area.end && area.frames.Values <= a.live
    requires forall vpn :: vpn in area.frames <==> InRange(area, vpn)
    requires forall x, y :: x in area.frames && y in area.frames && x != y ==> area.frames[x] != area.frames[y]
    modifies a
    ensures a.Valid() && a.mem == old(a.mem) && a.live == old(a.live) - area.frames.Values
  {
    hide Partition;
    var i := area.start;
    assert FramesTo(area, i) == {};
    while i < area.end
      invariant area.start <= i <= area.end && a.Valid() && a.mem == old(a.mem)
      invariant a.live == old(a.live) - FramesTo(area, i)
    {
      DropPage(area, i, a, old(a.live));
      i := i + 1;
    }
    assert FramesTo(area, i) == area.frames.Values;
  }

  /** Drop the frames of all areas: no drop panics. */
  method DropAreas(areas: seq<MapArea>, a: StackFrameAllocator, ghost mem: Memory, ghost live: set<nat>, ghost root: nat,
                   ghost up: map<nat, Link>)
    requires a.Valid() && (areas == [] || SpaceOk(mem, live, root, up, areas)) && DataFrames(areas) <= a.live
    modifies a
    ensures a.Valid() && a.mem == old(a.mem) && a.live == old(a.live) - DataFrames(areas)
  {
    hide Lookup, Partition, DataFrames, Key;
    var k := 0;
    assert DataFrames(areas[..0]) == {} by { NoData(); }
    while k < |areas|
      invariant 0 <= k <= |areas| && a.Valid() && a.mem == old(a.mem)
      invariant a.live == old(a.live) - DataFrames(areas[..k])
    {
      assert areas[..k + 1] == areas[..k] + [areas[k]];
      DataFramesSnoc(areas[..k], areas[k]);
      ValuesInData(areas, k);
      DataApart(areas, k);
      assert AreaOk(mem, root, areas[k]);
      DropPages(areas[k], a);
      k := k + 1;
    }
    assert areas[..k] == areas;
  }

  lemma NoData()
    ensures DataFrames([]) == {}
  {
  }

  /** The frames of an area are none of the areas before it. */
  lemma DataApart(areas: seq<MapArea>, k: nat)
    requires k < |areas|
    requires forall i, j :: 0 <= i < j < |areas| ==> areas[i].frames.Values !! areas[j].frames.Values
    ensures DataFrames(areas[..k]) !! areas[k].frames.Values
  {
    forall f | f in DataFrames(areas[..k]) ensures f !in areas[k].frames.Values {
      var j, vpn :| 0 <= j < k && vpn in areas[..k][j].frames && areas[..k][j].frames[vpn] == f;
      assert f in areas[j].frames.Values;
    }
  }

  /** A space only depends on the memory of its tables. */
  lemma SpaceFrame(mem: Memory, mem': Memory, live: set<nat>, live': set<nat>, root: nat, up: map<nat, Link>,
                   areas: seq<MapArea>)
    requires TableTree(mem, root, up) && SpaceOk(mem, live, root, up, areas) && |mem'| == |mem|
    requires forall t :: t in up ==> PageOf(mem', t) == PageOf(mem, t)
    requires up.Keys + DataFrames(areas) <= live'
    ensures TableTree(mem', root, up) && SpaceOk(mem', live', root, up, areas)
    ensures forall v :: Lookup(mem', root, v) == Lookup(mem, root, v)
  {
    hide Lookup, TableTree, PageOf, Key, DataFrames;
    TreeFrame(mem, mem', root, up);
    forall v ensures Lookup(mem', root, v) == Lookup(mem, root, v) {
      LookupFrame(mem, mem', root, up, v);
    }
  }

  /** The pages before `end` have the same bytes in both areas. */
  ghost predicate SamePages(mem: Memory, src: MapArea, dst: MapArea, end: nat) {
    forall vpn :: vpn in src.frames && vpn in dst.frames && vpn < end ==>
      PageOf(mem, dst.frames[vpn]) == PageOf(mem, src.frames[vpn])
  }

  /** `dst` has the pages, the permissions and the bytes of `src`. */
  ghost predicate Copied(mem: Memory, src: MapArea, dst: MapArea) {
    && dst.start == src.start && dst.end == src.end && dst.perm == src.perm
    && (forall vpn :: vpn in dst.frames <==> vpn in src.frames)
    && SamePages(mem, src, dst, src.end)
  }

  /** Copy all pages of area `src` of the table at `from` to area `dst` of the table
      `to`, both found by translation. */
  method CopyPages(src: MapArea, dst: MapArea, from: PageTable, to: PageTable, a: StackFrameAllocator)
    requires from.Valid(a) && to.Valid(a)
    requires AreaOk(a.mem, from.root, src) && AreaOk(a.mem, to.root, dst)
    requires dst.start == src.start && dst.end == src.end && dst.perm == src.perm
    requires dst.frames.Values !! src.frames.Values
    requires forall f :: f in dst.frames.Values || f in src.frames.Values ==> f < |a.mem| && f !in from.up && f !in to.up
    modifies a`mem
    ensures from.Valid(a) && to.Valid(a) && Copied(a.mem, src, dst) && |a.mem| == |old(a.mem)|
    ensures forall f {:trigger a.mem[f]} :: 0 <= f < |a.mem| && f !in dst.frames.Values ==> a.mem[f] == old(a.mem)[f]
  {
    hide Lookup, TableTree, ListsTables, Partition, Key, PageOf;
    var i := src.start;
    while i < src.end
      invariant src.start <= i <= src.end && |a.mem| == |old(a.mem)|
      invariant from.Valid(a) && to.Valid(a)
      invariant AreaOk(a.mem, from.root, src) && AreaOk(a.mem, to.root, dst)
      invariant forall f {:trigger a.mem[f]} :: 0 <= f < |a.mem| && f !in dst.frames.Values ==> a.mem[f] == old(a.mem)[f]
      invariant SamePages(a.mem, src, dst, i)
    {
      assert src.frames[i] in src.frames.Values && dst.frames[i] in dst.frames.Values;
      CopyPage(i, src, dst, from, to, a);
      i := i + 1;
    }
  }

  /** Copy one page, found by translation in both tables. */
  method CopyPage(i: nat, src: MapArea, dst: MapArea, from: PageTable, to: PageTable, a: StackFrameAllocator)
    requires from.Valid(a) && to.Valid(a)
    requires AreaOk(a.mem, from.root, src) && AreaOk(a.mem, to.root, dst) && i in src.frames && i in dst.frames
    requires dst.frames.Values !! src.frames.Values && dst.frames.Values !! from.up.Keys && dst.frames.Values !! to.up.Keys
    requires src.frames[i] < |a.mem| && dst.frames[i] < |a.mem| && SamePages(a.mem, src, dst, i)
    modifies a`mem
    ensures from.Valid(a) && to.Valid(a) && a.mem == old(a.mem)[dst.frames[i] := old(a.mem)[src.frames[i]]]
    ensures AreaOk(a.mem, from.root, src) && AreaOk(a.mem, to.root, dst) && SamePages(a.mem, src, dst, i + 1)
  {
    hide Lookup, TableTree, ListsTables, Partition, Key, PageOf, SamePages;
    var s := from.Translate(i, a);
    var d := to.Translate(i, a);
    assert PpnOf(s.value) == src.frames[i] && PpnOf(d.value) == dst.frames[i];
    assert dst.frames[i] in dst.frames.Values;
    hide AreaOk;
    ghost var mem := a.mem;
    a.mem := a.mem[PpnOf(d.value) := a.mem[PpnOf(s.value)]];
    PageCopied(mem, src, dst, i, from.root, from.up, to.root, to.up);
  }

  /** Copying one page changes no table, and adds one page to those copied. */
  lemma PageCopied(mem: Memory, src: MapArea, dst: MapArea, i: nat,
                   root: nat, up: map<nat, Link>, root': nat, up': map<nat, Link>)
    requires AreaOk(mem, root, src) && AreaOk(mem, root', dst)
    requires TableTree(mem, root, up) && TableTree(mem, root', up')
    requires dst.frames.Values !! src.frames.Values && i in src.frames && i in dst.frames
    requires src.frames[i] < |mem| && dst.frames[i] < |mem| && dst.frames[i] !in up && dst.frames[i] !in up'
    requires SamePages(mem, src, dst, i)
    ensures var mem' := mem[dst.frames[i] := mem[src.frames[i]]];
      && TableTree(mem', root, up) && TableTree(mem', root', up')
      && AreaOk(mem', root, src) && AreaOk(mem', root', dst) && SamePages(mem', src, dst, i + 1)
  {
    hide Lookup, TableTree, Key;
    var mem' := mem[dst.frames[i] := mem[src.frames[i]]];
    TreeFrame(mem, mem', root, up);
    TreeFrame(mem, mem', root', up');
    forall v ensures Lookup(mem', root, v) == Lookup(mem, root, v) && Lookup(mem', root', v) == Lookup(mem, root', v) {
      LookupFrame(mem, mem', root, up, v);
      LookupFrame(mem, mem', root', up', v);
    }
    forall vpn | vpn in src.frames && vpn in dst.frames && vpn < i + 1
      ensures PageOf(mem', dst.frames[vpn]) == PageOf(mem', src.frames[vpn])
    {
      assert dst.frames[i] in dst.frames.Values && src.frames[vpn] in src.frames.Values;
    }
  }

  class MemorySet {
    const pt: PageTable
    var areas: seq<MapArea>

    ghost predicate Valid(a: StackFrameAllocator)
      reads this, pt, a
    {
      pt.Valid(a) && SpaceOk(a.mem, a.live, pt.root, pt.up, areas)
    }

    /** The frames that the address space owns: its tables and its data frames. */
    ghost function Owned(): set<nat>
      reads this, pt
    {
      pt.up.Keys + DataFrames(areas)
    }

    /** A new space maps nothing. */
    constructor NewBare(a: StackFrameAllocator)
      requires a.Valid() && !a.Exhausted()
      modifies a
      ensures fresh(pt) && Valid(a) && areas == []
      ensures OwnStep(old(a.mem), a.mem, old(a.live), a.live, {}, Owned())
      ensures forall vpn :: Lookup(a.mem, pt.root, vpn) == None
      ensures a.Free() == old(a.Free()) - 1
    {
      hide Lookup, TableTree, ListsTables, Partition;
      var p := new PageTable(a);
      pt := p;
      areas := [];
    }

    /** Map a new area, whose pages must not be mapped yet. */
    method Push(start: nat, end: nat, perm: Flags, a: StackFrameAllocator) returns (ok: bool)
      requires Valid(a) && start <= end <= start + 134217728
      requires forall vpn :: start <= vpn < end ==> Lookup(a.mem, pt.root, vpn) == None
      modifies this, pt, a
      ensures !ok ==> a.Exhausted()
      ensures a.Free() >= old(a.Free()) - 3 * (end - start) && (!ok ==> old(a.Free()) < 3 * (end - start))
      ensures ok ==> Valid(a) && pt.root == old(pt.root)
      ensures ok ==> OwnStep(old(a.mem), a.mem, old(a.live), a.live, old(Owned()), Owned())
      ensures ok ==> |areas| == |old(areas)| + 1 && areas[..|old(areas)|] == old(areas)
      ensures ok ==> var area := areas[|old(areas)|];
        area.start == start && area.end == end && area.perm == perm
        && Progress(old(a.mem), a.mem, old(a.live), a.live, pt.root, old(pt.up), pt.up, area)
    {
      hide Lookup, TableTree, ListsTables, Partition, SpaceOk, Progress, OwnStep, DataFrames;
      var area: MapArea;
      ok, area := MapPages(start, end, perm, pt, a);
      if ok {
        Pushed(old(a.mem), a.mem, old(a.live), a.live, pt.root, old(pt.up), pt.up, areas, area);
        areas := areas + [area];
      }
    }

    /** Unmap and drop the first area that starts at `start`, if there is one.  Nothing is
        written but tables, so that all other mappings and bytes of the space stay. */
    method RemoveAreaWithStart(start: nat, a: StackFrameAllocator) returns (found: bool)
      requires Valid(a)
      modifies this, pt, a
      ensures Valid(a) && pt.root == old(pt.root)
      ensures OwnStep(old(a.mem), a.mem, old(a.live), a.live, old(Owned()), Owned())
      ensures found <==> exists k :: 0 <= k < |old(areas)| && old(areas)[k].start == start
      ensures !found ==> areas == old(areas) && a.mem == old(a.mem)
      ensures found ==> exists k ::
        FirstWithStart(old(areas), start, k) && RemovedAt(old(a.mem), a.mem, pt.root, old(areas), areas, k)
      ensures pt.up == old(pt.up) && OnlyTables(old(a.mem), a.mem, pt.up)
    {
      hide Lookup, TableTree, ListsTables, Partition, SpaceOk, DataFrames, UnmappedTo, Without;
      var k := 0;
      while k < |areas| && areas[k].start != start
        invariant 0 <= k <= |areas|
        invariant forall j :: 0 <= j < k ==> areas[j].start != start
      {
        k := k + 1;
      }
      if k == |areas| {
        NoStep(a.mem, a.live, pt.root, pt.up, areas);
        return false;
      }
      assert FirstWithStart(areas, start, k);
      AreaOfSpace(a.mem, a.live, pt.root, pt.up, areas, k);
      UnmapPages(areas[k], pt, a);
      Removed(old(a.mem), a.mem, old(a.live), a.live, pt.root, pt.up, areas, k);
      areas := Without(areas, k);
      assert RemovedAt(old(a.mem), a.mem, pt.root, old(areas), areas, k);
      found := true;
    }

    /** Drop the data frames of all areas; the tables stay, with stale entries. */
    method RecycleDataPages(a: StackFrameAllocator)
      requires Valid(a)
      modifies this, a
      ensures pt.Valid(a) && areas == [] && a.mem == old(a.mem)
      ensures OwnStep(old(a.mem), a.mem, old(a.live), a.live, old(Owned()), Owned()) && Owned() <= old(Owned())
    {
      hide Lookup, Partition, DataFrames, Key, TableTree, ListsTables, SpaceOk;
      SpaceFrames(a.mem, a.live, pt.root, pt.up, areas);
      DropAreas(areas, a, a.mem, a.live, pt.root, pt.up);
      areas := [];
      NoData();
    }

    /** Drop the space, recycled before or not: exactly its frames are given back, and
        no drop panics. */
    method Drop(a: StackFrameAllocator)
      requires pt.Valid(a) && (areas == [] || Valid(a))
      modifies this, a
      ensures a.Valid() && OwnStep(old(a.mem), a.mem, old(a.live), a.live, old(Owned()), {})
    {
      hide Lookup, Partition, DataFrames, Key, TableTree, SpaceOk;
      NoData();
      if areas != [] {
        SpaceFrames(a.mem, a.live, pt.root, pt.up, areas);
      }
      ghost var mem, live := a.mem, a.live;
      assert (set f | f in pt.frames) == pt.up.Keys;
      a.DeallocAll(pt.frames);
      DropAreas(areas, a, mem, live, pt.root, pt.up);
      areas := [];
    }

    /** Map the trampoline page, which no area collects. */
    method MapTrampoline(tramp: Ppn, a: StackFrameAllocator) returns (ok: bool)
      requires Valid(a) && Lookup(a.mem, pt.root, TRAMPOLINE_VPN) == None
      modifies pt, a
      ensures !ok ==> a.Exhausted()
      ensures a.Free() >= old(a.Free()) - 2 && (!ok ==> old(a.Free()) < 2)
      ensures ok ==> Valid(a) && pt.root == old(pt.root)
      ensures ok ==> OwnStep(old(a.mem), a.mem, old(a.live), a.live, old(Owned()), Owned())
      ensures ok ==> OnlyTables(old(a.mem), a.mem, pt.up) && old(Owned()) <= Owned()
      ensures ok ==> forall v :: Lookup(a.mem, pt.root, v) ==
                                 if Key(v) == Key(TRAMPOLINE_VPN) then Some((tramp, WithV(10))) else Lookup(old(a.mem), pt.root, v)
    {
      hide Lookup, TableTree, ListsTables, Partition, Key, AreaOk;
      ok := pt.Map(TRAMPOLINE_VPN, tramp, 10, a);
      if ok {
        forall k | 0 <= k < |areas| ensures AreaOk(a.mem, pt.root, areas[k]) {
          TrampolineApart(old(a.mem), pt.root, areas[k]);
          AreaKept(old(a.mem), a.mem, pt.root, areas[k]);
        }
      }
    }
  }

  lemma TrampolineApart(mem: Memory, root: nat, area: MapArea)
    requires AreaOk(mem, root, area) && Lookup(mem, root, TRAMPOLINE_VPN) == None
    ensures forall v :: Lookup(mem, root, v).Some? ==> Key(v) != Key(TRAMPOLINE_VPN)
  {
    hide Lookup, Key;
    forall v | Lookup(mem, root, v).Some? ensures Key(v) != Key(TRAMPOLINE_VPN) {
      if Key(v) == Key(TRAMPOLINE_VPN) {
        LookupKey(mem, root, v, TRAMPOLINE_VPN);
        assert false;
      }
    }
  }

  /** No page of an area has the key of the trampoline. */
  ghost predicate ClearOfTrampoline(areas: seq<MapArea>) {
    forall k, vpn :: 0 <= k < |areas| && vpn in areas[k].frames ==> Key(vpn) != Key(TRAMPOLINE_VPN)
  }

  /** The areas of the child are copies of the first areas of the parent. */
  ghost predicate Copies(mem: Memory, parent: seq<MapArea>, child: seq<MapArea>) {
    |child| <= |parent| && forall j :: 0 <= j < |child| ==> Copied(mem, parent[j], child[j])
  }

  /** The next area of the parent is not mapped yet in the child. */
  lemma NextUnmapped(mem: Memory, live: set<nat>, live': set<nat>, root: nat, up: map<nat, Link>, areas: seq<MapArea>,
                     root': nat, up': map<nat, Link>, child: seq<MapArea>, vpn: nat)
    requires SpaceOk(mem, live, root, up, areas) && SpaceOk(mem, live', root', up', child)
    requires ClearOfTrampoline(areas) && Copies(mem, areas, child) && |child| < |areas|
    requires vpn in areas[|child|].frames
    ensures Lookup(mem, root', vpn) == None
  {
    hide Lookup, Key, DataFrames, PageOf;
    if Lookup(mem, root', vpn).Some? {
      var k, x :| 0 <= k < |child| && InRange(child[k], x) && Key(x) == Key(vpn);
      AreasApart(mem, root, areas[k], areas[|child|], x, vpn);
      assert false;
    }
  }

  lemma KeyWraps(vpn: nat)
    ensures Key(vpn + 134217728) == Key(vpn)
  {
  }

  /** An area has at most as many pages as there are keys. */
  lemma AreaSize(mem: Memory, root: nat, area: MapArea)
    requires AreaOk(mem, root, area)
    ensures area.end <= area.start + 134217728
  {
    hide Lookup, Key;
    if area.end > area.start + 134217728 {
      KeyWraps(area.start);
      KeysApart(mem, root, area, area.start, area.start + 134217728);
      assert false;
    }
  }

  lemma NoStep(mem: Memory, live: set<nat>, root: nat, up: map<nat, Link>, areas: seq<MapArea>)
    requires SpaceOk(mem, live, root, up, areas) && up.Keys <= live
    ensures OwnStep(mem, mem, live, live, up.Keys + DataFrames(areas), up.Keys + DataFrames(areas))
  {
  }

  lemma AreaOfSpace(mem: Memory, live: set<nat>, root: nat, up: map<nat, Link>, areas: seq<MapArea>, k: nat)
    requires SpaceOk(mem, live, root, up, areas) && k < |areas|
    ensures AreaOk(mem, root, areas[k])
    ensures forall f :: f in areas[k].frames.Values ==> f in live && f !in up
  {
    ValuesInData(areas, k);
  }

  /** Pushing the next area of the child leaves the parent and the copies alone. */
  lemma ForkPushed(mem: Memory, mem': Memory, live: set<nat>, live': set<nat>, up: map<nat, Link>, areas: seq<MapArea>,
                   root': nat, up0: map<nat, Link>, up': map<nat, Link>, child: seq<MapArea>, area: MapArea)
    requires up.Keys + DataFrames(areas) <= live && up0.Keys + DataFrames(child) <= live
    requires (up.Keys + DataFrames(areas)) !! (up0.Keys + DataFrames(child))
    requires Copies(mem, areas, child) && DataFrames(child) !! up'.Keys
    requires Progress(mem, mem', live, live', root', up0, up', area)
    ensures Copies(mem', areas, child) && up.Keys + DataFrames(areas) <= live' && |mem'| == |mem|
    ensures (up.Keys + DataFrames(areas)) !! (up'.Keys + DataFrames(child + [area]))
    ensures forall f :: f in up.Keys + DataFrames(areas) ==> PageOf(mem', f) == PageOf(mem, f)
  {
    hide AreaOk, OnlyMaps, DataFrames, SamePages;
    DataFramesSnoc(child, area);
    forall j | 0 <= j < |child| ensures Copied(mem', areas[j], child[j]) {
      ValuesInData(areas, j);
      ValuesInData(child, j);
      SamePagesKept(mem, mem', areas[j], child[j]);
    }
  }

  lemma SamePagesKept(mem: Memory, mem': Memory, src: MapArea, dst: MapArea)
    requires SamePages(mem, src, dst, src.end)
    requires forall f :: f in src.frames.Values || f in dst.frames.Values ==> PageOf(mem', f) == PageOf(mem, f)
    ensures SamePages(mem', src, dst, src.end)
  {
    forall vpn | vpn in src.frames && vpn in dst.frames && vpn < src.end
      ensures PageOf(mem', dst.frames[vpn]) == PageOf(mem', src.frames[vpn])
    {
      assert src.frames[vpn] in src.frames.Values && dst.frames[vpn] in dst.frames.Values;
    }
  }

  /** Filling the newest area of the child completes one more copy. */
  lemma ForkCopied(mem: Memory, mem': Memory, areas: seq<MapArea>, child: seq<MapArea>)
    requires 0 < |child| <= |areas| && Copies(mem, areas, child[..|child| - 1])
    requires Copied(mem', areas[|child| - 1], child[|child| - 1]) && |mem'| == |mem|
    requires DataFrames(areas) !! DataFrames(child)
    requires forall i, j :: 0 <= i < j < |child| ==> child[i].frames.Values !! child[j].frames.Values
    requires forall f {:trigger mem'[f]} ::
      0 <= f < |mem| && f !in child[|child| - 1].frames.Values ==> mem'[f] == mem[f]
    ensures Copies(mem', areas, child)
  {
    hide SamePages, DataFrames;
    var n := |child| - 1;
    ValuesInData(child, n);
    forall j | 0 <= j < n ensures Copied(mem', areas[j], child[j]) {
      assert Copied(mem, areas[j], child[..n][j]);
      ValuesInData(areas, j);
      SamePagesKept(mem, mem', areas[j], child[j]);
    }
  }

  lemma OwnStepTwice(m0: Memory, m1: Memory, m2: Memory, l0: set<nat>, l1: set<nat>, l2: set<nat>,
                     o0: set<nat>, o1: set<nat>, o2: set<nat>)
    requires OwnStep(m0, m1, l0, l1, o0, o1) && OwnStep(m1, m2, l1, l2, o1, o2) && o1 <= o2 && o0 <= o1
    ensures OwnStep(m0, m2, l0, l2, o0, o2)
  {
  }

  lemma AreaRange(mem: Memory, root: nat, area: MapArea)
    requires AreaOk(mem, root, area)
    ensures area.start <= area.end && forall vpn :: vpn in area.frames <==> area.start <= vpn < area.end
  {
  }

  /** What the invariant says of the frames of a space. */
  lemma SpaceFrames(mem: Memory, live: set<nat>, root: nat, up: map<nat, Link>, areas: seq<MapArea>)
    requires SpaceOk(mem, live, root, up, areas)
    ensures DataFrames(areas) <= live && DataFrames(areas) !! up.Keys
    ensures forall i, j :: 0 <= i < j < |areas| ==> areas[i].frames.Values !! areas[j].frames.Values
  {
  }

  lemma LiveInMemory(a: StackFrameAllocator)
    requires a.Valid()
    ensures forall f :: f in a.live ==> f < |a.mem|
  {
  }

  /** Copy the bytes of the parent's area into the newest area of the child. */
  method FillCopy(user: MemorySet, ms: MemorySet, a: StackFrameAllocator)
    requires user.Valid(a) && ms.Valid(a) && user.Owned() !! ms.Owned()
    requires 0 < |ms.areas| <= |user.areas| && Copies(a.mem, user.areas, ms.areas[..|ms.areas| - 1])
    requires var src, dst := user.areas[|ms.areas| - 1], ms.areas[|ms.areas| - 1];
      dst.start == src.start && dst.end == src.end && dst.perm == src.perm
    modifies a`mem
    ensures user.Valid(a) && ms.Valid(a) && Copies(a.mem, user.areas, ms.areas) && |a.mem| == |old(a.mem)|
    ensures forall f {:trigger a.mem[f]} :: 0 <= f < |a.mem| && f !in ms.Owned() ==> a.mem[f] == old(a.mem)[f]
    ensures forall v :: Lookup(a.mem, ms.pt.root, v) == Lookup(old(a.mem), ms.pt.root, v)
  {
    hide Lookup, TableTree, ListsTables, Partition, Key, SpaceOk, DataFrames, Copies, AreaOk, Copied;
    var k := |ms.areas| - 1;
    var src, dst := user.areas[k], ms.areas[k];
    ghost var mem := a.mem;
    AreaOfSpace(mem, a.live, user.pt.root, user.pt.up, user.areas, k);
    AreaOfSpace(mem, a.live, ms.pt.root, ms.pt.up, ms.areas, k);
    ValuesInData(user.areas, k);
    ValuesInData(ms.areas, k);
    LiveInMemory(a);
    SpaceFrames(mem, a.live, user.pt.root, user.pt.up, user.areas);
    SpaceFrames(mem, a.live, ms.pt.root, ms.pt.up, ms.areas);
    CopyPages(src, dst, user.pt, ms.pt, a);
    SpaceFrame(mem, a.mem, a.live, a.live, user.pt.root, user.pt.up, user.areas);
    SpaceFrame(mem, a.mem, a.live, a.live, ms.pt.root, ms.pt.up, ms.areas);
    ForkCopied(mem, a.mem, user.areas, ms.areas);
  }

  /** Writing inside the own frames extends an own step. */
  lemma OwnStepInside(m0: Memory, m1: Memory, m2: Memory, l0: set<nat>, l1: set<nat>, o0: set<nat>, o1: set<nat>)
    requires OwnStep(m0, m1, l0, l1, o0, o1) && |m2| == |m1|
    requires forall f {:trigger m2[f]} :: 0 <= f < |m1| && f !in o1 ==> m2[f] == m1[f]
    ensures OwnStep(m0, m2, l0, l1, o0, o1)
  {
  }

  /** Push a copy of the next area of the parent. */
  method PushCopy(user: MemorySet, ms: MemorySet, a: StackFrameAllocator) returns (ok: bool)
    requires user.Valid(a) && ms.Valid(a) && ms != user && ms.pt != user.pt
    requires ClearOfTrampoline(user.areas) && user.Owned() !! ms.Owned()
    requires |ms.areas| < |user.areas| && Copies(a.mem, user.areas, ms.areas)
    modifies ms, ms.pt, a
    ensures !ok ==> a.Exhausted()
    ensures var area := user.areas[|old(ms.areas)|];
      var n := if area.start <= area.end then area.end - area.start else 0;
      a.Free() >= old(a.Free()) - 3 * n && (!ok ==> old(a.Free()) < 3 * n)
    ensures ok ==> user.Valid(a) && ms.Valid(a) && ms.pt.root == old(ms.pt.root) && user.Owned() !! ms.Owned()
    ensures ok ==> |ms.areas| == |old(ms.areas)| + 1 && Copies(a.mem, user.areas, ms.areas)
    ensures ok ==> OwnStep(old(a.mem), a.mem, old(a.live), a.live, old(ms.Owned()), ms.Owned())
    ensures ok ==> old(ms.Owned()) <= ms.Owned()
    ensures ok ==> forall f :: f in user.Owned() ==> PageOf(a.mem, f) == PageOf(old(a.mem), f)
    ensures ok ==> forall v :: old(Lookup(a.mem, ms.pt.root, v)).Some? ==>
                               Lookup(a.mem, ms.pt.root, v) == old(Lookup(a.mem, ms.pt.root, v))
  {
    hide Lookup, TableTree, ListsTables, Partition, Key, SpaceOk, Progress, OwnStep, DataFrames, Copies, OnlyMaps,
      AreaOk, ClearOfTrampoline;
    var k := |ms.areas|;
    var area := user.areas[k];
    ghost var mem, live, child, up0 := a.mem, a.live, ms.areas, ms.pt.up;
    AreaOfSpace(mem, live, user.pt.root, user.pt.up, user.areas, k);
    AreaSize(mem, user.pt.root, area);
    AreaRange(mem, user.pt.root, area);
    forall vpn | area.start <= vpn < area.end ensures Lookup(mem, ms.pt.root, vpn) == None {
      NextUnmapped(mem, live, live, user.pt.root, user.pt.up, user.areas, ms.pt.root, ms.pt.up, child, vpn);
    }
    SpaceFrames(mem, live, user.pt.root, user.pt.up, user.areas);
    SpaceFrames(mem, live, ms.pt.root, ms.pt.up, child);
    ok := ms.Push(area.start, area.end, area.perm, a);
    if !ok {
      return;
    }
    ghost var dst, mem1 := ms.areas[k], a.mem;
    assert ms.areas == child + [dst] && ms.areas[..k] == child;
    SpaceFrames(mem1, a.live, ms.pt.root, ms.pt.up, ms.areas);
    DataFramesSnoc(child, dst);
    ForkPushed(mem, mem1, live, a.live, user.pt.up, user.areas, ms.pt.root, up0, ms.pt.up, child, dst);
    SpaceFrame(mem, mem1, live, a.live, user.pt.root, user.pt.up, user.areas);
    assert ms.Valid(a);
    PushMaps(mem, mem1, live, a.live, ms.pt.root, up0, ms.pt.up, dst);
    FillCopy(user, ms, a);
    OwnStepInside(mem, mem1, a.mem, live, a.live, up0.Keys + DataFrames(child), ms.Owned());
  }

  lemma PushMaps(mem: Memory, mem': Memory, live: set<nat>, live': set<nat>, root: nat,
                 up: map<nat, Link>, up': map<nat, Link>, area: MapArea)
    requires Progress(mem, mem', live, live', root, up, up', area)
    ensures up.Keys <= up'.Keys
    ensures forall v :: Lookup(mem, root, v).Some? ==> Lookup(mem', root, v) == Lookup(mem, root, v)
  {
    hide Lookup;
  }

  /** How many pages the areas have. */
  function PagesOf(areas: seq<MapArea>): nat {
    if areas == [] then 0
    else
      var n := |areas| - 1;
      PagesOf(areas[..n]) + if areas[n].start <= areas[n].end then areas[n].end - areas[n].start else 0
  }

  lemma PagesNext(areas: seq<MapArea>, k: nat)
    requires k < |areas|
    ensures var n := if areas[k].start <= areas[k].end then areas[k].end - areas[k].start else 0;
      PagesOf(areas[..k + 1]) == PagesOf(areas[..k]) + n
    ensures PagesOf(areas[..k + 1]) <= PagesOf(areas)
    decreases |areas| - k
  {
    assert areas[..k + 1][..k] == areas[..k];
    if k + 1 < |areas| {
      PagesNext(areas, k + 1);
    } else {
      assert areas[..k + 1] == areas;
    }
  }

  /** Copy a user space: all its areas, with their permissions and bytes, on frames
      of their own; the parent is as before. */
  method FromExistedUser(user: MemorySet, tramp: Ppn, a: StackFrameAllocator) returns (ok: bool, ms: MemorySet)
    requires user.Valid(a) && ClearOfTrampoline(user.areas)
    modifies a
    ensures !ok ==> a.Exhausted()
    ensures !ok ==> old(a.Free()) < 3 + 3 * PagesOf(user.areas)
    ensures ok ==> fresh(ms) && fresh(ms.pt) && user.Valid(a) && ms.Valid(a)
    ensures ok ==> |ms.areas| == |user.areas| && Copies(a.mem, user.areas, ms.areas)
    ensures ok ==> user.Owned() !! ms.Owned()
    ensures ok ==> OwnStep(old(a.mem), a.mem, old(a.live), a.live, {}, ms.Owned())
    ensures ok ==> forall f :: f in user.Owned() ==> PageOf(a.mem, f) == PageOf(old(a.mem), f)
    ensures ok ==> Lookup(a.mem, ms.pt.root, TRAMPOLINE_VPN) == Some((tramp, WithV(10)))
  {
    hide Lookup, TableTree, ListsTables, Partition, Key, SpaceOk, OwnStep, DataFrames, Copies, ClearOfTrampoline, PageOf;
    if a.Exhausted() {
      return false, user;
    }
    ghost var mem, live, free := a.mem, a.live, a.Free();
    SpaceFrames(mem, live, user.pt.root, user.pt.up, user.areas);
    ms := new MemorySet.NewBare(a);
    ghost var mem1, live1, own1 := a.mem, a.live, ms.Owned();
    ParentKept(mem, mem1, live, live1, {}, own1, user.pt.root, user.pt.up, user.areas);
    ok := ms.MapTrampoline(tramp, a);
    if !ok {
      return;
    }
    ParentKept(mem1, a.mem, live1, a.live, own1, ms.Owned(), user.pt.root, user.pt.up, user.areas);
    OwnStepTwice(mem, mem1, a.mem, live, live1, a.live, {}, own1, ms.Owned());
    assert Copies(a.mem, user.areas, ms.areas) by { NoCopies(a.mem, user.areas); }
    var k := 0;
    while k < |user.areas|
      modifies ms, ms.pt, a
      invariant k == |ms.areas| <= |user.areas| && a.Free() >= free - 3 - 3 * PagesOf(user.areas[..k])
      invariant user.Valid(a) && ms.Valid(a) && user.Owned() !! ms.Owned()
      invariant Copies(a.mem, user.areas, ms.areas)
      invariant OwnStep(mem, a.mem, live, a.live, {}, ms.Owned())
      invariant forall f :: f in user.Owned() ==> PageOf(a.mem, f) == PageOf(mem, f)
      invariant Lookup(a.mem, ms.pt.root, TRAMPOLINE_VPN) == Some((tramp, WithV(10)))
    {
      ghost var mem2, live2, own2 := a.mem, a.live, ms.Owned();
      PagesNext(user.areas, k);
      ok := PushCopy(user, ms, a);
      if !ok {
        return;
      }
      OwnStepTwice(mem, mem2, a.mem, live, live2, a.live, {}, own2, ms.Owned());
      k := k + 1;
    }
    ok := true;
  }

  lemma NoCopies(mem: Memory, areas: seq<MapArea>)
    ensures Copies(mem, areas, [])
  {
  }

  /** A step on another space leaves this one as it was. */
  lemma ParentKept(mem: Memory, mem': Memory, live: set<nat>, live': set<nat>, own: set<nat>, own': set<nat>,
                   root: nat, up: map<nat, Link>, areas: seq<MapArea>)
    requires TableTree(mem, root, up) && SpaceOk(mem, live, root, up, areas) && up.Keys <= live
    requires OwnStep(mem, mem', live, live', own, own') && own !! (up.Keys + DataFrames(areas))
    ensures TableTree(mem', root, up) && SpaceOk(mem', live', root, up, areas)
    ensures own' !! (up.Keys + DataFrames(areas)) && up.Keys + DataFrames(areas) <= live'
    ensures forall f :: f in up.Keys + DataFrames(areas) ==> PageOf(mem', f) == PageOf(mem, f)
  {
    hide TableTree, Lookup, DataFrames;
    SpaceFrames(mem, live, root, up, areas);
    SpaceFrame(mem, mem', live, live', root, up, areas);
  }

  /** Page `v` is mapped in both spaces, with the same flags and the same bytes. */
  ghost predicate SamePage(mem: Memory, root: nat, root': nat, v: nat) {
    var x, y := Lookup(mem, root, v), Lookup(mem, root', v);
    x.Some? && y.Some? && x.value.1 == y.value.1 && PageOf(mem, x.value.0) == PageOf(mem, y.value.0)
  }

  lemma SameAreaPage(mem: Memory, root: nat, src: MapArea, root': nat, dst: MapArea, vpn: nat, v: nat)
    requires AreaOk(mem, root, src) && AreaOk(mem, root', dst) && Copied(mem, src, dst)
    requires vpn in src.frames && Key(vpn) == Key(v)
    ensures SamePage(mem, root, root', v)
  {
    hide Lookup, Key, PageOf;
    LookupKey(mem, root, v, vpn);
    LookupKey(mem, root', v, vpn);
  }

  /** Parent and child map the same pages, with the same flags and the same bytes. */
  lemma SameMapping(mem: Memory, live: set<nat>, root: nat, up: map<nat, Link>, areas: seq<MapArea>,
                    root': nat, up': map<nat, Link>, child: seq<MapArea>, v: nat)
    requires SpaceOk(mem, live, root, up, areas) && SpaceOk(mem, live, root', up', child)
    requires |child| == |areas| && Copies(mem, areas, child)
    requires Lookup(mem, root', TRAMPOLINE_VPN).Some? && Lookup(mem, root', TRAMPOLINE_VPN) == Lookup(mem, root, TRAMPOLINE_VPN)
    ensures Lookup(mem, root, v).Some? || Lookup(mem, root', v).Some? ==> SamePage(mem, root, root', v)
  {
    hide Lookup, Key, DataFrames, PageOf, AreaOk;
    if Key(v) == Key(TRAMPOLINE_VPN) {
      LookupKey(mem, root, v, TRAMPOLINE_VPN);
      LookupKey(mem, root', v, TRAMPOLINE_VPN);
    } else if InSome(areas, v) || InSome(child, v) {
      var k: nat, vpn: nat :| k < |areas| && (InRange(areas[k], vpn) || InRange(child[k], vpn)) && Key(vpn) == Key(v);
      assert Copied(mem, areas[k], child[k]);
      AreaRange(mem, root, areas[k]);
      assert child[k].start == areas[k].start;
      assert child[k].end == areas[k].end;
      assert InRange(areas[k], vpn) || InRange(child[k], vpn);
      assert InRange(areas[k], vpn);
      SameAreaPage(mem, root, areas[k], root', child[k], vpn, v);
    }
  }

  /** Whatever is written to a frame that one space owns, a space that does not own
      it maps the same pages and shows the same bytes. */
  lemma WritesIsolated(mem: Memory, live: set<nat>, root: nat, up: map<nat, Link>, areas: seq<MapArea>, f: nat, p: Page)
    requires TableTree(mem, root, up) && SpaceOk(mem, live, root, up, areas) && up.Keys <= live
    requires f < |mem| && f !in up && f !in DataFrames(areas)
    ensures TableTree(mem[f := p], root, up) && SpaceOk(mem[f := p], live, root, up, areas)
    ensures forall v :: Lookup(mem[f := p], root, v) == Lookup(mem, root, v)
    ensures forall k, vpn :: 0 <= k < |areas| && vpn in areas[k].frames ==>
      PageOf(mem[f := p], areas[k].frames[vpn]) == PageOf(mem, areas[k].frames[vpn])
  {
    hide TableTree, Lookup;
    SpaceFrame(mem, mem[f := p], live, live, root, up, areas);
    forall k, vpn | 0 <= k < |areas| && vpn in areas[k].frames
      ensures PageOf(mem[f := p], areas[k].frames[vpn]) == PageOf(mem, areas[k].frames[vpn])
    {
      assert areas[k].frames[vpn] in DataFrames(areas);
    }
  }
}
