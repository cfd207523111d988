/** The page table (os7-ref/src/mm/page_table.rs) against the partial map from the
    low 27 bits of a virtual page number to a physical page and flags. */
module PageTables {
  import opened Words
  import opened Sv39
  import opened FrameAllocators

  /** `frames` lists the tables of the tree, each once. */
  ghost predicate ListsTables(frames: seq<nat>, up: map<nat, Link>) {
    && (forall i, j :: 0 <= i < j < |frames| ==> frames[i] != frames[j])
    && (forall f :: f in up <==> f in frames)
  }

  lemma ListsOneMore(frames: seq<nat>, up: map<nat, Link>, u: nat, l: Link)
    requires ListsTables(frames, up) && u !in up
    ensures ListsTables(frames + [u], up[u := l])
  {
  }

  /** Outside the tables of `up`, memory is as before. */
  ghost predicate OnlyTables(mem: Memory, mem': Memory, up: map<nat, Link>) {
    |mem'| == |mem| && forall f {:trigger mem'[f]} :: 0 <= f < |mem| && f !in up ==> mem'[f] == mem[f]
  }

  /** Since `up` the tree has only gained tables, all of them newly live. */
  ghost predicate Gained(up: map<nat, Link>, up': map<nat, Link>, live: set<nat>, live': set<nat>) {
    && (forall t :: t in up ==> t in up')
    && (forall t :: t in up' && t !in up ==> t !in live)
    && live' == live + up'.Keys
  }

  /** A zeroed frame is the root of an empty table. */
  lemma EmptyTree(mem: Memory, root: nat)
    requires root < |mem| && mem[root] == ZERO_PAGE
    ensures TableTree(mem, root, map[root := Link(0, 0, 0)])
    ensures forall vpn :: Lookup(mem, root, vpn) == None
  {
    hide Pte;
    forall i ensures Pte(mem, root, i) == 0 {
      PteOfZero(mem, root, i);
    }
    forall vpn ensures Lookup(mem, root, vpn) == None {
      assert TableAt(mem, root, vpn, 1) == None;
    }
  }

  /** Clearing a frame that is no table and hanging it into the walk for `vpn`. */
  lemma Hung(mem: Memory, root: nat, up: map<nat, Link>, t: nat, vpn: nat, level: nat, u: nat)
    requires TableTree(mem, root, up) && level < 2 && TableAt(mem, root, vpn, level) == Some(t)
    requires !IsValid(Pte(mem, t, Idx(vpn, level)))
    requires u !in up && u < |mem| && u < 0x1000_0000_0000
    ensures t < |mem| && t in up && up[t].level == level
    ensures var mem' := SetPte(mem[u := ZERO_PAGE], t, Idx(vpn, level), MakePte(u, 1));
      var up' := up[u := Link(level + 1, t, Idx(vpn, level))];
      && TableTree(mem', root, up') && OnlyTables(mem, mem', up')
      && TableAt(mem', root, vpn, level) == Some(t) && Pte(mem', t, Idx(vpn, level)) == MakePte(u, 1)
      && forall v :: Lookup(mem', root, v) == Lookup(mem, root, v)
  {
    hide Pte, SetPte, IsValid, MakePte, PpnOf, Idx, Lookup;
    var i := Idx(vpn, level);
    var mem1 := mem[u := ZERO_PAGE];
    TableAtInTree(mem, root, up, vpn, level);
    TreeFrame(mem, mem1, root, up);
    TableAtFrame(mem, mem1, root, up, vpn, level);
    assert Pte(mem1, t, i) == Pte(mem, t, i) by { SamePte(mem, mem1, t, i); }
    TableAdded(mem1, root, up, t, i, u);
    AddedWalks(mem1, root, up, t, i, u, vpn, level);
    NewPte(mem1, t, i, u);
    PteAfterSet(mem1, t, i, MakePte(u, 1), t, i);
    forall v ensures Lookup(mem1, root, v) == Lookup(mem, root, v) {
      LookupFrame(mem, mem1, root, up, v);
    }
  }

  lemma SamePte(mem: Memory, mem': Memory, t: nat, i: nat)
    requires PageOf(mem', t) == PageOf(mem, t)
    ensures Pte(mem', t, i) == Pte(mem, t, i)
  {
  }

  lemma GainedTwice(up0: map<nat, Link>, up1: map<nat, Link>, up2: map<nat, Link>,
                    live0: set<nat>, live1: set<nat>, live2: set<nat>, m0: Memory, m1: Memory, m2: Memory)
    requires Gained(up0, up1, live0, live1) && Gained(up1, up2, live1, live2)
    requires OnlyTables(m0, m1, up1) && OnlyTables(m1, m2, up2)
    ensures Gained(up0, up2, live0, live2) && OnlyTables(m0, m2, up2)
  {
  }

  class PageTable {
    var root: nat
    var frames: seq<nat>
    ghost var up: map<nat, Link>

    ghost predicate Valid(a: StackFrameAllocator)
      reads this, a
    {
      && a.Valid()
      && TableTree(a.mem, root, up) && ListsTables(frames, up) && up.Keys <= a.live
    }

    /** A new table maps nothing. */
    constructor (a: StackFrameAllocator)
      requires a.Valid() && !a.Exhausted()
      modifies a
      ensures Valid(a) && up.Keys == {root} && root !in old(a.live) && a.live == old(a.live) + {root}
      ensures forall vpn :: Lookup(a.mem, root, vpn) == None
      ensures root < |a.mem| == |old(a.mem)| && a.mem == old(a.mem)[root := ZERO_PAGE]
      ensures a.Free() == old(a.Free()) - 1
    {
      hide Partition, Lookup;
      var f := a.Alloc();
      root, frames := f.value, [f.value];
      up := map[f.value := Link(0, 0, 0)];
      EmptyTree(a.mem, f.value);
    }

    /** Hang a zeroed new table into the missing entry of the walk for `vpn`. */
    method Hang(vpn: nat, level: nat, t: nat, i: nat, a: StackFrameAllocator) returns (ok: bool)
      requires Valid(a) && level < 2 && TableAt(a.mem, root, vpn, level) == Some(t)
      requires i == Idx(vpn, level) && !IsValid(Pte(a.mem, t, i))
      modifies this`frames, this`up, a
      ensures Valid(a) && (!ok ==> a.Exhausted())
      ensures a.Free() == old(a.Free()) - (if ok then 1 else 0) && (!ok ==> old(a.Free()) == 0)
      ensures TableAt(a.mem, root, vpn, level) == Some(t)
      ensures ok ==> IsValid(Pte(a.mem, t, i))
      ensures forall v :: Lookup(a.mem, root, v) == Lookup(old(a.mem), root, v)
      ensures Gained(old(up), up, old(a.live), a.live) && OnlyTables(old(a.mem), a.mem, up)
    {
      hide Pte, SetPte, IsValid, MakePte, PpnOf, Partition, TableTree, Lookup, Idx, TableAt;
      var r := a.Alloc();
      if r.None? {
        return false;
      }
      var u := r.value;
      Hung(old(a.mem), root, up, t, vpn, level, u);
      NewPte(a.mem, t, i, u);
      a.mem := SetPte(a.mem, t, i, MakePte(u, 1));
      ListsOneMore(frames, up, u, Link(level + 1, t, i));
      frames := frames + [u];
      up := up[u := Link(level + 1, t, i)];
      ok := true;
    }

    /** The walk for `vpn`, hanging in zeroed tables where they are missing.  False
        stands for the panic when memory is exhausted.  No mapping changes, and
        nothing at all when the leaf table is there already. */
    method FindPteCreate(vpn: nat, a: StackFrameAllocator) returns (ok: bool, t: nat)
      requires Valid(a)
      modifies this`frames, this`up, a
      ensures old(TableAt(a.mem, root, vpn, 2).Some?) ==>
        ok && a.mem == old(a.mem) && a.live == old(a.live) && up == old(up) && frames == old(frames)
      ensures Valid(a) && (!ok ==> a.Exhausted())
      ensures a.Free() >= old(a.Free()) - 2 && (!ok ==> old(a.Free()) < 2)
      ensures ok ==> TableAt(a.mem, root, vpn, 2) == Some(t)
      ensures forall v :: Lookup(a.mem, root, v) == Lookup(old(a.mem), root, v)
      ensures Gained(old(up), up, old(a.live), a.live) && OnlyTables(old(a.mem), a.mem, up)
    {
      hide Pte, IsValid, PpnOf, Partition, TableTree, Lookup, Idx, Gained, OnlyTables, ListsTables;
      assert Gained(up, up, a.live, a.live) && OnlyTables(a.mem, a.mem, up) by { GainedNone(up, a.live, a.mem); }
      var idx := Indexes(vpn);
      t := root;
      var i := 0;
      while i < 2
        invariant 0 <= i <= 2 && Valid(a) && a.Free() >= old(a.Free()) - i
        invariant old(TableAt(a.mem, root, vpn, 2).Some?) ==>
          a.mem == old(a.mem) && a.live == old(a.live) && up == old(up) && frames == old(frames)
        invariant TableAt(a.mem, root, vpn, i) == Some(t)
        invariant forall v :: Lookup(a.mem, root, v) == Lookup(old(a.mem), root, v)
        invariant Gained(old(up), up, old(a.live), a.live) && OnlyTables(old(a.mem), a.mem, up)
      {
        if !IsValid(Pte(a.mem, t, idx[i])) {
          assert TableAt(a.mem, root, vpn, 2) == None by { WalkStops(a.mem, root, vpn, i, t); }
          ghost var up1, live1, mem1 := up, a.live, a.mem;
          ok := Hang(vpn, i, t, idx[i], a);
          GainedTwice(old(up), up1, up, old(a.live), live1, a.live, old(a.mem), mem1, a.mem);
          if !ok {
            return false, 0;
          }
        }
        t := PpnOf(Pte(a.mem, t, idx[i]));
        i := i + 1;
      }
      ok := true;
    }

    /** Write the leaf entry of `vpn` found in table `t`. */
    method SetLeaf(vpn: nat, t: nat, bits: nat, a: StackFrameAllocator)
      requires Valid(a) && TableAt(a.mem, root, vpn, 2) == Some(t) && bits < Pow256(8)
      modifies a`mem
      ensures Valid(a) && OnlyTables(old(a.mem), a.mem, up)
      ensures forall v :: Lookup(a.mem, root, v) ==
                          if Key(v) == Key(vpn) then Meaning(bits) else Lookup(old(a.mem), root, v)
    {
      hide Pte, IsValid, PpnOf, FlagsOf, Partition, Lookup, Idx, Key, TableAt;
      TableAtInTree(a.mem, root, up, vpn, 2);
      forall v ensures Lookup(SetPte(a.mem, t, Idx(vpn, 2), bits), root, v) ==
        if Key(v) == Key(vpn) then Meaning(bits) else Lookup(a.mem, root, v)
      {
        LeafWritten(a.mem, root, up, vpn, t, bits, v);
      }
      LeafKeepsTree(a.mem, root, up, t, Idx(vpn, 2), bits);
      a.mem := SetPte(a.mem, t, Idx(vpn, 2), bits);
    }

    /** Map one page: exactly the key of `vpn` is added.  At most two tables are made, and it
        fails only with fewer frames left than that. */
    method Map(vpn: nat, ppn: Ppn, flags: Flags, a: StackFrameAllocator) returns (ok: bool)
      requires Valid(a) && Lookup(a.mem, root, vpn) == None
      modifies this`frames, this`up, a
      ensures Valid(a) && (!ok ==> a.Exhausted())
      ensures a.Free() >= old(a.Free()) - 2 && (!ok ==> old(a.Free()) < 2)
      ensures Gained(old(up), up, old(a.live), a.live) && OnlyTables(old(a.mem), a.mem, up)
      ensures forall v :: Lookup(a.mem, root, v) ==
                          if ok && Key(v) == Key(vpn) then Some((ppn, WithV(flags))) else Lookup(old(a.mem), root, v)
    {
      hide Pte, IsValid, PpnOf, FlagsOf, Partition, Lookup, Idx, Key, TableAt, TableTree, ListsTables, MakePte;
      var t: nat;
      ok, t := FindPteCreate(vpn, a);
      if !ok {
        return;
      }
      assert !IsValid(Pte(a.mem, t, Idx(vpn, 2))) by { LookupLeaf(a.mem, root, vpn, t); }
      PteRoundTrip(ppn, WithV(flags));
      assert Meaning(MakePte(ppn, WithV(flags))) == Some((ppn, WithV(flags))) by { MeaningOf(ppn, WithV(flags)); }
      SetLeaf(vpn, t, MakePte(ppn, WithV(flags)), a);
    }

    /** Unmap one page: exactly the key of `vpn` is removed, and no table is made. */
    method Unmap(vpn: nat, a: StackFrameAllocator)
      requires Valid(a) && Lookup(a.mem, root, vpn).Some?
      modifies this`frames, this`up, a
      ensures Valid(a) && frames == old(frames) && up == old(up) && a.live == old(a.live)
      ensures OnlyTables(old(a.mem), a.mem, up)
      ensures forall v :: Lookup(a.mem, root, v) == if Key(v) == Key(vpn) then None else Lookup(old(a.mem), root, v)
    {
      hide Pte, PpnOf, Partition, Lookup, Idx, Key, TableAt, TableTree, ListsTables;
      LookupLeaf(a.mem, root, vpn, 0);
      var ok, t := FindPteCreate(vpn, a);
      SetLeaf(vpn, t, 0, a);
    }

    /** The walk for `vpn` without making tables. */
    method FindPte(vpn: nat, a: StackFrameAllocator) returns (t: Option<nat>)
      ensures t == TableAt(a.mem, root, vpn, 2)
    {
      var idx := Indexes(vpn);
      t := Some(root);
      var i := 0;
      while i < 2
        invariant 0 <= i <= 2 && t.Some? && t == TableAt(a.mem, root, vpn, i)
      {
        if !IsValid(Pte(a.mem, t.value, idx[i])) {
          assert i == 0 ==> TableAt(a.mem, root, vpn, 1) == None;
          return None;
        }
        t := Some(PpnOf(Pte(a.mem, t.value, idx[i])));
        i := i + 1;
      }
    }

    /** The leaf entry of `vpn`, valid or not, if the tables reach it. */
    method Translate(vpn: nat, a: StackFrameAllocator) returns (r: Option<nat>)
      ensures Lookup(a.mem, root, vpn) == if r.Some? then Meaning(r.value) else None
      ensures r.Some? <==> TableAt(a.mem, root, vpn, 2).Some?
      ensures r.Some? ==> r.value == Pte(a.mem, TableAt(a.mem, root, vpn, 2).value, Idx(vpn, 2))
    {
      var t := FindPte(vpn, a);
      r := if t.Some? then Some(Pte(a.mem, t.value, Idx(vpn, 2))) else None;
    }
  }

  lemma WalkStops(mem: Memory, root: nat, vpn: nat, level: nat, t: nat)
    requires level < 2 && TableAt(mem, root, vpn, level) == Some(t) && !IsValid(Pte(mem, t, Idx(vpn, level)))
    ensures TableAt(mem, root, vpn, 2) == None
  {
    assert TableAt(mem, root, vpn, level + 1) == None;
  }

  lemma LookupLeaf(mem: Memory, root: nat, vpn: nat, t: nat)
    ensures Lookup(mem, root, vpn) == None && TableAt(mem, root, vpn, 2) == Some(t) ==>
      !IsValid(Pte(mem, t, Idx(vpn, 2)))
    ensures Lookup(mem, root, vpn).Some? ==> TableAt(mem, root, vpn, 2).Some?
  {
  }

  lemma MeaningOf(ppn: Ppn, flags: Flags)
    requires HasV(flags)
    ensures Meaning(MakePte(ppn, flags)) == Some((ppn, flags))
  {
    PteRoundTrip(ppn, flags);
  }

  /** The page table that a token denotes: the mode bits above the root page. */
  function Token(root: Ppn): nat {
    8 * 0x1000_0000_0000_0000 + root
  }

  function FromToken(satp: nat): Ppn {
    satp % 0x1000_0000_0000
  }

  lemma TokenRoundTrip(root: Ppn)
    ensures FromToken(Token(root)) == root
  {
    assert Token(root) == 0x1000_0000_0000 * 0x8_0000 + root;
  }

  lemma GainedNone(up: map<nat, Link>, live: set<nat>, mem: Memory)
    requires up.Keys <= live
    ensures Gained(up, up, live, live) && OnlyTables(mem, mem, up)
  {
  }
}
