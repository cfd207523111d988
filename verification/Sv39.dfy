/** Sv39 page tables in physical memory (os7-ref/src/mm/page_table.rs, address.rs),
    on values: three levels of 512 entries of 64 bits, section 4.4 of the RISC-V
    Privileged Architecture. */
module Sv39 {
  import opened Words

  type Page = p: seq<byte> | |p| == 4096 witness Zeros(4096)
  type Memory = seq<Page>

  const ZERO_PAGE: Page := Zeros(4096)

  /** Physical page numbers have 44 bits. */
  type Ppn = x: int | 0 <= x < 0x1000_0000_0000
  type Flags = x: int | 0 <= x < 256

  /** Flag V. */
  predicate HasV(flags: Flags) {
    flags % 2 == 1
  }

  /** `flags | V`. */
  function WithV(flags: Flags): (r: Flags)
    ensures HasV(r) && r / 2 == flags / 2
  {
    if HasV(flags) then flags else flags + 1
  }

  /** A page table entry: the page number above ten low bits, of which the lowest
      eight are the flags. */
  function MakePte(ppn: Ppn, flags: Flags): nat {
    ppn * 1024 + flags
  }

  function PpnOf(bits: nat): Ppn {
    bits / 1024 % 0x1000_0000_0000
  }

  function FlagsOf(bits: nat): Flags {
    bits % 256
  }

  predicate IsValid(bits: nat) {
    HasV(FlagsOf(bits))
  }

  /** An entry keeps its page number and its flags. */
  lemma PteRoundTrip(ppn: Ppn, flags: Flags)
    ensures PpnOf(MakePte(ppn, flags)) == ppn && FlagsOf(MakePte(ppn, flags)) == flags
    ensures MakePte(ppn, flags) < Pow256(8)
  {
    assert Pow256(4) == 0x1_0000_0000;
    assert Pow256(8) == 0x1_0000_0000_0000_0000;
    var bits := MakePte(ppn, flags);
    assert bits / 1024 == ppn && ppn % 0x1000_0000_0000 == ppn;
    assert bits % 256 == flags;
  }

  /** Nine bits of a virtual page number, the root level first. */
  function Idx(vpn: nat, level: nat): (i: nat)
    requires level < 3
    ensures i < 512
  {
    if level == 0 then vpn / 262144 % 512
    else if level == 1 then vpn / 512 % 512
    else vpn % 512
  }

  /** A page table only sees the low 27 bits of a page number. */
  function Key(vpn: nat): nat {
    vpn % 134217728
  }

  lemma SameKey(vpn: nat, vpn': nat)
    ensures Key(vpn) == Key(vpn') <==> forall l :: 0 <= l < 3 ==> Idx(vpn, l) == Idx(vpn', l)
  {
    KeyParts(vpn);
    KeyParts(vpn');
    assert Idx(vpn, 0) == Idx(vpn', 0) && Idx(vpn, 1) == Idx(vpn', 1) && Idx(vpn, 2) == Idx(vpn', 2) ==>
      Key(vpn) == Key(vpn');
  }

  lemma KeyParts(vpn: nat)
    ensures Key(vpn) == Idx(vpn, 0) * 262144 + Idx(vpn, 1) * 512 + Idx(vpn, 2)
  {
    var a, b, c := vpn / 512, vpn / 262144, vpn / 134217728;
    DivTwice(vpn);
    assert vpn == 512 * a + vpn % 512 && a == 512 * b + a % 512 && b == 512 * c + b % 512;
    Remainder(vpn, c, b % 512 * 262144 + a % 512 * 512 + vpn % 512);
  }

  lemma DivTwice(v: nat)
    ensures v / 512 / 512 == v / 262144 && v / 262144 / 512 == v / 134217728
  {
  }

  lemma Remainder(v: nat, q: nat, r: nat)
    requires v == 134217728 * q + r && r < 134217728
    ensures v % 134217728 == r
  {
  }

  method Indexes(vpn: nat) returns (idx: seq<nat>)
    ensures |idx| == 3 && forall l :: 0 <= l < 3 ==> idx[l] == Idx(vpn, l)
  {
    var v := vpn;
    idx := [0, 0, 0];
    var i := 3;
    while i > 0
      invariant 0 <= i <= 3 && |idx| == 3
      invariant v == if i == 3 then vpn else if i == 2 then vpn / 512 else if i == 1 then vpn / 262144 else v
      invariant forall l :: i <= l < 3 ==> idx[l] == Idx(vpn, l)
    {
      i := i - 1;
      idx := idx[i := v % 512];
      v := v / 512;
    }
  }

  function PageOf(mem: Memory, t: nat): Page {
    if t < |mem| then mem[t] else ZERO_PAGE
  }

  /** Entry `i` of table `t`. */
  function Pte(mem: Memory, t: nat, i: nat): nat {
    if i < 512 then WordAt(PageOf(mem, t), 8 * i, 8) else 0
  }

  function SetPte(mem: Memory, t: nat, i: nat, bits: nat): (r: Memory)
    requires t < |mem| && i < 512
    ensures |r| == |mem| && forall u {:trigger r[u]} :: 0 <= u < |mem| && u != t ==> r[u] == mem[u]
  {
    mem[t := SetWordAt(mem[t], 8 * i, 8, bits)]
  }

  lemma PteAfterSet(mem: Memory, t: nat, i: nat, bits: nat, u: nat, j: nat)
    requires t < |mem| && i < 512 && bits < Pow256(8)
    ensures Pte(SetPte(mem, t, i, bits), u, j) == if u == t && j == i then bits else Pte(mem, u, j)
  {
    if u == t && j < 512 {
      if j == i {
        SetThenGet(mem[t], 8 * i, 8, bits);
      } else {
        SetThenGetElsewhere(mem[t], 8 * i, 8, bits, 8 * j, 8);
      }
    }
  }

  lemma PteOfZero(mem: Memory, t: nat, i: nat)
    requires PageOf(mem, t) == ZERO_PAGE
    ensures Pte(mem, t, i) == 0
  {
    if i < 512 {
      LeNatOfZeros(ZERO_PAGE[8 * i..8 * i + 8]);
    }
  }

  /** The table that the walk for `vpn` reaches at `level`, if it gets there. */
  function TableAt(mem: Memory, root: nat, vpn: nat, level: nat): Option<nat>
    requires level < 3
  {
    if level == 0 then Some(root)
    else
      var t := TableAt(mem, root, vpn, level - 1);
      if t.Some? && IsValid(Pte(mem, t.value, Idx(vpn, level - 1)))
      then Some(PpnOf(Pte(mem, t.value, Idx(vpn, level - 1))))
      else None
  }

  /** The leaf entry of `vpn`: the abstract mapping of the table, a partial function
      from the low 27 bits of the page number to a page number and flags. */
  function Lookup(mem: Memory, root: nat, vpn: nat): Option<(Ppn, Flags)> {
    var t := TableAt(mem, root, vpn, 2);
    if t.Some? && IsValid(Pte(mem, t.value, Idx(vpn, 2)))
    then Some((PpnOf(Pte(mem, t.value, Idx(vpn, 2))), FlagsOf(Pte(mem, t.value, Idx(vpn, 2)))))
    else None
  }

  lemma {:induction false} TableAtKey(mem: Memory, root: nat, vpn: nat, vpn': nat, level: nat)
    requires level < 3 && Key(vpn) == Key(vpn')
    ensures TableAt(mem, root, vpn, level) == TableAt(mem, root, vpn', level)
  {
    SameKey(vpn, vpn');
    if level > 0 {
      TableAtKey(mem, root, vpn, vpn', level - 1);
    }
  }

  lemma LookupKey(mem: Memory, root: nat, vpn: nat, vpn': nat)
    requires Key(vpn) == Key(vpn')
    ensures Lookup(mem, root, vpn) == Lookup(mem, root, vpn')
  {
    SameKey(vpn, vpn');
    TableAtKey(mem, root, vpn, vpn', 2);
  }

  /** Where a table hangs: its level, and the entry of the table above it. */
  datatype Link = Link(level: nat, parent: nat, idx: nat)

  /** The tables form a tree: a valid entry above the leaf level points to a table
      that hangs at that very entry, so no two entries point to the same table. */
  ghost predicate TableTree(mem: Memory, root: nat, up: map<nat, Link>) {
    && root in up && up[root].level == 0
    && (forall t :: t in up ==> t < |mem| && up[t].level < 3 && (up[t].level == 0 ==> t == root))
    && (forall t, i {:trigger Pte(mem, t, i)} ::
          t in up && up[t].level < 2 && 0 <= i < 512 && IsValid(Pte(mem, t, i)) ==>
            PpnOf(Pte(mem, t, i)) in up && up[PpnOf(Pte(mem, t, i))] == Link(up[t].level + 1, t, i))
  }

  /** The tables on a walk are tables of the tree at their levels. */
  lemma {:induction false} TableAtInTree(mem: Memory, root: nat, up: map<nat, Link>, vpn: nat, level: nat)
    requires TableTree(mem, root, up) && level < 3
    ensures TableAt(mem, root, vpn, level).Some? ==>
      var t := TableAt(mem, root, vpn, level).value;
      t in up && up[t].level == level
  {
    if level > 0 {
      TableAtInTree(mem, root, up, vpn, level - 1);
    }
  }

  /** Two walks meet in a table only by the same indexes. */
  lemma {:induction false} WalksMeet(mem: Memory, root: nat, up: map<nat, Link>, vpn: nat, vpn': nat, level: nat)
    requires TableTree(mem, root, up) && level < 3
    requires TableAt(mem, root, vpn, level).Some? && TableAt(mem, root, vpn', level) == TableAt(mem, root, vpn, level)
    ensures forall l :: 0 <= l < level ==> Idx(vpn, l) == Idx(vpn', l)
  {
    if level > 0 {
      TableAtInTree(mem, root, up, vpn, level - 1);
      TableAtInTree(mem, root, up, vpn', level - 1);
      WalksMeet(mem, root, up, vpn, vpn', level - 1);
    }
  }

  /** The mapping depends only on the tables. */
  lemma {:induction false} TableAtFrame(mem: Memory, mem': Memory, root: nat, up: map<nat, Link>, vpn: nat, level: nat)
    requires TableTree(mem, root, up) && level < 3
    requires forall t :: t in up ==> PageOf(mem', t) == PageOf(mem, t)
    ensures TableAt(mem', root, vpn, level) == TableAt(mem, root, vpn, level)
  {
    if level > 0 {
      TableAtFrame(mem, mem', root, up, vpn, level - 1);
      TableAtInTree(mem, root, up, vpn, level - 1);
    }
  }

  lemma LookupFrame(mem: Memory, mem': Memory, root: nat, up: map<nat, Link>, vpn: nat)
    requires TableTree(mem, root, up)
    requires forall t :: t in up ==> PageOf(mem', t) == PageOf(mem, t)
    ensures Lookup(mem', root, vpn) == Lookup(mem, root, vpn)
  {
    TableAtFrame(mem, mem', root, up, vpn, 2);
    TableAtInTree(mem, root, up, vpn, 2);
  }

  lemma TreeFrame(mem: Memory, mem': Memory, root: nat, up: map<nat, Link>)
    requires TableTree(mem, root, up) && |mem'| == |mem|
    requires forall t :: t in up ==> PageOf(mem', t) == PageOf(mem, t)
    ensures TableTree(mem', root, up)
  {
    forall t, i | t in up && up[t].level < 2 && 0 <= i < 512 && IsValid(Pte(mem', t, i))
      ensures PpnOf(Pte(mem', t, i)) in up && up[PpnOf(Pte(mem', t, i))] == Link(up[t].level + 1, t, i)
    {
      assert Pte(mem', t, i) == Pte(mem, t, i);
    }
  }

  /** Writing a leaf entry leaves all walks as they are. */
  lemma {:induction false} LeafKeepsWalks(mem: Memory, root: nat, up: map<nat, Link>, t: nat, i: nat, bits: nat,
                                          vpn: nat, level: nat)
    requires TableTree(mem, root, up) && t in up && up[t].level == 2 && i < 512 && bits < Pow256(8) && level < 3
    ensures TableAt(SetPte(mem, t, i, bits), root, vpn, level) == TableAt(mem, root, vpn, level)
  {
    hide Pte, SetPte;
    if level > 0 {
      LeafKeepsWalks(mem, root, up, t, i, bits, vpn, level - 1);
      TableAtInTree(mem, root, up, vpn, level - 1);
      var a := TableAt(mem, root, vpn, level - 1);
      if a.Some? {
        PteAfterSet(mem, t, i, bits, a.value, Idx(vpn, level - 1));
      }
    }
  }

  lemma LeafKeepsTree(mem: Memory, root: nat, up: map<nat, Link>, t: nat, i: nat, bits: nat)
    requires TableTree(mem, root, up) && t in up && up[t].level == 2 && i < 512 && bits < Pow256(8)
    ensures TableTree(SetPte(mem, t, i, bits), root, up)
  {
    hide Pte;
    var mem' := SetPte(mem, t, i, bits);
    forall u, j | u in up && up[u].level < 2 && 0 <= j < 512 && IsValid(Pte(mem', u, j))
      ensures PpnOf(Pte(mem', u, j)) in up && up[PpnOf(Pte(mem', u, j))] == Link(up[u].level + 1, u, j)
    {
      PteAfterSet(mem, t, i, bits, u, j);
    }
  }

  /** The mapping that an entry gives, if any. */
  function Meaning(bits: nat): Option<(Ppn, Flags)> {
    if IsValid(bits) then Some((PpnOf(bits), FlagsOf(bits))) else None
  }

  /** Writing the leaf entry of `vpn` changes the mapping at that key and nowhere
      else. */
  lemma LeafWritten(mem: Memory, root: nat, up: map<nat, Link>, vpn: nat, t: nat, bits: nat, vpn': nat)
    requires TableTree(mem, root, up) && TableAt(mem, root, vpn, 2) == Some(t) && bits < Pow256(8)
    ensures t < |mem|
    ensures Lookup(SetPte(mem, t, Idx(vpn, 2), bits), root, vpn') ==
      if Key(vpn') == Key(vpn) then Meaning(bits) else Lookup(mem, root, vpn')
  {
    hide Pte, SetPte, Idx, Key, IsValid;
    TableAtInTree(mem, root, up, vpn, 2);
    TableAtInTree(mem, root, up, vpn', 2);
    LeafKeepsWalks(mem, root, up, t, Idx(vpn, 2), bits, vpn', 2);
    SameKey(vpn, vpn');
    var a := TableAt(mem, root, vpn', 2);
    if a.Some? {
      PteAfterSet(mem, t, Idx(vpn, 2), bits, a.value, Idx(vpn', 2));
      if a.value == t {
        WalksMeet(mem, root, up, vpn, vpn', 2);
      }
    }
    if Key(vpn') == Key(vpn) {
      TableAtKey(mem, root, vpn, vpn', 2);
    }
  }

  /** Hanging a zeroed new table into an empty entry extends no mapping: a walk that
      now gets one level further finds nothing there. */
  lemma {:induction false} AddedWalks(mem: Memory, root: nat, up: map<nat, Link>, t: nat, i: nat, u: nat,
                                      vpn: nat, level: nat)
    requires TableTree(mem, root, up) && t in up && up[t].level < 2 && i < 512 && !IsValid(Pte(mem, t, i))
    requires u !in up && u < |mem| && u < 0x1000_0000_0000 && mem[u] == ZERO_PAGE && level < 3
    ensures var mem' := SetPte(mem, t, i, MakePte(u, 1));
      var a, a' := TableAt(mem, root, vpn, level), TableAt(mem', root, vpn, level);
      a' == a || (level == up[t].level + 1 && a.None? && a' == Some(u))
  {
    hide Pte, SetPte, Idx, IsValid, MakePte, PpnOf;
    if level > 0 {
      AddedWalks(mem, root, up, t, i, u, vpn, level - 1);
      TableAtInTree(mem, root, up, vpn, level - 1);
      NewPte(mem, t, i, u);
      var mem' := SetPte(mem, t, i, MakePte(u, 1));
      var a, a' := TableAt(mem, root, vpn, level - 1), TableAt(mem', root, vpn, level - 1);
      if a'.Some? {
        PteAfterSet(mem, t, i, MakePte(u, 1), a'.value, Idx(vpn, level - 1));
      }
    }
  }

  /** The entry for a new table is valid and points to it; the new table is empty. */
  lemma NewPte(mem: Memory, t: nat, i: nat, u: nat)
    requires t < |mem| && i < 512 && u < |mem| && u < 0x1000_0000_0000 && mem[u] == ZERO_PAGE
    ensures IsValid(MakePte(u, 1)) && PpnOf(MakePte(u, 1)) == u && MakePte(u, 1) < Pow256(8)
    ensures forall j {:trigger Pte(mem, u, j)} :: !IsValid(Pte(mem, u, j))
  {
    PteRoundTrip(u, 1);
    forall j ensures !IsValid(Pte(mem, u, j)) {
      PteOfZero(mem, u, j);
    }
  }

  lemma TableAdded(mem: Memory, root: nat, up: map<nat, Link>, t: nat, i: nat, u: nat)
    requires TableTree(mem, root, up) && t in up && up[t].level < 2 && i < 512 && !IsValid(Pte(mem, t, i))
    requires u !in up && u < |mem| && u < 0x1000_0000_0000 && mem[u] == ZERO_PAGE
    ensures var mem' := SetPte(mem, t, i, MakePte(u, 1));
      && TableTree(mem', root, up[u := Link(up[t].level + 1, t, i)])
      && forall vpn :: Lookup(mem', root, vpn) == Lookup(mem, root, vpn)
  {
    hide Pte, SetPte, Idx, IsValid, MakePte, PpnOf;
    var mem' := SetPte(mem, t, i, MakePte(u, 1));
    var up' := up[u := Link(up[t].level + 1, t, i)];
    NewPte(mem, t, i, u);
    assert |mem'| == |mem|;
    forall w, j | w in up' && up'[w].level < 2 && 0 <= j < 512 && IsValid(Pte(mem', w, j))
      ensures PpnOf(Pte(mem', w, j)) in up' && up'[PpnOf(Pte(mem', w, j))] == Link(up'[w].level + 1, w, j)
    {
      PteAfterSet(mem, t, i, MakePte(u, 1), w, j);
    }
    forall vpn ensures Lookup(mem', root, vpn) == Lookup(mem, root, vpn) {
      AddedWalks(mem, root, up, t, i, u, vpn, 2);
      TableAtInTree(mem, root, up, vpn, 2);
      var a' := TableAt(mem', root, vpn, 2);
      if a'.Some? {
        PteAfterSet(mem, t, i, MakePte(u, 1), a'.value, Idx(vpn, 2));
      }
    }
  }
}
