/** Address translation as the hardware does it, on the bytes of physical memory (section
    4.4.1 of the RISC-V Privileged Architecture, version 20211203, without superpages):
    a reference for the page tables. */
module Walk {
  import opened Words
  import opened Sv39
  import opened PageTables
  import opened UserBuffers

  /** Byte `pa` of physical memory, and the little-endian 64-bit word there. */
  function Byte(mem: Memory, pa: nat): byte {
    if pa / 4096 < |mem| then mem[pa / 4096][pa % 4096] else 0
  }

  function Half(mem: Memory, pa: nat): nat {
    Byte(mem, pa) as int + 0x100 * Byte(mem, pa + 1) as int
      + 0x1_0000 * Byte(mem, pa + 2) as int + 0x100_0000 * Byte(mem, pa + 3) as int
  }

  function Word(mem: Memory, pa: nat): nat {
    Half(mem, pa) + 0x1_0000_0000 * Half(mem, pa + 4)
  }

  /** The page that an entry names: bits 10 to 53.  It is valid if bit 0 is set. */
  function Target(entry: nat): nat {
    entry / 0x400 % 0x1000_0000_0000
  }

  /** The last entry on the way from the root page `ppn` to virtual address `va`, if the two
      entries before it are valid: nine bits of the address for each level, from bit 30, 21
      and 12 on. */
  function LeafOf(mem: Memory, ppn: nat, va: nat): Option<nat> {
    var e2 := Word(mem, 4096 * ppn + 8 * (va / 0x4000_0000 % 512));
    if e2 % 2 == 0 then None
    else
      var e1 := Word(mem, 4096 * Target(e2) + 8 * (va / 0x20_0000 % 512));
      if e1 % 2 == 0 then None
      else Some(Word(mem, 4096 * Target(e1) + 8 * (va / 0x1000 % 512)))
  }

  /** The physical address of `va` and the low eight bits of its entry. */
  function Walked(mem: Memory, ppn: nat, va: nat): Option<(nat, nat)> {
    var e := LeafOf(mem, ppn, va);
    if e.None? || e.value % 2 == 0 then None else Some((4096 * Target(e.value) + va % 4096, e.value % 256))
  }

  lemma ByteIs(mem: Memory, t: nat, off: nat)
    requires off < 4096
    ensures Byte(mem, 4096 * t + off) == PageOf(mem, t)[off]
  {
    assert (4096 * t + off) / 4096 == t && (4096 * t + off) % 4096 == off;
  }

  lemma HalfIs(mem: Memory, t: nat, off: nat)
    requires off + 4 <= 4096
    ensures Half(mem, 4096 * t + off) == LeNat(PageOf(mem, t)[off..off + 4])
  {
    hide Byte, LeNat;
    LeNat4(PageOf(mem, t)[off..off + 4]);
    ByteIs(mem, t, off);
    ByteIs(mem, t, off + 1);
    ByteIs(mem, t, off + 2);
    ByteIs(mem, t, off + 3);
  }

  /** Entry `i` of table `t` is the word at its address. */
  lemma EntryIs(mem: Memory, t: nat, i: nat)
    requires i < 512
    ensures Word(mem, 4096 * t + 8 * i) == Pte(mem, t, i)
  {
    hide Half, LeNat;
    var s := PageOf(mem, t)[8 * i..8 * i + 8];
    LeNatSplit(s, 4);
    assert Pow256(4) == 0x1_0000_0000;
    HalfIs(mem, t, 8 * i);
    HalfIs(mem, t, 8 * i + 4);
    assert s[..4] == PageOf(mem, t)[8 * i..8 * i + 4] && s[4..] == PageOf(mem, t)[8 * i + 4..8 * i + 8];
  }

  lemma IndexIs(va: nat)
    ensures Idx(va / 4096, 0) == va / 0x4000_0000 % 512
    ensures Idx(va / 4096, 1) == va / 0x20_0000 % 512 && Idx(va / 4096, 2) == va / 0x1000 % 512
  {
    assert va / 4096 / 262144 == va / 0x4000_0000;
    assert va / 4096 / 512 == va / 0x20_0000;
  }

  lemma ValidIs(bits: nat)
    ensures IsValid(bits) <==> bits % 2 == 1
    ensures PpnOf(bits) == Target(bits) && FlagsOf(bits) == bits % 256
  {
    Parity(bits / 256, bits % 256);
  }

  lemma Parity(q: nat, r: nat)
    ensures (256 * q + r) % 2 == r % 2
  {
    assert 256 * q + r == 2 * (128 * q) + r;
  }

  lemma LeafIs(mem: Memory, root: nat, va: nat)
    ensures var t := TableAt(mem, root, va / 4096, 2);
      LeafOf(mem, root, va) == if t.Some? then Some(Pte(mem, t.value, Idx(va / 4096, 2))) else None
  {
    hide Word, Pte, Idx, IsValid, PpnOf, Target;
    IndexIs(va);
    var vpn := va / 4096;
    var e2 := Pte(mem, root, Idx(vpn, 0));
    EntryIs(mem, root, Idx(vpn, 0));
    ValidIs(e2);
    var e1 := Pte(mem, PpnOf(e2), Idx(vpn, 1));
    EntryIs(mem, PpnOf(e2), Idx(vpn, 1));
    ValidIs(e1);
    EntryIs(mem, PpnOf(e1), Idx(vpn, 2));
    assert TableAt(mem, root, vpn, 0) == Some(root);
    assert TableAt(mem, root, vpn, 1) == if IsValid(e2) then Some(PpnOf(e2)) else None;
  }

  /** What a last entry means. */
  lemma MeaningWalks(e: nat)
    ensures Meaning(e) == if e % 2 == 0 then None else Some((Target(e), e % 256))
  {
    ValidIs(e);
    hide IsValid, PpnOf, FlagsOf, Target;
  }

  lemma LookupLeafs(mem: Memory, root: nat, va: nat)
    ensures var e := LeafOf(mem, root, va);
      Lookup(mem, root, va / 4096) == if e.None? then None else Meaning(e.value)
  {
    LeafIs(mem, root, va);
    hide LeafOf, TableAt, Pte, Idx, IsValid, PpnOf, FlagsOf;
  }

  /** A page table means what the hardware makes of its bytes. */
  lemma LookupWalks(mem: Memory, root: nat, va: nat)
    ensures var r := Lookup(mem, root, va / 4096);
      Walked(mem, root, va) == if r.None? then None else Some((4096 * r.value.0 + va % 4096, r.value.1 as nat))
  {
    hide LeafOf, Lookup, Meaning, Target;
    LookupLeafs(mem, root, va);
    var e := LeafOf(mem, root, va);
    if e.Some? {
      MeaningWalks(e.value);
    }
  }

  /** What the kernel takes a user address to be is what the hardware does. */
  lemma PhysAddrWalks(mem: Memory, root: nat, va: nat)
    ensures Walked(mem, root, va).Some? ==> PhysAddr(mem, root, va) == Some(Walked(mem, root, va).value.0)
  {
    hide LeafOf, TableAt, Pte, Idx, PpnOf, Target;
    LeafIs(mem, root, va);
    var e := LeafOf(mem, root, va);
    if e.Some? {
      ValidIs(e.value);
    }
  }

  /** The entry made for a page: the page from bit 10 on, the flags in the low eight bits,
      and nothing in the two between; and the register that makes a root page current: mode
      8, address space 0, and the page. */
  lemma Registers(ppn: Ppn, flags: Flags)
    ensures var e := MakePte(ppn, flags); e / 0x400 == ppn && e % 0x100 == flags && e / 0x100 % 4 == 0
    ensures var r := Token(ppn);
      r / 0x1000_0000_0000_0000 == 8 && r / 0x1000_0000_0000 % 0x1_0000 == 0 && r % 0x1000_0000_0000 == ppn
  {
    assert Token(ppn) == 0x1000_0000_0000 * 0x8_0000 + ppn;
    assert Token(ppn) / 0x1000_0000_0000 == 0x8_0000;
  }
}
