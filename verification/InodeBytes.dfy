/** How a disk inode is laid out in its 128 bytes of an inode block (the
    `#[repr(C)]` struct of easy-fs/src/layout.rs): the size, 28 direct ids,
    indirect1, indirect2 as 32-bit words, then one byte for the type. */
module InodeBytes {
  import opened Words
  import opened BlockCaches
  import opened InodeTree

  lemma Pow32()
    ensures Pow256(4) == 0x1_0000_0000
  {
  }

  function Flat(ws: seq<u32>): (r: seq<byte>)
    ensures |r| == 4 * |ws|
  {
    if ws == [] then [] else Flat(ws[..|ws| - 1]) + LeBytes(4, ws[|ws| - 1])
  }

  lemma {:induction false} FlatAt(ws: seq<u32>, k: nat)
    requires k < |ws|
    ensures Flat(ws)[4 * k..4 * k + 4] == LeBytes(4, ws[k])
  {
    var n := |ws| - 1;
    if k < n {
      FlatAt(ws[..n], k);
      assert Flat(ws)[4 * k..4 * k + 4] == Flat(ws[..n])[4 * k..4 * k + 4];
    }
  }

  /** The bytes of an inode, up to and including the type. */
  function Encode(v: Inode): (r: seq<byte>)
    requires |v.direct| == 28
    ensures |r| == 125
  {
    LeBytes(4, v.size) + Flat(v.direct) + LeBytes(4, v.indirect1) + LeBytes(4, v.indirect2)
      + [if v.isDir then 1 else 0]
  }

  function WordOf(b: Block, off: nat): u32
    requires off + 4 <= 512
  {
    Pow32();
    WordAt(b, off, 4)
  }

  /** The inode at byte `off` of an inode block. */
  function Decode(b: Block, off: nat): (v: Inode)
    requires off + 128 <= 512
    ensures |v.direct| == 28
  {
    Inode(WordOf(b, off), seq(28, (k: nat) requires k < 28 => WordOf(b, off + 4 + 4 * k)),
          WordOf(b, off + 116), WordOf(b, off + 120), b[off + 124] == 1)
  }

  function StoreInode(b: Block, off: nat, v: Inode): Block
    requires off + 128 <= 512 && |v.direct| == 28
  {
    Splice(b, off, Encode(v))
  }

  /** A stored word reads back. */
  lemma StoredWord(b: Block, off: nat, e: seq<byte>, j: nat, w: u32)
    requires off + |e| <= 512 && j + 4 <= |e| && e[j..j + 4] == LeBytes(4, w)
    ensures WordOf(Splice(b, off, e), off + j) == w
  {
    var r := Splice(b, off, e);
    assert r[off + j..off + j + 4] == e[j..j + 4];
    Pow32();
    LeNatOfLeBytes(4, w);
  }

  /** Where the words are in the bytes of an inode. */
  lemma EncodedAt(v: Inode)
    requires |v.direct| == 28
    ensures var e := Encode(v);
      && e[0..4] == LeBytes(4, v.size) && e[4..116] == Flat(v.direct)
      && e[116..120] == LeBytes(4, v.indirect1) && e[120..124] == LeBytes(4, v.indirect2)
      && e[124] == if v.isDir then 1 else 0
  {
    hide LeBytes, Flat;
  }

  lemma SliceOfSlice(s: seq<byte>, lo: nat, hi: nat, i: nat, j: nat)
    requires lo <= hi <= |s| && i <= j <= hi - lo
    ensures s[lo..hi][i..j] == s[lo + i..lo + j]
  {
    var t := s[lo..hi];
    forall k | 0 <= k < j - i ensures t[i..j][k] == s[lo + i..lo + j][k] {
      assert t[i + k] == s[lo + (i + k)];
    }
  }

  lemma StoredDirect(b: Block, off: nat, v: Inode, k: nat)
    requires off + 128 <= 512 && |v.direct| == 28 && k < 28
    ensures WordOf(StoreInode(b, off, v), off + 4 + 4 * k) == v.direct[k]
  {
    hide LeBytes, Flat, Encode, Splice, WordOf;
    var e, j := Encode(v), 4 * k;
    EncodedAt(v);
    FlatAt(v.direct, k);
    SliceOfSlice(e, 4, 116, j, j + 4);
    StoredWord(b, off, e, 4 + j, v.direct[k]);
  }

  lemma StoredDirects(b: Block, off: nat, v: Inode)
    requires off + 128 <= 512 && |v.direct| == 28
    ensures Decode(StoreInode(b, off, v), off).direct == v.direct
  {
    hide WordOf, StoreInode;
    var d := Decode(StoreInode(b, off, v), off).direct;
    forall k | 0 <= k < 28 ensures d[k] == v.direct[k] {
      StoredDirect(b, off, v, k);
    }
  }

  /** An inode that is stored and read back is the same inode. */
  lemma StoreThenLoad(b: Block, off: nat, v: Inode)
    requires off + 128 <= 512 && |v.direct| == 28
    ensures Decode(StoreInode(b, off, v), off) == v
  {
    hide LeBytes, Flat, Encode, WordOf, Splice;
    var e, r := Encode(v), StoreInode(b, off, v);
    EncodedAt(v);
    StoredWord(b, off, e, 0, v.size);
    StoredWord(b, off, e, 116, v.indirect1);
    StoredWord(b, off, e, 120, v.indirect2);
    assert r[off + 124] == e[124];
    StoredDirects(b, off, v);
  }

  lemma WordSame(b: Block, b': Block, off: nat)
    requires off + 4 <= 512 && forall i :: off <= i < off + 4 ==> b'[i] == b[i]
    ensures WordOf(b', off) == WordOf(b, off)
  {
    assert b'[off..off + 4] == b[off..off + 4];
  }

  /** Decoding looks at 125 bytes only. */
  lemma DecodeSame(b: Block, b': Block, off: nat)
    requires off + 128 <= 512 && forall i :: off <= i < off + 125 ==> b'[i] == b[i]
    ensures Decode(b', off) == Decode(b, off)
  {
    hide WordOf;
    WordSame(b, b', off);
    WordSame(b, b', off + 116);
    WordSame(b, b', off + 120);
    forall k | 0 <= k < 28 ensures WordOf(b', off + 4 + 4 * k) == WordOf(b, off + 4 + 4 * k) {
      WordSame(b, b', off + 4 + 4 * k);
    }
    assert Decode(b', off).direct == Decode(b, off).direct;
  }

  /** Storing one inode leaves the other inodes of the block alone. */
  lemma StoreElsewhere(b: Block, off: nat, v: Inode, off': nat)
    requires off + 128 <= 512 && off' + 128 <= 512 && |v.direct| == 28
    requires off' + 128 <= off || off + 128 <= off'
    ensures Decode(StoreInode(b, off, v), off') == Decode(b, off')
  {
    var r := StoreInode(b, off, v);
    DecodeSame(b, r, off');
  }
}
