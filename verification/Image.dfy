/** The on-disk format of easy-fs (easy-fs/src/layout.rs), as addresses of bytes: what a
    reader finds that knows nothing of blocks, caches and objects. */
module Image {
  import opened Words
  import opened Bits
  import opened Bitmaps
  import opened BlockCaches
  import opened InodeTree
  import opened InodeBytes
  import opened DiskInodes
  import opened Dirents
  import opened Efs
  import opened FsState
  import opened Vfs

  /** Byte `a` of the device, and the little-endian 32-bit word there. */
  function Byte(disk: Disk, a: nat): byte {
    if a / 512 < |disk| then disk[a / 512][a % 512] else 0
  }

  function Word(disk: Disk, a: nat): nat {
    Byte(disk, a) as int + 0x100 * Byte(disk, a + 1) as int
      + 0x1_0000 * Byte(disk, a + 2) as int + 0x100_0000 * Byte(disk, a + 3) as int
  }

  /** Bit `n` of the bits that begin with block `start`. */
  predicate BitAt(disk: Disk, start: nat, n: nat) {
    Byte(disk, 512 * start + n / 8) / Pow2(n % 8) % 2 == 1
  }

  /** Inodes lie 128 bytes apart from the end of the inode bitmap on, whose length is the
      third word of the super block. */
  function InodeAddr(disk: Disk, i: nat): nat {
    512 * (1 + Word(disk, 8)) + 128 * i
  }

  /** The id of data block `n` of inode `i`: one of 28 in the inode, one of 128 in the block
      it names next, or one of 128 in one of the 128 blocks named in the block it names
      last. */
  function BlockId(disk: Disk, i: nat, n: nat): nat {
    var a := InodeAddr(disk, i);
    if n < 28 then Word(disk, a + 4 + 4 * n)
    else if n < 156 then Word(disk, 512 * Word(disk, a + 116) + 4 * (n - 28))
    else
      var sub := Word(disk, 512 * Word(disk, a + 120) + 4 * ((n - 156) / 128));
      Word(disk, 512 * sub + 4 * ((n - 156) % 128))
  }

  /** Byte `j` of inode `i`. */
  function FileByte(disk: Disk, i: nat, j: nat): byte {
    Byte(disk, 512 * BlockId(disk, i, j / 512) + j % 512)
  }

  lemma ByteIs(disk: Disk, id: nat, off: nat)
    requires off < 512
    ensures Byte(disk, 512 * id + off) == BlockOf(disk, id)[off]
  {
    assert (512 * id + off) / 512 == id && (512 * id + off) % 512 == off;
  }

  lemma WordIs(disk: Disk, id: nat, off: nat)
    requires off + 4 <= 512
    ensures Word(disk, 512 * id + off) == WordAt(BlockOf(disk, id), off, 4)
  {
    hide Byte, LeNat;
    var b := BlockOf(disk, id);
    LeNat4(b[off..off + 4]);
    ByteIs(disk, id, off);
    ByteIs(disk, id, off + 1);
    ByteIs(disk, id, off + 2);
    ByteIs(disk, id, off + 3);
  }

  lemma EntryIs(disk: Disk, id: nat, k: nat)
    requires k < 128
    ensures Word(disk, 512 * id + 4 * k) == Entry(disk, id, k)
  {
    hide Word, WordAt;
    WordIs(disk, id, 4 * k);
  }

  /** The words of the super block. */
  lemma SuperReads(g: Geometry, disk: Disk)
    requires LoadSuper(BlockOf(disk, 0)) == Some(g)
    ensures Word(disk, 0) == 0x3b800001 && Word(disk, 4) == g.total && Word(disk, 8) == g.inodeBitmapBlocks
    ensures Word(disk, 12) == g.inodeAreaBlocks && Word(disk, 16) == g.dataBitmapBlocks
    ensures Word(disk, 20) == g.dataAreaBlocks
  {
    hide Word, WordAt;
    forall k | 0 <= k < 6 ensures Word(disk, 4 * k) == U32At(BlockOf(disk, 0), k) {
      WordIs(disk, 0, 4 * k);
    }
    assert Word(disk, 4 * 0) == U32At(BlockOf(disk, 0), 0) && Word(disk, 4 * 1) == U32At(BlockOf(disk, 0), 1);
    assert Word(disk, 4 * 2) == U32At(BlockOf(disk, 0), 2) && Word(disk, 4 * 3) == U32At(BlockOf(disk, 0), 3);
    assert Word(disk, 4 * 4) == U32At(BlockOf(disk, 0), 4) && Word(disk, 4 * 5) == U32At(BlockOf(disk, 0), 5);
  }

  /** Where inode `i` is. */
  lemma InodeAddrIs(g: Geometry, disk: Disk, i: nat)
    requires LoadSuper(BlockOf(disk, 0)) == Some(g)
    ensures InodeAddr(disk, i) == 512 * InodePos(g, i).0 + InodePos(g, i).1 && InodePos(g, i).1 + 128 <= 512
  {
    SuperReads(g, disk);
    hide Word, LoadSuper;
  }

  lemma InodeWord(g: Geometry, disk: Disk, i: nat, x: nat)
    requires LoadSuper(BlockOf(disk, 0)) == Some(g) && x + 4 <= 128
    ensures InodePos(g, i).1 + 128 <= 512
    ensures Word(disk, InodeAddr(disk, i) + x) == WordOf(BlockOf(disk, InodePos(g, i).0), InodePos(g, i).1 + x)
  {
    InodeAddrIs(g, disk, i);
    hide Word, LoadSuper, InodeAddr, WordAt;
    var id, off := InodePos(g, i).0, InodePos(g, i).1;
    WordIs(disk, id, off + x);
    assert InodeAddr(disk, i) + x == 512 * id + (off + x);
  }

  lemma DecodedIs(b: Block, off: nat)
    requires off + 128 <= 512
    ensures var v := Decode(b, off);
      && v.size == WordOf(b, off) && v.indirect1 == WordOf(b, off + 116) && v.indirect2 == WordOf(b, off + 120)
      && v.isDir == (b[off + 124] == 1)
  {
    hide WordOf;
  }

  /** The words of inode `i`, and its type. */
  lemma InodeReads(g: Geometry, disk: Disk, i: nat)
    requires LoadSuper(BlockOf(disk, 0)) == Some(g)
    ensures var v, a := InodeOf(g, disk, i), InodeAddr(disk, i);
      && Word(disk, a) == v.size && Word(disk, a + 116) == v.indirect1 && Word(disk, a + 120) == v.indirect2
      && (Byte(disk, a + 124) == 1 <==> v.isDir)
  {
    hide Word, WordOf, Byte, LoadSuper, InodeAddr, InodePos, BlockOf, Decode;
    InodeAddrIs(g, disk, i);
    DecodedIs(BlockOf(disk, InodePos(g, i).0), InodePos(g, i).1);
    InodeWord(g, disk, i, 0);
    InodeWord(g, disk, i, 116);
    InodeWord(g, disk, i, 120);
    ByteIs(disk, InodePos(g, i).0, InodePos(g, i).1 + 124);
  }

  lemma DirectReads(g: Geometry, disk: Disk, i: nat, n: nat)
    requires LoadSuper(BlockOf(disk, 0)) == Some(g) && n < 28
    ensures Word(disk, InodeAddr(disk, i) + 4 + 4 * n) == InodeOf(g, disk, i).direct[n]
  {
    hide Word, WordOf, LoadSuper, InodeAddr, InodePos;
    InodeWord(g, disk, i, 4 + 4 * n);
  }

  /** What the lookup finds, on the indexes of the inode. */
  lemma LookupIs(v: Inode, disk: Disk, n: nat)
    requires v.WellFormed() && n < DataBlocks(v.size)
    ensures At(v, disk, Pos(n)) ==
      if n < 28 then v.direct[n]
      else if n < 156 then Entry(disk, v.indirect1, n - 28)
      else Entry(disk, Entry(disk, v.indirect2, (n - 156) / 128), (n - 156) % 128)
  {
    hide At, Pos, Entry, Slots, TotalOf, DataBlocks;
    var q, id := Lookup(v, disk, n);
  }

  lemma BlockIdIs(g: Geometry, disk: Disk, i: nat, n: nat)
    requires LoadSuper(BlockOf(disk, 0)) == Some(g)
    requires InodeOf(g, disk, i).WellFormed() && n < DataBlocks(InodeOf(g, disk, i).size)
    ensures BlockId(disk, i, n) == At(InodeOf(g, disk, i), disk, Pos(n))
  {
    hide Word, LoadSuper, InodeOf, At, Pos, Entry, DataBlocks, InodeAddr, Byte;
    var v := InodeOf(g, disk, i);
    LookupIs(v, disk, n);
    InodeReads(g, disk, i);
    SlotReached(v.size, n);
    if n < 28 {
      DirectReads(g, disk, i, n);
    } else if n < 156 {
      EntryIs(disk, v.indirect1, n - 28);
    } else {
      EntryIs(disk, v.indirect2, (n - 156) / 128);
      EntryIs(disk, Entry(disk, v.indirect2, (n - 156) / 128), (n - 156) % 128);
    }
  }

  lemma FileReads(g: Geometry, disk: Disk, i: nat, c: seq<byte>, j: nat)
    requires LoadSuper(BlockOf(disk, 0)) == Some(g) && Holds(InodeOf(g, disk, i), disk, c) && j < |c|
    ensures FileByte(disk, i, j) == c[j]
  {
    hide LoadSuper, InodeOf, At, Pos, Tail, TotalOf, BlockId, Byte;
    BlockIdIs(g, disk, i, j / 512);
    assert ByteAt(InodeOf(g, disk, i), disk, j) == c[j];
    ByteIs(disk, BlockId(disk, i, j / 512), j % 512);
  }

  /** The image, read by addresses, shows the files: their sizes, their types and every
      byte of them. */
  lemma ImageReads(g: Geometry, disk: Disk, fs: Fs, i: nat)
    requires FsInv(g, disk, fs) && i < |fs.files|
    ensures Word(disk, InodeAddr(disk, i)) == |fs.files[i]|
    ensures Byte(disk, InodeAddr(disk, i) + 124) == 1 <==> i == 0
    ensures forall j :: 0 <= j < |fs.files[i]| ==> FileByte(disk, i, j) == fs.files[i][j]
  {
    hide LoadSuper, InodeOf, Word, InodeAddr, AllBlocks, Byte, InodeBits, Owners, BitsAre, FreeZero, FileByte, Tail,
      ByteAt;
    assert InodeShows(g, disk, i, fs.files[i], fs.lists[i]);
    InodeReads(g, disk, i);
    forall j | 0 <= j < |fs.files[i]| ensures FileByte(disk, i, j) == fs.files[i][j] {
      FileReads(g, disk, i, fs.files[i], j);
    }
  }

  /** A bit of a number is one of its binary digits, and of its bytes. */
  lemma {:induction false} BitDigit(w: nat, p: nat)
    ensures Bit(w, p) <==> w / Pow2(p) % 2 == 1
  {
    if p > 0 {
      BitDigit(w / 2, p - 1);
      HalfThen(w, Pow2(p - 1));
    }
  }

  lemma HalfThen(w: nat, q: nat)
    requires q > 0
    ensures w / 2 / q == w / (2 * q)
  {
    var a, r := w / 2, w % 2;
    var b, c := a / q, a % q;
    assert w == 2 * a + r && a == q * b + c;
    assert w == 2 * q * b + (2 * c + r) by { assert 2 * (q * b) == 2 * q * b; }
    assert 2 * c + r < 2 * q;
    Quotient(w, 2 * q, b, 2 * c + r);
  }

  lemma Quotient(w: nat, d: nat, b: nat, r: nat)
    requires d > 0 && w == d * b + r && r < d
    ensures w / d == b
  {
    var q, s := w / d, w % d;
    assert w == d * q + s;
    assert q < b ==> d * b >= d * (q + 1);
    assert q > b ==> d * q >= d * (b + 1);
  }

  lemma {:induction false} BitLow(x: nat, r: nat, p: nat, k: nat)
    requires k <= 8 && x < Pow2(k)
    ensures p < k ==> (Bit(x + Pow2(k) * r, p) <==> Bit(x, p))
    ensures p >= k ==> (Bit(x + Pow2(k) * r, p) <==> Bit(r, p - k))
  {
    if k > 0 {
      var h := Pow2(k - 1) * r;
      assert Pow2(k) * r == 2 * h;
      assert (x + 2 * h) / 2 == x / 2 + h && (x + 2 * h) % 2 == x % 2;
      if p > 0 {
        BitLow(x / 2, r, p - 1, k - 1);
      }
    }
  }

  lemma {:induction false} BitOfBytes(s: seq<byte>, p: nat)
    requires p < 8 * |s|
    ensures Bit(LeNat(s), p) <==> Bit(s[p / 8], p % 8)
  {
    assert Pow2(8) == 256;
    BitLow(s[0], LeNat(s[1..]), p, 8);
    if p >= 8 {
      BitOfBytes(s[1..], p - 8);
      assert s[1..][(p - 8) / 8] == s[p / 8];
    }
  }

  lemma BitPlace(n: nat)
    ensures 8 * (n / 64) + n % 64 / 8 == n / 8 && n % 64 % 8 == n % 8
  {
  }

  lemma BlockBitIs(b: Block, n: nat)
    requires n < 4096
    ensures BlockBit(b, n) <==> b[n / 8] / Pow2(n % 8) % 2 == 1
  {
    var k := n / 64;
    var s := b[8 * k..8 * k + 8];
    BitPlace(n);
    BitOfBytes(s, n % 64);
    hide Bit, LeNat, Pow2;
    BitDigit(b[n / 8], n % 8);
  }

  lemma BitIs(m: Bitmap, disk: Disk, n: nat)
    requires m.Fits(disk) && n < m.Maximum()
    ensures m.IsSet(disk, n) <==> BitAt(disk, m.start, n)
  {
    hide BlockBit, Byte;
    var id := m.start + n / 4096;
    BlockBitIs(disk[id], n % 4096);
    assert 512 * m.start + n / 8 == 512 * id + n % 4096 / 8 && n % 4096 % 8 == n % 8;
    ByteIs(disk, id, n % 4096 / 8);
  }

  /** The bitmaps, read by addresses: inode `n` exists, or data block `n` of the data area
      belongs to a file, if and only if its bit is set. */
  lemma BitmapsRead(g: Geometry, disk: Disk, fs: Fs, n: nat)
    requires FsInv(g, disk, fs)
    ensures var a, b := Word(disk, 8), Word(disk, 12);
      && (n < 4096 * a ==> (BitAt(disk, 1, n) <==> n < |fs.files|))
      && (n < Word(disk, 20) ==> (BitAt(disk, 1 + a + b, n) <==> 1 + a + b + Word(disk, 16) + n in fs.owner))
  {
    hide Inodes, Owners, FreeZero, LoadSuper, Word, BitAt, InodeBits, BitsAre;
    SuperReads(g, disk);
    if n < 4096 * g.inodeBitmapBlocks {
      InodeBitReads(g, disk, |fs.files|, n);
    }
    if n < g.dataAreaBlocks {
      DataBitReads(g, disk, fs.owner.Keys, n);
    }
  }

  lemma InodeBitReads(g: Geometry, disk: Disk, files: nat, n: nat)
    requires InodeBits(g, disk, files) && n < 4096 * g.inodeBitmapBlocks
    ensures BitAt(disk, 1, n) <==> n < files
  {
    hide BitAt, BlockBit;
    BitIs(g.InodeBitmap(), disk, n);
  }

  lemma DataBitReads(g: Geometry, disk: Disk, used: set<nat>, n: nat)
    requires BitsAre(g, disk, used) && g.Ok() && n < g.dataAreaBlocks
    ensures BitAt(disk, 1 + g.inodeBitmapBlocks + g.inodeAreaBlocks, n) <==>
      1 + g.inodeBitmapBlocks + g.inodeAreaBlocks + g.dataBitmapBlocks + n in used
  {
    hide BitAt, BlockBit;
    BitIs(g.DataBitmap(), disk, n);
    var id := g.DataStart() + n;
    assert 0 <= id - g.DataStart() < g.DataBitmap().Maximum();
  }

  /** Entry `k` of the root directory, byte by byte: the name, NUL bytes up to byte 28, and
      the number k + 1 as a little-endian word. */
  lemma DirectoryReads(names: seq<Name>, k: nat, j: nat)
    requires DirNames(names) && k < |names| < 0x1_0000_0000 && j < 32
    ensures EncodeDir(names)[32 * k + j] ==
      if j < |names[k]| then names[k][j]
      else if j < 28 then 0
      else if j == 28 then (k + 1) % 0x100
      else if j == 29 then (k + 1) / 0x100 % 0x100
      else if j == 30 then (k + 1) / 0x1_0000 % 0x100
      else (k + 1) / 0x100_0000 % 0x100
  {
    DirSlice(names, k);
    var e := EncodeEntry(names[k], k + 1);
    assert EncodeDir(names)[32 * k + j] == EncodeDir(names)[32 * k..32 * k + 32][j] == e[j];
    hide EncodeDir;
    LeBytes4(k + 1);
  }

  lemma LeBytes4(w: nat)
    requires w < 0x1_0000_0000
    ensures LeBytes(4, w) == [w % 0x100, w / 0x100 % 0x100, w / 0x1_0000 % 0x100, w / 0x100_0000 % 0x100]
  {
    var a, b, c := w / 256, w / 256 / 256, w / 256 / 256 / 256;
    LeBytesNext(3, w);
    LeBytesNext(2, a);
    LeBytesNext(1, b);
    LeBytesNext(0, c);
    assert LeBytes(0, c / 256) == [];
    hide LeBytes;
    assert b == w / 0x1_0000 && c == w / 0x100_0000;
  }

  lemma LeBytesNext(n: nat, w: nat)
    ensures LeBytes(n + 1, w) == [w % 256] + LeBytes(n, w / 256)
  {
  }
}
