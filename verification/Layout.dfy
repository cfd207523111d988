/** The block tree of an inode (easy-fs/src/layout.rs), on values.

    An inode owns its blocks in one fixed order of slots: the 28 direct blocks,
    the indirect1 block, its 128 entries, the indirect2 block, and then, for each
    of its entries, the low-level indirect1 block followed by its 128 entries.
    Slot `p` holds the id of one block; the block count of a file of `n` data
    blocks is the length of the prefix of slots in use.

    The sizes of the source appear as numerals: 512 bytes in a block, 28 direct
    blocks, 128 entries in an index block, and so the bounds 28 + 128 = 156 and
    156 + 128 * 128 = 16540 on inner ids. */
module InodeTree {
  import opened Words
  import opened BlockCaches

  type u32 = x: int | 0 <= x < 0x1_0000_0000
  type Disk = seq<Block>

  /** The largest size an inode can address, in bytes. */
  const MAX_SIZE := 8468480

  datatype Inode = Inode(size: u32, direct: seq<u32>, indirect1: u32, indirect2: u32, isDir: bool) {
    ghost predicate WellFormed() {
      |direct| == 28 && size <= MAX_SIZE
    }
  }

  /** No size and no blocks. */
  ghost predicate Emptied(v: Inode) {
    v.size == 0 && |v.direct| == 28 && (forall j :: 0 <= j < 28 ==> v.direct[j] == 0) && v.indirect1 == 0 && v.indirect2 == 0
  }

  function DataBlocks(size: nat): nat {
    (size + 512 - 1) / 512
  }

  /** Blocks, index blocks included, of a file of `n` data blocks. */
  function TotalOf(n: nat): nat {
    var total := n + (if n > 28 then 1 else 0);
    if n > 156
    then total + 1 + (n - 156 + 128 - 1) / 128
    else total
  }

  function TotalBlocks(size: nat): nat {
    TotalOf(DataBlocks(size))
  }

  /** The slot of the data block with inner id `n`. */
  function Pos(n: nat): nat {
    if n < 28 then n
    else if n < 156 then n + 1
    else 159 + (n - 156) / 128 * 129 + (n - 156) % 128
  }

  /** Does slot `p` hold an index block rather than a data block? */
  predicate IsIndex(p: nat) {
    p == 28 || p == 157 || (p >= 158 && (p - 158) % 129 == 0)
  }

  lemma PosMonotone(m: nat, n: nat)
    requires m < n
    ensures Pos(m) < Pos(n)
  {
    if m >= 156 {
      var x, y := m - 156, n - 156;
      assert x / 128 <= y / 128;
    }
  }

  /** The slots in use are those up to the slot of the last data block. */
  lemma TotalIsLastPos(n: nat)
    ensures n > 0 ==> TotalOf(n) == Pos(n - 1) + 1
    ensures !IsIndex(Pos(n))
  {
  }

  /** The first unused slot of a file of `n` data blocks, which is not the longest, is
      that of a data block: no index block comes first. */
  predicate NextIsData(n: nat) {
    n < 16540 && n != 28 && (n >= 156 ==> (n - 156) % 128 != 0)
  }

  lemma NextSlotIs(n: nat)
    requires n < 16540
    ensures NextIsData(n) <==> Pos(n) == TotalOf(n)
    ensures NextIsData(n) <==> !IsIndex(TotalOf(n))
  {
  }

  lemma TotalMonotone(m: nat, n: nat)
    requires m <= n
    ensures TotalOf(m) <= TotalOf(n)
  {
    if m > 156 {
      assert (m - 156 + 127) / 128 <= (n - 156 + 127) / 128;
    }
  }

  /** Entry `k` of a block viewed as `[u32; 128]`. */
  function U32At(b: Block, k: nat): u32
    requires k < 128
  {
    assert Pow256(4) == 0x1_0000_0000;
    WordAt(b, 4 * k, 4)
  }

  function SetU32(b: Block, k: nat, x: u32): Block
    requires k < 128
  {
    SetWordAt(b, 4 * k, 4, x)
  }

  lemma SetU32Get(b: Block, k: nat, x: u32, j: nat)
    requires k < 128 && j < 128
    ensures U32At(SetU32(b, k, x), j) == if j == k then x else U32At(b, j)
  {
    assert Pow256(4) == 0x1_0000_0000;
    if j == k {
      SetThenGet(b, 4 * k, 4, x);
    } else {
      SetThenGetElsewhere(b, 4 * k, 4, x, 4 * j, 4);
    }
  }

  function BlockOf(disk: Disk, id: nat): Block {
    if id < |disk| then disk[id] else ZERO_BLOCK
  }

  function Entry(disk: Disk, id: nat, k: nat): u32 {
    if k < 128 then U32At(BlockOf(disk, id), k) else 0
  }

  /** Is slot `p` kept in an index block, rather than in the inode itself? */
  predicate Stored(p: nat) {
    p >= 29 && p != 157
  }

  /** The slot of the index block that keeps slot `p`. */
  function IndexPos(p: nat): (q: nat)
    requires Stored(p)
    ensures q < p && IsIndex(q)
  {
    if p < 157 then 28
    else if (p - 158) % 129 == 0 then 157
    else 158 + (p - 158) / 129 * 129
  }

  /** The entry of that index block that keeps slot `p`. */
  function EntryPos(p: nat): nat
    requires Stored(p)
  {
    if p < 157 then p - 29
    else if (p - 158) % 129 == 0 then (p - 158) / 129
    else (p - 158) % 129 - 1
  }

  lemma StoredApart(p: nat, q: nat)
    requires Stored(p) && Stored(q) && p != q
    ensures IndexPos(p) != IndexPos(q) || EntryPos(p) != EntryPos(q)
  {
  }

  /** The block id in slot `p`. */
  function At(v: Inode, disk: Disk, p: nat): u32
    requires |v.direct| == 28
  {
    if p < 28 then v.direct[p]
    else if p == 28 then v.indirect1
    else if p == 157 then v.indirect2
    else Entry(disk, At(v, disk, IndexPos(p)), EntryPos(p))
  }

  /** The block ids in the first `n` slots. */
  function Slots(v: Inode, disk: Disk, n: nat): (s: seq<u32>)
    requires |v.direct| == 28
    ensures |s| == n
    ensures forall p {:trigger s[p]} :: 0 <= p < n ==> s[p] == At(v, disk, p)
  {
    seq(n, (p: nat) => At(v, disk, p))
  }

  /** All blocks of an inode, in slot order. */
  function AllBlocks(v: Inode, disk: Disk): seq<u32>
    requires |v.direct| == 28
  {
    Slots(v, disk, TotalBlocks(v.size))
  }

  /** Distinct block ids, all on the disk. */
  ghost predicate Distinct(s: seq<u32>, disk: Disk) {
    && (forall i :: 0 <= i < |s| ==> s[i] < |disk|)
    && (forall i, j :: 0 <= i < j < |s| ==> s[i] != s[j])
  }

  datatype Tree = Tree(v: Inode, disk: Disk) {
    ghost predicate Ok() {
      |v.direct| == 28
    }
  }

  /** Store block id `x` in slot `p`. */
  function Put(t: Tree, p: nat, x: u32): (r: Tree)
    requires t.Ok()
    ensures r.Ok() && |r.disk| == |t.disk| && r.v.size == t.v.size && r.v.isDir == t.v.isDir
  {
    if p < 28 then t.(v := t.v.(direct := t.v.direct[p := x]))
    else if p == 28 then t.(v := t.v.(indirect1 := x))
    else if p == 157 then t.(v := t.v.(indirect2 := x))
    else t.(disk := PutEntry(t.disk, At(t.v, t.disk, IndexPos(p)), EntryPos(p), x))
  }

  function PutEntry(disk: Disk, id: nat, k: nat, x: u32): (r: Disk)
    ensures |r| == |disk|
    ensures forall j {:trigger r[j]} :: 0 <= j < |disk| && j != id ==> r[j] == disk[j]
  {
    if id < |disk| && k < 128 then disk[id := SetU32(disk[id], k, x)] else disk
  }

  lemma EntryAfterPut(disk: Disk, id: nat, k: nat, x: u32, id': nat, k': nat)
    requires id < |disk| && k < 128
    ensures Entry(PutEntry(disk, id, k, x), id', k') ==
            if id' == id && k' == k then x else Entry(disk, id', k')
  {
    if id' == id && k' < 128 {
      SetU32Get(disk[id], k, x, k');
    }
  }

  /** The number of slots an inode has. */
  const SLOTS := 16670

  /** Filling the next slot leaves all earlier slots as they are. */
  lemma {:induction false} PutAt(t: Tree, p: nat, x: u32, q: nat)
    requires t.Ok() && q <= p < SLOTS
    requires Distinct(Slots(t.v, t.disk, p), t.disk)
    ensures At(Put(t, p, x).v, Put(t, p, x).disk, q) == if q == p then x else At(t.v, t.disk, q)
  {
    var s := Slots(t.v, t.disk, p);
    if Stored(q) {
      PutAt(t, p, x, IndexPos(q));
      if Stored(p) {
        assert s[IndexPos(p)] == At(t.v, t.disk, IndexPos(p));
        assert s[IndexPos(q)] == At(t.v, t.disk, IndexPos(q));
        if p != q {
          StoredApart(p, q);
        }
        EntryAfterPut(t.disk, s[IndexPos(p)], EntryPos(p), x, s[IndexPos(q)], EntryPos(q));
      }
    }
  }

  /** Fill the slots from `p` on with `xs`. */
  function PutAll(t: Tree, p: nat, xs: seq<u32>): (r: Tree)
    requires t.Ok()
    ensures r.Ok() && |r.disk| == |t.disk| && r.v.size == t.v.size && r.v.isDir == t.v.isDir
  {
    if xs == [] then t
    else
      var n := |xs| - 1;
      Put(PutAll(t, p, xs[..n]), p + n, xs[n])
  }

  /** Is `id` one of the index blocks among `s`, a list of blocks in slot order? */
  ghost predicate IndexIn(s: seq<u32>, id: nat) {
    exists p :: 0 <= p < |s| && IsIndex(p) && s[p] == id
  }

  /** Filling the next slot appends its block to the list of slots, and writes to
      nothing but the index block that keeps the slot. */
  lemma PutAppends(t: Tree, p: nat, x: u32)
    requires t.Ok() && p < SLOTS
    requires Distinct(Slots(t.v, t.disk, p), t.disk)
    ensures var r := Put(t, p, x);
      && Slots(r.v, r.disk, p + 1) == Slots(t.v, t.disk, p) + [x]
      && forall id :: 0 <= id < |t.disk| && !IndexIn(Slots(t.v, t.disk, p), id) ==> r.disk[id] == t.disk[id]
  {
    var s := Slots(t.v, t.disk, p);
    forall q | 0 <= q <= p ensures At(Put(t, p, x).v, Put(t, p, x).disk, q) == (s + [x])[q] {
      PutAt(t, p, x, q);
    }
    if Stored(p) {
      assert s[IndexPos(p)] == At(t.v, t.disk, IndexPos(p));
    }
  }

  lemma IndexInPrefix(s: seq<u32>, n: nat, id: nat)
    requires n <= |s| && IndexIn(s[..n], id)
    ensures IndexIn(s, id)
  {
    var p :| 0 <= p < n && IsIndex(p) && s[..n][p] == id;
    assert s[p] == id;
  }

  /** Filling the slots after the first `p` with distinct fresh blocks appends
      exactly those blocks, and writes to nothing but index blocks. */
  lemma {:induction false} PutAllAppends(t: Tree, p: nat, xs: seq<u32>, s: seq<u32>)
    requires t.Ok() && p + |xs| <= SLOTS
    requires s == Slots(t.v, t.disk, p) + xs && Distinct(s, t.disk)
    ensures var r := PutAll(t, p, xs);
      && Slots(r.v, r.disk, p + |xs|) == s
      && forall id :: 0 <= id < |t.disk| && !IndexIn(s, id) ==> r.disk[id] == t.disk[id]
  {
    hide At, Put, IsIndex;
    if xs != [] {
      var n := |xs| - 1;
      PutAllAppends(t, p, xs[..n], s[..p + n]);
      var u := PutAll(t, p, xs[..n]);
      PutAppends(u, p + n, xs[n]);
      assert s == s[..p + n] + [xs[n]];
      forall id | 0 <= id < |t.disk| && !IndexIn(s, id) ensures !IndexIn(s[..p + n], id) {
        if IndexIn(s[..p + n], id) {
          IndexInPrefix(s, p + n, id);
        }
      }
    }
  }

  /** `disk'` has the same index blocks as `disk` among the first `n` slots. */
  ghost predicate SameIndex(v: Inode, disk: Disk, disk': Disk, n: nat)
    requires |v.direct| == 28
  {
    forall p {:trigger At(v, disk, p)} ::
      0 <= p < n && IsIndex(p) ==> BlockOf(disk', At(v, disk, p)) == BlockOf(disk, At(v, disk, p))
  }

  lemma {:induction false} AtFrame(v: Inode, disk: Disk, disk': Disk, n: nat, p: nat)
    requires |v.direct| == 28 && p < n && SameIndex(v, disk, disk', n)
    ensures At(v, disk', p) == At(v, disk, p)
  {
    if Stored(p) {
      AtFrame(v, disk, disk', n, IndexPos(p));
    }
  }

  /** The slots depend only on the inode and on its index blocks. */
  lemma SlotsFrame(v: Inode, disk: Disk, disk': Disk, n: nat)
    requires |v.direct| == 28 && SameIndex(v, disk, disk', n)
    ensures Slots(v, disk', n) == Slots(v, disk, n)
  {
    forall p | 0 <= p < n ensures At(v, disk', p) == At(v, disk, p) {
      AtFrame(v, disk, disk', n, p);
    }
  }

  /** Slot `p` has a place to be kept in: the inode itself, or an index block among the
      first `n` slots. */
  predicate Kept(p: nat, n: nat) {
    Stored(p) ==> IndexPos(p) < n
  }

  /** The slots after the first `n` hold no block id, as far as they have a place. */
  ghost predicate Tail(v: Inode, disk: Disk, n: nat)
    requires |v.direct| == 28
  {
    forall p {:trigger At(v, disk, p)} :: n <= p < SLOTS && Kept(p, n) ==> At(v, disk, p) == 0
  }

  lemma TailFrame(v: Inode, disk: Disk, disk': Disk, n: nat)
    requires |v.direct| == 28 && SameIndex(v, disk, disk', n) && Tail(v, disk, n)
    ensures Tail(v, disk', n)
  {
    forall p {:trigger At(v, disk', p)} | n <= p < SLOTS && Kept(p, n) ensures At(v, disk', p) == 0 {
      assert At(v, disk, p) == 0;
      if Stored(p) {
        AtFrame(v, disk, disk', n, IndexPos(p));
        hide At;
      }
    }
  }

  lemma ZeroEntry(disk: Disk, id: nat, k: nat)
    requires BlockOf(disk, id) == ZERO_BLOCK
    ensures Entry(disk, id, k) == 0
  {
    if k < 128 {
      LeNatOfZeros(ZERO_BLOCK[4 * k..4 * k + 4]);
    }
  }

  /** Filling slot `p` leaves a later slot as it is, if that has its place already. */
  lemma PutLater(t: Tree, p: nat, x: u32, q: nat)
    requires t.Ok() && p < q < SLOTS && Kept(q, p)
    requires Distinct(Slots(t.v, t.disk, p), t.disk)
    ensures At(Put(t, p, x).v, Put(t, p, x).disk, q) == At(t.v, t.disk, q)
  {
    var s := Slots(t.v, t.disk, p);
    if Stored(q) {
      PutAt(t, p, x, IndexPos(q));
      if Stored(p) {
        assert s[IndexPos(p)] == At(t.v, t.disk, IndexPos(p));
        assert s[IndexPos(q)] == At(t.v, t.disk, IndexPos(q));
        StoredApart(p, q);
        EntryAfterPut(t.disk, s[IndexPos(p)], EntryPos(p), x, s[IndexPos(q)], EntryPos(q));
      }
    }
  }

  /** The entries of a zeroed new index block are empty. */
  lemma PutIndex(t: Tree, p: nat, x: u32, q: nat)
    requires t.Ok() && p < q < SLOTS && Stored(q) && IndexPos(q) == p
    requires Distinct(Slots(t.v, t.disk, p) + [x], t.disk) && BlockOf(t.disk, x) == ZERO_BLOCK
    ensures At(Put(t, p, x).v, Put(t, p, x).disk, q) == 0
  {
    var s, r := Slots(t.v, t.disk, p), Put(t, p, x);
    assert Distinct(s, t.disk) by {
      assert forall i :: 0 <= i < p ==> (s + [x])[i] == s[i];
    }
    PutAt(t, p, x, p);
    if Stored(p) {
      assert s[IndexPos(p)] == At(t.v, t.disk, IndexPos(p));
      assert (s + [x])[IndexPos(p)] != (s + [x])[p];
    }
    assert BlockOf(r.disk, x) == ZERO_BLOCK;
    ZeroEntry(r.disk, x, EntryPos(q));
  }

  lemma PutTail(t: Tree, p: nat, x: u32)
    requires t.Ok() && p < SLOTS && Tail(t.v, t.disk, p)
    requires Distinct(Slots(t.v, t.disk, p) + [x], t.disk) && BlockOf(t.disk, x) == ZERO_BLOCK
    ensures Tail(Put(t, p, x).v, Put(t, p, x).disk, p + 1)
  {
    var s, r := Slots(t.v, t.disk, p), Put(t, p, x);
    assert Distinct(s, t.disk) by {
      assert forall i :: 0 <= i < p ==> (s + [x])[i] == s[i];
    }
    hide Put, At, Distinct;
    forall q {:trigger At(r.v, r.disk, q)} | p + 1 <= q < SLOTS && Kept(q, p + 1) ensures At(r.v, r.disk, q) == 0 {
      if Kept(q, p) {
        PutLater(t, p, x, q);
        assert At(t.v, t.disk, q) == 0;
      } else {
        PutIndex(t, p, x, q);
      }
    }
  }

  /** Filling slots with zeroed blocks leaves the later ones empty. */
  lemma {:induction false} PutAllTail(t: Tree, p: nat, xs: seq<u32>, s: seq<u32>)
    requires t.Ok() && p + |xs| <= SLOTS && Tail(t.v, t.disk, p)
    requires s == Slots(t.v, t.disk, p) + xs && Distinct(s, t.disk)
    requires forall x :: x in xs ==> BlockOf(t.disk, x) == ZERO_BLOCK
    ensures Tail(PutAll(t, p, xs).v, PutAll(t, p, xs).disk, p + |xs|)
  {
    hide At, Put, IsIndex, Tail, BlockOf;
    if xs != [] {
      var n := |xs| - 1;
      var s' := s[..p + n];
      DistinctPrefix(s, t.disk, p + n);
      assert s' == Slots(t.v, t.disk, p) + xs[..n];
      PutAllTail(t, p, xs[..n], s');
      PutAllAppends(t, p, xs[..n], s');
      var u := PutAll(t, p, xs[..n]);
      assert s == s' + [xs[n]];
      StillZero(s, t.disk, u.disk, p + n);
      assert xs[n] in xs;
      DistinctDisk(s, t.disk, u.disk);
      PutTail(u, p + n, xs[n]);
    }
  }

  lemma DistinctPrefix(s: seq<u32>, disk: Disk, n: nat)
    requires Distinct(s, disk) && n <= |s|
    ensures Distinct(s[..n], disk)
  {
  }

  lemma DistinctDisk(s: seq<u32>, disk: Disk, disk': Disk)
    requires Distinct(s, disk) && |disk'| == |disk|
    ensures Distinct(s, disk')
  {
  }

  /** Block `s[n]` is none of the index blocks before it. */
  lemma StillZero(s: seq<u32>, disk: Disk, disk': Disk, n: nat)
    requires Distinct(s, disk) && n < |s| && |disk'| == |disk|
    requires forall id :: 0 <= id < |disk| && !IndexIn(s[..n], id) ==> disk'[id] == disk[id]
    ensures BlockOf(disk', s[n]) == BlockOf(disk, s[n])
  {
    hide IsIndex;
    assert forall p :: 0 <= p < n ==> s[..n][p] == s[p] != s[n];
  }

  /** Byte `i` of the data blocks. */
  function ByteAt(v: Inode, disk: Disk, i: nat): byte
    requires |v.direct| == 28
  {
    BlockOf(disk, At(v, disk, Pos(i / 512)))[i % 512]
  }

  /** The inode's bytes are `c`, the rest of its last block is zero, and its unused slots
      are empty. */
  ghost predicate Holds(v: Inode, disk: Disk, c: seq<byte>) {
    && v.WellFormed()
    && v.size == |c|
    && Tail(v, disk, TotalBlocks(|c|))
    && forall i :: 0 <= i < 512 * DataBlocks(|c|) ==>
         ByteAt(v, disk, i) == if i < |c| then c[i] else 0
  }

  /** What an inode shows depends only on its own blocks. */
  lemma HoldsFrame(v: Inode, disk: Disk, disk': Disk, c: seq<byte>)
    requires Holds(v, disk, c)
    requires forall p :: 0 <= p < TotalBlocks(v.size) ==>
      BlockOf(disk', At(v, disk, p)) == BlockOf(disk, At(v, disk, p))
    ensures AllBlocks(v, disk') == AllBlocks(v, disk)
    ensures Holds(v, disk', c)
  {
    var n := TotalBlocks(v.size);
    SlotsFrame(v, disk, disk', n);
    TailFrame(v, disk, disk', n);
    hide Tail;
    forall i | 0 <= i < 512 * DataBlocks(|c|) ensures ByteAt(v, disk', i) == ByteAt(v, disk, i) {
      DataSlotInUse(v.size, i);
      assert Slots(v, disk', n)[Pos(i / 512)] == At(v, disk, Pos(i / 512));
    }
  }

  lemma DataSlotInUse(size: nat, i: nat)
    requires i < 512 * DataBlocks(size)
    ensures Pos(i / 512) < TotalBlocks(size) && !IsIndex(Pos(i / 512))
  {
    var n := DataBlocks(size);
    TotalIsLastPos(n);
    TotalIsLastPos(i / 512);
    if i / 512 < n - 1 {
      PosMonotone(i / 512, n - 1);
    }
  }

  lemma SlotBound(size: nat)
    requires size <= MAX_SIZE
    ensures TotalBlocks(size) <= SLOTS
  {
    TotalMonotone(DataBlocks(size), 16540);
  }

  lemma GrowByte(t: Tree, r: Tree, c: seq<byte>, newSize: nat, xs: seq<u32>, i: nat)
    requires Holds(t.v, t.disk, c) && r.Ok() && |r.disk| == |t.disk| && i < 512 * DataBlocks(newSize)
    requires TotalBlocks(|c|) + |xs| == TotalBlocks(newSize)
    requires Distinct(AllBlocks(t.v, t.disk) + xs, t.disk)
    requires forall x :: x in xs ==> BlockOf(t.disk, x) == ZERO_BLOCK
    requires Slots(r.v, r.disk, TotalBlocks(newSize)) == AllBlocks(t.v, t.disk) + xs
    requires forall id :: 0 <= id < |t.disk| && !IndexIn(AllBlocks(t.v, t.disk) + xs, id) ==> r.disk[id] == t.disk[id]
    ensures ByteAt(r.v, r.disk, i) == if i < |c| then c[i] else 0
  {
    hide At, TotalOf, Pos, IsIndex, Tail;
    var s, p := AllBlocks(t.v, t.disk) + xs, Pos(i / 512);
    DataSlotInUse(newSize, i);
    assert Slots(r.v, r.disk, TotalBlocks(newSize))[p] == s[p];
    NotIndexIn(s, t.disk, p);
    if i < 512 * DataBlocks(|c|) {
      DataSlotInUse(|c|, i);
      assert s[p] == At(t.v, t.disk, p);
      assert ByteAt(t.v, t.disk, i) == if i < |c| then c[i] else 0;
    } else {
      NewDataSlot(|c|, i);
      assert s[p] in xs;
    }
  }

  /** Growing with zeroed fresh blocks keeps the old bytes and shows zeros after
      them. */
  lemma GrowHolds(t: Tree, c: seq<byte>, newSize: u32, xs: seq<u32>)
    requires Holds(t.v, t.disk, c) && |c| <= newSize <= MAX_SIZE
    requires TotalBlocks(|c|) + |xs| == TotalBlocks(newSize)
    requires Distinct(AllBlocks(t.v, t.disk) + xs, t.disk)
    requires forall x :: x in xs ==> BlockOf(t.disk, x) == ZERO_BLOCK
    ensures var r := PutAll(t.(v := t.v.(size := newSize)), TotalBlocks(|c|), xs);
      && AllBlocks(r.v, r.disk) == AllBlocks(t.v, t.disk) + xs
      && Holds(r.v, r.disk, c + Zeros(newSize - |c|))
      && forall id :: 0 <= id < |t.disk| && !IndexIn(AllBlocks(t.v, t.disk) + xs, id) ==> r.disk[id] == t.disk[id]
  {
    hide At, TotalOf, DataBlocks, ByteAt, Distinct, IndexIn, PutAll, Tail;
    var u := t.(v := t.v.(size := newSize));
    var n := TotalBlocks(|c|);
    var s := AllBlocks(t.v, t.disk) + xs;
    SlotBound(newSize);
    assert Slots(u.v, u.disk, n) == Slots(t.v, t.disk, n) by {
      SlotsSize(t.v, t.disk, newSize, n);
    }
    TailSize(t.v, t.disk, newSize, n);
    PutAllAppends(u, n, xs, s);
    PutAllTail(u, n, xs, s);
    var r := PutAll(u, n, xs);
    var c' := c + Zeros(newSize - |c|);
    forall i | 0 <= i < 512 * DataBlocks(|c'|)
      ensures ByteAt(r.v, r.disk, i) == if i < |c'| then c'[i] else 0
    {
      GrowByte(t, r, c, newSize, xs, i);
    }
  }

  lemma {:induction false} AtSize(v: Inode, disk: Disk, size: u32, p: nat)
    requires |v.direct| == 28
    ensures At(v.(size := size), disk, p) == At(v, disk, p)
  {
    if Stored(p) {
      AtSize(v, disk, size, IndexPos(p));
    }
  }

  lemma SlotsSize(v: Inode, disk: Disk, size: u32, n: nat)
    requires |v.direct| == 28
    ensures Slots(v.(size := size), disk, n) == Slots(v, disk, n)
  {
    forall p | 0 <= p < n ensures At(v.(size := size), disk, p) == At(v, disk, p) {
      AtSize(v, disk, size, p);
    }
  }

  lemma TailSize(v: Inode, disk: Disk, size: u32, n: nat)
    requires |v.direct| == 28 && Tail(v, disk, n)
    ensures Tail(v.(size := size), disk, n)
  {
    hide At;
    var w := v.(size := size);
    forall p {:trigger At(w, disk, p)} | n <= p < SLOTS && Kept(p, n) ensures At(w, disk, p) == 0 {
      AtSize(v, disk, size, p);
      assert At(v, disk, p) == 0;
    }
  }

  lemma NotIndexIn(s: seq<u32>, disk: Disk, p: nat)
    requires Distinct(s, disk) && p < |s| && !IsIndex(p)
    ensures !IndexIn(s, s[p])
  {
  }

  /** A byte past the old data blocks lies in a slot past the old slots. */
  lemma NewDataSlot(size: nat, i: nat)
    requires i >= 512 * DataBlocks(size)
    ensures Pos(i / 512) >= TotalBlocks(size)
  {
    var n := DataBlocks(size);
    TotalIsLastPos(n);
    if n > 0 {
      PosMonotone(n - 1, i / 512);
    }
  }

  /** Bytes of one data block are bytes of the contents. */
  lemma BlockSlice(v: Inode, disk: Disk, c: seq<byte>, start: nat, n: nat)
    requires Holds(v, disk, c) && start % 512 + n <= 512 && start + n <= |c|
    ensures BlockOf(disk, At(v, disk, Pos(start / 512)))[start % 512..start % 512 + n] == c[start..start + n]
  {
    hide At, Pos;
    var x := BlockOf(disk, At(v, disk, Pos(start / 512)))[start % 512..start % 512 + n];
    var y := c[start..start + n];
    forall j | 0 <= j < n ensures x[j] == y[j] {
      assert (start + j) / 512 == start / 512 && (start + j) % 512 == start % 512 + j;
      assert ByteAt(v, disk, start + j) == c[start + j];
    }
  }

  /** Writing data blocks never changes the slots. */
  lemma DataWriteKeepsSlots(v: Inode, disk: Disk, p: nat, b: Block)
    requires |v.direct| == 28 && Distinct(AllBlocks(v, disk), disk)
    requires p < TotalBlocks(v.size) && !IsIndex(p)
    ensures AllBlocks(v, disk[AllBlocks(v, disk)[p] := b]) == AllBlocks(v, disk)
    ensures Tail(v, disk, TotalBlocks(v.size)) ==> Tail(v, disk[AllBlocks(v, disk)[p] := b], TotalBlocks(v.size))
  {
    hide At, TotalOf, IsIndex;
    var s := AllBlocks(v, disk);
    forall q | 0 <= q < |s| && IsIndex(q)
      ensures BlockOf(disk[s[p] := b], At(v, disk, q)) == BlockOf(disk, At(v, disk, q))
    {
      assert s[q] == At(v, disk, q) && s[q] != s[p];
    }
    SlotsFrame(v, disk, disk[s[p] := b], |s|);
    if Tail(v, disk, |s|) {
      TailFrame(v, disk, disk[s[p] := b], |s|);
    }
  }

  /** Copying `part` into one data block splices it into the contents. */
  lemma DataWriteHolds(v: Inode, disk: Disk, c: seq<byte>, start: nat, part: seq<byte>)
    requires Holds(v, disk, c) && Distinct(AllBlocks(v, disk), disk)
    requires start < 512 * DataBlocks(|c|) && start % 512 + |part| <= 512 && start + |part| <= |c|
    ensures Pos(start / 512) < TotalBlocks(v.size)
    ensures var id := AllBlocks(v, disk)[Pos(start / 512)];
      var disk' := disk[id := Splice(disk[id], start % 512, part)];
      AllBlocks(v, disk') == AllBlocks(v, disk) && Holds(v, disk', Splice(c, start, part))
  {
    hide At, TotalOf, IsIndex, Pos, Distinct, Tail;
    var s := AllBlocks(v, disk);
    var p := Pos(start / 512);
    DataSlotInUse(v.size, start);
    assert s[p] < |disk| by { DistinctAt(s, disk, p); }
    var disk' := disk[s[p] := Splice(disk[s[p]], start % 512, part)];
    DataWriteKeepsSlots(v, disk, p, disk'[s[p]]);
    var c' := Splice(c, start, part);
    forall i | 0 <= i < 512 * DataBlocks(|c|)
      ensures ByteAt(v, disk', i) == if i < |c| then c'[i] else 0
    {
      DataSlotInUse(v.size, i);
      var q := Pos(i / 512);
      assert AllBlocks(v, disk')[q] == s[q] == At(v, disk', q);
      assert ByteAt(v, disk, i) == if i < |c| then c[i] else 0;
      if i / 512 == start / 512 {
        assert i - start == i % 512 - start % 512;
      } else {
        PosInjective(i / 512, start / 512);
        DistinctPair(s, disk, p, q);
      }
    }
  }

  lemma PosInjective(m: nat, n: nat)
    requires m != n
    ensures Pos(m) != Pos(n)
  {
    if m < n {
      PosMonotone(m, n);
    } else {
      PosMonotone(n, m);
    }
  }

  lemma DistinctAt(s: seq<u32>, disk: Disk, p: nat)
    requires Distinct(s, disk) && p < |s|
    ensures s[p] < |disk|
  {
  }

  lemma DistinctPair(s: seq<u32>, disk: Disk, p: nat, q: nat)
    requires Distinct(s, disk) && p < |s| && q < |s| && p != q
    ensures s[p] != s[q]
  {
  }
}
