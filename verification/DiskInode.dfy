/** The operations of a disk inode (easy-fs/src/layout.rs), against the slots of
    its block tree. */
module DiskInodes {
  import opened Words
  import opened BlockCaches
  import opened InodeTree

  /** The blocks `s` are distinct, on the disk, and not held by anyone. */
  ghost predicate Usable(s: seq<u32>, disk: Disk, pins: multiset<nat>) {
    Distinct(s, disk) && forall i :: 0 <= i < |s| ==> s[i] !in pins
  }

  /** One more block taken from `xs`: the tree is filled by one more slot, and its
      earlier slots are the blocks of `s`. */
  lemma NextSlot(t: Tree, p: nat, xs: seq<u32>, s: seq<u32>, k: nat)
    requires t.Ok() && p + |xs| <= SLOTS && k <= |xs|
    requires s == Slots(t.v, t.disk, p) + xs && Distinct(s, t.disk)
    ensures k < |xs| ==> PutAll(t, p, xs[..k + 1]) == Put(PutAll(t, p, xs[..k]), p + k, xs[k])
    ensures var r := PutAll(t, p, xs[..k]);
            forall q {:trigger s[q]} :: 0 <= q < p + k ==> At(r.v, r.disk, q) == s[q]
  {
    if k < |xs| {
      assert xs[..k + 1][..k] == xs[..k];
    }
    PutAllAppends(t, p, xs[..k], s[..p + k]);
    var r := PutAll(t, p, xs[..k]);
    forall q | 0 <= q < p + k ensures At(r.v, r.disk, q) == s[q] {
      assert Slots(r.v, r.disk, p + k)[q] == s[..p + k][q];
    }
  }

  /** The fields of the inode that are not in use are zero. */
  lemma RootsEmpty(v: Inode, disk: Disk)
    requires |v.direct| == 28 && Tail(v, disk, TotalBlocks(v.size))
    ensures var n := DataBlocks(v.size);
      && (forall j :: n <= j < 28 ==> v.direct[j] == 0)
      && (n <= 28 ==> v.indirect1 == 0) && (n <= 156 ==> v.indirect2 == 0)
  {
    var n := DataBlocks(v.size);
    forall j | n <= j < 28 ensures v.direct[j] == 0 {
      assert At(v, disk, j) == 0;
    }
    assert n <= 28 ==> At(v, disk, 28) == 0;
    assert n <= 156 ==> At(v, disk, 157) == 0;
  }

  /** Where the slot of a doubly indirect data block is kept. */
  lemma Indirect2Path(inner: nat)
    requires inner >= 156
    ensures var last := inner - 156;
      var p, q := Pos(inner), 158 + last / 128 * 129;
      && Stored(p) && IndexPos(p) == q && EntryPos(p) == last % 128
      && Stored(q) && IndexPos(q) == 157 && EntryPos(q) == last / 128
  {
  }

  /** The block with inner id `inner`, one in use or the next one, looked up through index
      blocks that are in use; `q` is the slot of the low-level one on the way, if there is
      one. */
  lemma Lookup(v: Inode, disk: Disk, inner: nat) returns (q: nat, id: u32)
    requires v.WellFormed() && Reaches(v.size, inner)
    ensures id == At(v, disk, Pos(inner))
    ensures inner < 28 ==> id == v.direct[inner]
    ensures inner >= 28 ==> 28 < TotalBlocks(v.size) && AllBlocks(v, disk)[28] == v.indirect1
    ensures 28 <= inner < 156 ==> id == Entry(disk, v.indirect1, inner - 28)
    ensures inner >= 156 ==> 157 < TotalBlocks(v.size) && AllBlocks(v, disk)[157] == v.indirect2
    ensures inner >= 156 ==>
      && q < TotalBlocks(v.size) && inner < 16540
      && AllBlocks(v, disk)[q] == Entry(disk, v.indirect2, (inner - 156) / 128)
      && id == Entry(disk, AllBlocks(v, disk)[q], (inner - 156) % 128)
  {
    SlotReached(v.size, inner);
    q, id := 0, At(v, disk, Pos(inner));
    if 156 <= inner {
      Indirect2Path(inner);
      q := 158 + (inner - 156) / 128 * 129;
    }
  }

  /** A block that the lookup gets to through index blocks in use: one in use, or the
      next one where no index block comes first. */
  predicate Reaches(size: nat, inner: nat) {
    inner < DataBlocks(size) || (inner == DataBlocks(size) && NextIsData(inner))
  }

  lemma SlotReached(size: nat, inner: nat)
    requires Reaches(size, inner) && size <= MAX_SIZE
    ensures if inner < DataBlocks(size) then Pos(inner) < TotalBlocks(size) else Pos(inner) == TotalBlocks(size)
    ensures Kept(Pos(inner), TotalBlocks(size)) && inner < 16540 && Pos(inner) < SLOTS
  {
    if inner < DataBlocks(size) {
      InUse(size, inner);
      SlotBound(size);
    } else {
      NextSlotIs(inner);
    }
  }

  /** The next block of an inode, where no index block comes first, is looked up as block
      0: its slot is empty. */
  lemma NextIsZero(v: Inode, disk: Disk, c: seq<byte>)
    requires Holds(v, disk, c) && NextIsData(DataBlocks(|c|))
    ensures At(v, disk, Pos(DataBlocks(|c|))) == 0
  {
    hide At;
    SlotReached(v.size, DataBlocks(|c|));
  }

  /** Different inner ids are looked up as different blocks, and never as an index
      block of the inode. */
  lemma LookupInjective(v: Inode, disk: Disk, m: nat, n: nat)
    requires v.WellFormed() && Distinct(AllBlocks(v, disk), disk)
    requires m < n < DataBlocks(v.size)
    ensures Pos(m) < Pos(n) < TotalBlocks(v.size)
    ensures var s := AllBlocks(v, disk);
      && s[Pos(m)] != s[Pos(n)] && !IndexIn(s, s[Pos(m)]) && !IndexIn(s, s[Pos(n)])
  {
    hide At, Pos, IsIndex, Distinct, TotalOf, IndexIn;
    var s := AllBlocks(v, disk);
    InUse(v.size, m);
    InUse(v.size, n);
    PosMonotone(m, n);
    SlotsApart(s, disk, Pos(m), Pos(n));
  }

  lemma InUse(size: nat, n: nat)
    requires n < DataBlocks(size)
    ensures Pos(n) < TotalBlocks(size) && !IsIndex(Pos(n))
  {
    assert n * 512 / 512 == n;
    DataSlotInUse(size, n * 512);
  }

  lemma SlotsApart(s: seq<u32>, disk: Disk, p: nat, q: nat)
    requires Distinct(s, disk) && p < q < |s| && !IsIndex(p) && !IsIndex(q)
    ensures s[p] != s[q] && !IndexIn(s, s[p]) && !IndexIn(s, s[q])
  {
    NotIndexIn(s, disk, p);
    NotIndexIn(s, disk, q);
  }

  /** What a write needs: a write of `len` bytes grows the inode and then looks up the
      block of its first byte, even when there is none. */
  predicate Writable(size: nat, offset: nat, len: nat) {
    len > 0 || offset % 512 != 0 || offset < size || NextIsData(offset / 512)
  }

  /** That block is in use exactly when the write is not an empty one at a block boundary
      at or past the end.  The lookup of such a write goes through blocks in use, and
      ends at block 0, exactly when no index block comes first. */
  lemma EmptyWriteLookup(size: nat, offset: nat, len: nat)
    ensures var grown := if offset + len > size then offset + len else size;
      && (offset / 512 < DataBlocks(grown) <==> len > 0 || offset % 512 != 0 || offset < size)
      && (Reaches(grown, offset / 512) <==> Writable(size, offset, len))
  {
    var grown := if offset + len > size then offset + len else size;
    assert offset == offset / 512 * 512 + offset % 512;
    assert DataBlocks(grown) * 512 >= grown > DataBlocks(grown) * 512 - 512;
  }

  lemma AtDirect(v: Inode, disk: Disk, p: nat)
    requires |v.direct| == 28 && p < 28
    ensures At(v, disk, p) == v.direct[p]
  {
  }

  lemma AtRoots(v: Inode, disk: Disk)
    requires |v.direct| == 28
    ensures At(v, disk, 28) == v.indirect1 && At(v, disk, 157) == v.indirect2
  {
  }

  lemma PutRoots(t: Tree, x: u32)
    requires t.Ok()
    ensures Put(t, 28, x) == t.(v := t.v.(indirect1 := x))
    ensures Put(t, 157, x) == t.(v := t.v.(indirect2 := x))
  {
  }

  lemma AtSub(v: Inode, disk: Disk, a: nat)
    requires |v.direct| == 28
    ensures At(v, disk, 158 + 129 * a) == Entry(disk, v.indirect2, a)
  {
    var q := 158 + 129 * a;
    assert IndexPos(q) == 157 && EntryPos(q) == a;
  }

  /** The first `n` entries of index block `id`. */
  function Entries(disk: Disk, id: nat, n: nat): (r: seq<u32>)
    ensures |r| == n
    ensures forall j {:trigger r[j]} :: 0 <= j < n ==> r[j] == Entry(disk, id, j)
  {
    seq(n, (j: nat) => Entry(disk, id, j))
  }

  lemma Indirect1Entries(v: Inode, disk: Disk, s: seq<u32>, n: nat)
    requires |v.direct| == 28 && s == Slots(v, disk, |s|) && 29 + n <= |s| && n <= 128
    ensures Entries(disk, v.indirect1, n) == s[29..29 + n]
  {
    AtRoots(v, disk);
    forall j | 0 <= j < n ensures Entry(disk, v.indirect1, j) == s[29..29 + n][j] {
      AtStored(v, disk, 29 + j, 28, j);
      assert s[29 + j] == At(v, disk, 29 + j);
    }
  }

  lemma AtStored(v: Inode, disk: Disk, p: nat, q: nat, k: nat)
    requires |v.direct| == 28 && Stored(p) && IndexPos(p) == q && EntryPos(p) == k
    ensures At(v, disk, p) == Entry(disk, At(v, disk, q), k)
  {
  }

  lemma SubEntryPos(a: nat, j: nat)
    requires j < 128
    ensures var q := 158 + 129 * a;
      Stored(q + 1 + j) && IndexPos(q + 1 + j) == q && EntryPos(q + 1 + j) == j
  {
  }

  lemma SubEntries(v: Inode, disk: Disk, s: seq<u32>, a: nat, q: nat, n: nat)
    requires |v.direct| == 28 && s == Slots(v, disk, |s|) && q + 1 + n <= |s| && n <= 128
    requires q == 158 + 129 * a
    ensures Entries(disk, s[q], n) == s[q + 1..q + 1 + n]
  {
    hide At, IndexPos, EntryPos;
    forall j | 0 <= j < n ensures Entry(disk, s[q], j) == s[q + 1..q + 1 + n][j] {
      SubEntryPos(a, j);
      AtStored(v, disk, q + 1 + j, q, j);
      assert s[q + 1 + j] == At(v, disk, q + 1 + j);
    }
  }

  lemma SlotAt(v: Inode, disk: Disk, s: seq<u32>, p: nat)
    requires |v.direct| == 28 && s == Slots(v, disk, |s|) && p < |s|
    ensures s[p] == At(v, disk, p)
  {
  }

  lemma HoldsFacts(v: Inode, disk: Disk, c: seq<byte>)
    requires Holds(v, disk, c)
    ensures v.WellFormed() && v.size == |c|
    ensures forall off :: 0 <= off <= |c| ==> Splice(c, off, []) == c
  {
  }

  lemma UsableAt(s: seq<u32>, disk: Disk, pins: multiset<nat>, i: nat)
    requires Usable(s, disk, pins) && i < |s|
    ensures s[i] < |disk| && s[i] !in pins
  {
  }

  /** The first slot still empty when the doubly indirect blocks are filled up to
      entry `b` of low-level index block `a`. */
  function SubPos(a: nat, b: nat): nat {
    158 + 129 * a + (if b == 0 then 0 else 1 + b)
  }

  lemma SubTotal(n: nat)
    ensures SubPos(n / 128, n % 128) == if n == 0 then 158 else TotalOf(156 + n)
  {
  }

  /** Where the block of byte `start` ends. */
  lemma BlockEnd(start: nat)
    ensures var next := (start / 512 + 1) * 512;
      && start < next && start % 512 + (next - start) == 512
      && next / 512 == start / 512 + 1
  {
  }

  lemma SlicesJoin(s: seq<byte>, i: nat, j: nat, k: nat)
    requires i <= j <= k <= |s|
    ensures s[i..j] + s[j..k] == s[i..k]
  {
  }

  lemma PrefixSlice(s: seq<byte>, n: nat, i: nat, j: nat)
    requires i <= j <= n <= |s|
    ensures s[..n][i..j] == s[i..j]
  {
  }

  /** Read entry `k` of index block `id`. */
  method ReadEntry(cache: BlockCacheManager, id: nat, k: nat) returns (x: u32)
    requires cache.Valid() && |cache.pins| < MAX_PINS
    requires id < |cache.view| && id !in cache.pins && k < 128
    modifies cache
    ensures cache.Valid() && cache.pins == old(cache.pins) && cache.view == old(cache.view)
    ensures x == Entry(cache.view, id, k) && (old(cache.Clean()) ==> cache.Clean())
  {
    var b := cache.ReadBlock(id);
    x := U32At(b, k);
  }

  class DiskInode {
    var size: u32
    var direct: seq<u32>
    var indirect1: u32
    var indirect2: u32
    var isDir: bool

    function Val(): Inode
      reads this
    {
      Inode(size, direct, indirect1, indirect2, isDir)
    }

    constructor (v: Inode)
      ensures Val() == v
    {
      size, direct, indirect1, indirect2, isDir := v.size, v.direct, v.indirect1, v.indirect2, v.isDir;
    }

    /** The block with inner id `inner`, found through the index blocks. */
    method GetBlockId(inner: nat, cache: BlockCacheManager) returns (id: u32)
      requires cache.Valid() && |cache.pins| < MAX_PINS
      requires Val().WellFormed() && Reaches(size, inner)
      requires Usable(AllBlocks(Val(), cache.view), cache.view, cache.pins)
      modifies cache
      ensures cache.Valid() && cache.pins == old(cache.pins) && cache.view == old(cache.view)
      ensures old(cache.Clean()) ==> cache.Clean()
      ensures id == At(Val(), cache.view, Pos(inner))
      ensures inner < DataBlocks(size) ==> Pos(inner) < TotalBlocks(size) && id == AllBlocks(Val(), cache.view)[Pos(inner)]
    {
      SlotReached(size, inner);
      ghost var q, found := Lookup(Val(), cache.view, inner);
      hide At, Entry, Pos, U32At, TotalOf, Usable, Slots, DataBlocks, Queued, Counted, Coherent;
      if inner < 28 {
        id := direct[inner];
      } else if inner < 156 {
        UsableAt(AllBlocks(Val(), cache.view), cache.view, cache.pins, 28);
        id := ReadEntry(cache, indirect1, inner - 28);
      } else {
        id := ReadSubEntry(inner - 156, q, cache);
      }
      assert id == found;
    }

    /** Entry `last` of the doubly indirect blocks; `q` is the slot of the low-level index
        block on the way. */
    method ReadSubEntry(last: nat, ghost q: nat, cache: BlockCacheManager) returns (id: u32)
      requires cache.Valid() && |cache.pins| < MAX_PINS && |direct| == 28 && last < 128 * 128
      requires Usable(AllBlocks(Val(), cache.view), cache.view, cache.pins)
      requires 157 < TotalBlocks(size) && q < TotalBlocks(size)
      requires AllBlocks(Val(), cache.view)[157] == indirect2
      requires AllBlocks(Val(), cache.view)[q] == Entry(cache.view, indirect2, last / 128)
      modifies cache
      ensures cache.Valid() && cache.pins == old(cache.pins) && cache.view == old(cache.view)
      ensures old(cache.Clean()) ==> cache.Clean()
      ensures id == Entry(cache.view, Entry(cache.view, indirect2, last / 128), last % 128)
    {
      hide At, Entry, U32At, TotalOf, Distinct, Queued, Counted, Coherent;
      UsableAt(AllBlocks(Val(), cache.view), cache.view, cache.pins, 157);
      UsableAt(AllBlocks(Val(), cache.view), cache.view, cache.pins, q);
      var sub := ReadEntry(cache, indirect2, last / 128);
      id := ReadEntry(cache, sub, last % 128);
    }

    /** Fill direct slots from `current` up to `total` or 28. */
    method FillDirect(current0: nat, total: nat, xs: seq<u32>, ghost t: Tree, cache: BlockCacheManager)
      returns (current: nat, next: nat)
      requires Val().WellFormed() && Tree(Val(), cache.view) == t
      requires current0 <= total && (current0 <= 28 ==> TotalOf(total) <= current0 + |xs|)
      modifies this`direct
      ensures current == (if current0 < 28 then if total < 28 then total else 28 else current0)
      ensures next <= |xs| && next == current - current0
      ensures Tree(Val(), cache.view) == PutAll(t, TotalOf(current0), xs[..next])
    {
      current, next := current0, 0;
      while current < total && current < 28
        invariant current0 <= current <= total && (current0 <= 28 ==> current <= 28)
        invariant current0 > 28 ==> current == current0
        invariant next == current - current0 && next <= |xs| && |direct| == 28
        invariant Tree(Val(), cache.view) == PutAll(t, TotalOf(current0), xs[..next])
      {
        assert xs[..next + 1][..next] == xs[..next];
        direct := direct[current := xs[next]];
        current, next := current + 1, next + 1;
      }
    }

    /** The first `k` of the new blocks `xs` are in the slots after the first `p`. */
    ghost predicate Filled(t: Tree, p: nat, xs: seq<u32>, k: nat, cache: BlockCacheManager)
      requires t.Ok() && k <= |xs|
      reads this, cache
    {
      Tree(Val(), cache.view) == PutAll(t, p, xs[..k])
    }

    /** Put the next new block in as entry `k` of the indirect1 block. */
    method PutIndirect1(k: nat, xs: seq<u32>, next: nat,
                        ghost t: Tree, ghost p: nat, ghost s: seq<u32>, cache: BlockCacheManager)
      requires cache.Valid() && indirect1 in cache.pins
      requires t.Ok() && p + |xs| <= SLOTS && s == Slots(t.v, t.disk, p) + xs && Distinct(s, t.disk)
      requires next < |xs| && Filled(t, p, xs, next, cache)
      requires k < 128 && p + next == 29 + k
      modifies cache
      ensures cache.Valid() && cache.pins == old(cache.pins)
      ensures Filled(t, p, xs, next + 1, cache)
    {
      hide Queued, Counted, Coherent, At, SetU32, PutAll, Slots;
      NextSlot(t, p, xs, s, next);
      assert IndexPos(p + next) == 28 && EntryPos(p + next) == k;
      AtRoots(Val(), cache.view);
      var b := cache.Read(indirect1);
      cache.Modify(indirect1, SetU32(b, k, xs[next]));
    }

    /** Fill entries of the indirect1 block from `current0` up to `total` or 128. */
    method FillIndirect1(current0: nat, total: nat, xs: seq<u32>, next0: nat,
                         ghost t: Tree, ghost p: nat, ghost s: seq<u32>, cache: BlockCacheManager)
      returns (current: nat, next: nat)
      requires cache.Valid() && |cache.pins| < MAX_PINS
      requires t.Ok() && p + |xs| <= SLOTS && s == Slots(t.v, t.disk, p) + xs
      requires Usable(s, t.disk, cache.pins)
      requires next0 <= |xs| && Filled(t, p, xs, next0, cache)
      requires current0 <= total && p + next0 >= 29
      requires current0 < 128 ==> p + next0 == 29 + current0
      requires current0 < 128 ==> (if total < 128 then total else 128) - current0 <= |xs| - next0
      modifies cache
      ensures cache.Valid() && cache.pins == old(cache.pins)
      ensures current == if current0 < 128 then if total < 128 then total else 128 else current0
      ensures next == next0 + current - current0 <= |xs| && Filled(t, p, xs, next, cache)
    {
      hide Queued, Counted, Coherent, At, SetU32, PutAll, Slots;
      current, next := current0, next0;
      NextSlot(t, p, xs, s, next);
      assert At(Val(), cache.view, 28) == s[28];
      assert indirect1 == s[28] by { AtRoots(Val(), cache.view); }
      cache.Acquire(indirect1);
      while current < total && current < 128
        invariant current0 <= current <= total && (current0 <= 128 ==> current <= 128)
        invariant current0 >= 128 ==> current == current0
        invariant next == next0 + current - current0 && next <= |xs|
        invariant cache.Valid() && cache.pins == old(cache.pins) + multiset{indirect1}
        invariant Filled(t, p, xs, next, cache)
      {
        PutIndirect1(current, xs, next, t, p, s, cache);
        current, next := current + 1, next + 1;
      }
      cache.DropHandle(indirect1);
    }

    /** Put the next new block in as low-level index block `a`. */
    method PutSub(a: nat, xs: seq<u32>, next: nat,
                  ghost t: Tree, ghost p: nat, ghost s: seq<u32>, cache: BlockCacheManager)
      requires cache.Valid() && indirect2 in cache.pins
      requires t.Ok() && p + |xs| <= SLOTS && s == Slots(t.v, t.disk, p) + xs && Distinct(s, t.disk)
      requires next < |xs| && Filled(t, p, xs, next, cache)
      requires a < 128 && p + next == 158 + 129 * a
      modifies cache
      ensures cache.Valid() && cache.pins == old(cache.pins)
      ensures Filled(t, p, xs, next + 1, cache)
    {
      hide Queued, Counted, Coherent, At, SetU32, PutAll;
      NextSlot(t, p, xs, s, next);
      assert IndexPos(p + next) == 157 && EntryPos(p + next) == a;
      AtRoots(Val(), cache.view);
      var b := cache.Read(indirect2);
      cache.Modify(indirect2, SetU32(b, a, xs[next]));
    }

    /** Put the next new block in as entry `b` of low-level index block `a`. */
    method PutSubEntry(a: nat, b: nat, xs: seq<u32>, next: nat, ghost outer: multiset<nat>,
                       ghost t: Tree, ghost p: nat, ghost s: seq<u32>, cache: BlockCacheManager)
      requires cache.Valid() && cache.pins == outer + multiset{indirect2} && |outer| + 1 < MAX_PINS
      requires t.Ok() && p + |xs| <= SLOTS && s == Slots(t.v, t.disk, p) + xs
      requires Usable(s, t.disk, outer)
      requires next < |xs| && Filled(t, p, xs, next, cache)
      requires a < 128 && b < 128 && p + next == 159 + 129 * a + b
      modifies cache
      ensures cache.Valid() && cache.pins == old(cache.pins)
      ensures Filled(t, p, xs, next + 1, cache)
    {
      hide Queued, Counted, Coherent, At, SetU32, PutAll;
      ghost var q := 158 + 129 * a;
      NextSlot(t, p, xs, s, next);
      assert IndexPos(p + next) == q && EntryPos(p + next) == b;
      var b2 := cache.Read(indirect2);
      var sub := U32At(b2, a);
      assert sub == s[q] by { AtSub(Val(), cache.view, a); }
      assert indirect2 == s[157] by { AtRoots(Val(), cache.view); }
      UsableAt(s, t.disk, outer, q);
      DistinctPair(s, t.disk, 157, q);
      hide Distinct, Slots;
      StoreEntry(sub, b, xs[next], cache);
    }

    /** Lock block `id`, set entry `k` of it and let it go. */
    method StoreEntry(id: nat, k: nat, x: u32, cache: BlockCacheManager)
      requires cache.Valid() && |cache.pins| < MAX_PINS && id < |cache.view| && id !in cache.pins && k < 128
      modifies cache
      ensures cache.Valid() && cache.pins == old(cache.pins) && cache.view == PutEntry(old(cache.view), id, k, x)
    {
      hide Queued, Counted, Coherent, SetU32;
      cache.Acquire(id);
      var b := cache.Read(id);
      cache.Modify(id, SetU32(b, k, x));
      cache.DropHandle(id);
      assert cache.pins == old(cache.pins);
    }

    /** Fill the doubly indirect blocks from the pair (`a`, `b`) of quotient and
        remainder of `current` up to that of `total`. */
    method FillIndirect2(current: nat, total: nat, xs: seq<u32>, next0: nat,
                         ghost t: Tree, ghost p: nat, ghost s: seq<u32>, cache: BlockCacheManager)
      requires cache.Valid() && |cache.pins| + 1 < MAX_PINS
      requires t.Ok() && p + |xs| <= SLOTS && s == Slots(t.v, t.disk, p) + xs
      requires Usable(s, t.disk, cache.pins)
      requires next0 <= |xs| && Filled(t, p, xs, next0, cache)
      requires current <= total <= 128 * 128
      requires p + next0 == SubPos(current / 128, current % 128)
      requires p + |xs| == SubPos(total / 128, total % 128)
      modifies cache
      ensures cache.Valid() && cache.pins == old(cache.pins)
      ensures Filled(t, p, xs, |xs|, cache)
    {
      hide Queued, Counted, Coherent, At, PutAll, Distinct, Slots;
      var next := next0;
      var a0: nat, b0: nat := current / 128, current % 128;
      var a1: nat, b1: nat := total / 128, total % 128;
      NextSlot(t, p, xs, s, next);
      assert indirect2 == s[157] by { AtRoots(Val(), cache.view); }
      UsableAt(s, t.disk, cache.pins, 157);
      cache.Acquire(indirect2);
      FillSubs(a0, b0, a1, b1, xs, next, old(cache.pins), t, p, s, cache);
      cache.DropHandle(indirect2);
    }

    method FillSubs(i: nat, j: nat, a1: nat, b1: nat, xs: seq<u32>, next0: nat, ghost outer: multiset<nat>,
                    ghost t: Tree, ghost p: nat, ghost s: seq<u32>, cache: BlockCacheManager)
      requires cache.Valid() && cache.pins == outer + multiset{indirect2} && |outer| + 1 < MAX_PINS
      requires t.Ok() && p + |xs| <= SLOTS && s == Slots(t.v, t.disk, p) + xs
      requires Usable(s, t.disk, outer)
      requires next0 <= |xs| && Filled(t, p, xs, next0, cache)
      requires j < 128 && b1 < 128 && (i < a1 || (i == a1 && j <= b1))
      requires p + next0 == SubPos(i, j) && p + |xs| == SubPos(a1, b1)
      modifies cache
      ensures cache.Valid() && cache.pins == old(cache.pins)
      ensures Filled(t, p, xs, |xs|, cache)
    {
      hide Queued, Counted, Coherent, At, PutAll, Distinct, Slots;
      var next: nat, a0: nat, b0: nat := next0, i, j;
      while a0 < a1 || (a0 == a1 && b0 < b1)
        invariant a0 < a1 || (a0 == a1 && b0 <= b1)
        invariant b0 < 128 && next <= |xs| && p + next == SubPos(a0, b0)
        invariant cache.Valid() && cache.pins == old(cache.pins)
        invariant Filled(t, p, xs, next, cache)
        decreases a1 - a0, 128 - b0
      {
        assert SubPos(a0, b0) + (if b0 == 0 then 2 else 1) <= SubPos(a1, b1);
        if b0 == 0 {
          PutSub(a0, xs, next, t, p, s, cache);
          next := next + 1;
        }
        PutSubEntry(a0, b0, xs, next, outer, t, p, s, cache);
        next := next + 1;
        b0 := b0 + 1;
        if b0 == 128 {
          a0, b0 := a0 + 1, 0;
        }
      }
    }

    /** Grow to `newSize`, filling the slots from the first free one on with `xs`. */
    method FillSlots(newSize: u32, xs: seq<u32>, cache: BlockCacheManager)
      requires cache.Valid() && |cache.pins| + 1 < MAX_PINS
      requires Val().WellFormed() && size <= newSize <= MAX_SIZE
      requires TotalBlocks(size) + |xs| == TotalBlocks(newSize)
      requires Usable(AllBlocks(Val(), cache.view) + xs, cache.view, cache.pins)
      modifies this, cache
      ensures cache.Valid() && cache.pins == old(cache.pins)
      ensures Tree(Val(), cache.view) ==
        PutAll(Tree(old(Val()).(size := newSize), old(cache.view)), TotalBlocks(old(size)), xs)
    {
      hide Queued, Counted, Coherent, At, Distinct, Put, PutAll;
      ghost var p := TotalBlocks(size);
      ghost var s := AllBlocks(Val(), cache.view) + xs;
      var current: nat := DataBlocks(size);
      SlotsSize(Val(), cache.view, newSize, p);
      size := newSize;
      var total: nat := DataBlocks(size);
      ghost var t := Tree(Val(), cache.view);
      SlotBound(newSize);
      var next: nat;
      current, next := FillDirect(current, total, xs, t, cache);
      if total <= 28 {
        assert xs[..next] == xs;
        return;
      }
      if current == 28 {
        NextSlot(t, p, xs, s, next);
        PutRoots(Tree(Val(), cache.view), xs[next]);
        indirect1, next := xs[next], next + 1;
      }
      current, total := current - 28, total - 28;
      current, next := FillIndirect1(current, total, xs, next, t, p, s, cache);
      if total <= 128 {
        assert xs[..next] == xs;
        return;
      }
      FillRest(current, total, xs, next, t, p, s, cache);
      assert xs[..|xs|] == xs;
    }

    /** The indirect2 block, if it is new, and what it leads to. */
    method FillRest(current: nat, total: nat, xs: seq<u32>, next0: nat,
                    ghost t: Tree, ghost p: nat, ghost s: seq<u32>, cache: BlockCacheManager)
      requires cache.Valid() && |cache.pins| + 1 < MAX_PINS
      requires t.Ok() && p + |xs| <= SLOTS && s == Slots(t.v, t.disk, p) + xs
      requires Usable(s, t.disk, cache.pins)
      requires next0 <= |xs| && Filled(t, p, xs, next0, cache)
      requires 128 <= current <= total && 128 < total <= 128 + 128 * 128
      requires p + next0 == if current == 128 then 157 else TotalOf(current + 28)
      requires p + |xs| == TotalOf(total + 28)
      modifies this`indirect2, cache
      ensures cache.Valid() && cache.pins == old(cache.pins) && Filled(t, p, xs, |xs|, cache)
    {
      hide Queued, Counted, Coherent, At, Distinct, Put, PutAll, Slots;
      var next := next0;
      if current == 128 {
        NextSlot(t, p, xs, s, next);
        PutRoots(Tree(Val(), cache.view), xs[next]);
        indirect2, next := xs[next], next + 1;
      }
      SubTotal(current - 128);
      SubTotal(total - 128);
      hide TotalOf;
      FillIndirect2(current - 128, total - 128, xs, next, t, p, s, cache);
    }

    /** Grow to `newSize` with the blocks `xs`.  The block list of the inode is
        extended by exactly `xs`: every old slot keeps its block, every new block
        is used, and none is missing.  With zeroed new blocks the inode shows its
        old bytes followed by zeros.  Only index blocks are written. */
    method IncreaseSize(newSize: u32, xs: seq<u32>, cache: BlockCacheManager, ghost c: seq<byte>)
      requires cache.Valid() && |cache.pins| + 1 < MAX_PINS
      requires Holds(Val(), cache.view, c) && size <= newSize <= MAX_SIZE
      requires TotalBlocks(size) + |xs| == TotalBlocks(newSize)
      requires Usable(AllBlocks(Val(), cache.view) + xs, cache.view, cache.pins)
      requires forall x :: x in xs ==> BlockOf(cache.view, x) == ZERO_BLOCK
      modifies this, cache
      ensures cache.Valid() && cache.pins == old(cache.pins) && isDir == old(isDir)
      ensures |cache.view| == |old(cache.view)| && |direct| == 28
      ensures AllBlocks(Val(), cache.view) == old(AllBlocks(Val(), cache.view)) + xs
      ensures Holds(Val(), cache.view, c + Zeros(newSize - |c|))
      ensures forall id :: 0 <= id < |cache.view| && !IndexIn(AllBlocks(Val(), cache.view), id) ==>
        cache.view[id] == old(cache.view)[id]
    {
      hide Queued, Counted, Coherent, At, Distinct, PutAll, TotalOf, DataBlocks, IndexIn, Slots;
      GrowHolds(Tree(Val(), cache.view), c, newSize, xs);
      FillSlots(newSize, xs, cache);
    }

    /** Append the first `n` entries of index block `id`. */
    method PushEntries(id: nat, n: nat, v0: seq<u32>, cache: BlockCacheManager) returns (v: seq<u32>)
      requires cache.Valid() && |cache.pins| < MAX_PINS
      requires id < |cache.view| && id !in cache.pins && n <= 128
      modifies cache
      ensures cache.Valid() && cache.pins == old(cache.pins) && cache.view == old(cache.view)
      ensures v == v0 + Entries(cache.view, id, n)
    {
      hide Queued, Counted, Coherent, U32At;
      v := v0;
      cache.Acquire(id);
      var b := cache.Read(id);
      cache.Modify(id, b);
      assert cache.view == old(cache.view);
      var j := 0;
      while j < n
        invariant 0 <= j <= n
        invariant v == v0 + Entries(cache.view, id, j)
      {
        assert Entries(cache.view, id, j + 1) == Entries(cache.view, id, j) + [U32At(b, j)];
        v := v + [U32At(b, j)];
        j := j + 1;
      }
      cache.DropHandle(id);
    }

    /** Append low-level index block `a` and its first `n` entries. */
    method PushSub(a: nat, n: nat, v0: seq<u32>, ghost outer: multiset<nat>,
                   ghost u: Inode, ghost s: seq<u32>, cache: BlockCacheManager)
      returns (v: seq<u32>)
      requires cache.Valid() && cache.pins == outer + multiset{indirect2} && |outer| + 1 < MAX_PINS
      requires |u.direct| == 28 && u.indirect2 == indirect2 && s == Slots(u, cache.view, |s|)
      requires Usable(s, cache.view, outer)
      requires a < 128 && n <= 128 && 159 + 129 * a + n <= |s| && v0 == s[..158 + 129 * a]
      modifies cache
      ensures cache.Valid() && cache.pins == old(cache.pins) && cache.view == old(cache.view)
      ensures v == s[..159 + 129 * a + n]
    {
      hide Queued, Counted, Coherent, At, Entries;
      var b := cache.Read(indirect2);
      var sub := U32At(b, a);
      ghost var q := 158 + 129 * a;
      assert sub == s[q] by { AtSub(u, cache.view, a); }
      assert indirect2 == s[157] by { AtRoots(u, cache.view); }
      SubEntries(u, cache.view, s, a, q, n);
      v := PushEntries(sub, n, v0 + [sub], cache);
    }

    /** Append the first `n` entries of the indirect1 block. */
    method PushIndirect1(n: nat, v0: seq<u32>, ghost u: Inode, ghost s: seq<u32>, cache: BlockCacheManager)
      returns (v: seq<u32>)
      requires cache.Valid() && |cache.pins| < MAX_PINS
      requires |u.direct| == 28 && u.indirect1 == indirect1 && s == Slots(u, cache.view, |s|)
      requires Usable(s, cache.view, cache.pins)
      requires n <= 128 && 29 + n <= |s| && v0 == s[..29]
      modifies cache
      ensures cache.Valid() && cache.pins == old(cache.pins) && cache.view == old(cache.view)
      ensures v == s[..29 + n]
    {
      hide Queued, Counted, Coherent, At, Entries;
      AtRoots(u, cache.view);
      Indirect1Entries(u, cache.view, s, n);
      assert indirect1 == s[28];
      v := PushEntries(indirect1, n, v0, cache);
    }

    /** Append the blocks behind the indirect2 block: `a1` full low-level index
        blocks with their entries, then one with `b1` entries. */
    method PushIndirect2(blocks: nat, v0: seq<u32>, ghost u: Inode, ghost s: seq<u32>, cache: BlockCacheManager)
      returns (v: seq<u32>)
      requires cache.Valid() && |cache.pins| + 1 < MAX_PINS
      requires |u.direct| == 28 && u.indirect2 == indirect2 && s == Slots(u, cache.view, |s|)
      requires Usable(s, cache.view, cache.pins)
      requires blocks <= 128 * 128 && |s| == SubPos(blocks / 128, blocks % 128) && v0 == s[..158]
      modifies cache
      ensures cache.Valid() && cache.pins == old(cache.pins) && cache.view == old(cache.view)
      ensures v == s
    {
      hide Queued, Counted, Coherent, At, Distinct, Slots;
      v := v0;
      var a1: nat, b1: nat := blocks / 128, blocks % 128;
      assert indirect2 == s[157] by { AtRoots(u, cache.view); SlotAt(u, cache.view, s, 157); }
      UsableAt(s, cache.view, cache.pins, 157);
      cache.Acquire(indirect2);
      var b2 := cache.Read(indirect2);
      cache.Modify(indirect2, b2);
      assert cache.view == old(cache.view);
      v := PushSubs(a1, b1, v, old(cache.pins), u, s, cache);
      cache.DropHandle(indirect2);
    }

    /** The low-level index blocks: `a1` full ones, and one of `b1` entries. */
    method PushSubs(a1: nat, b1: nat, v0: seq<u32>, ghost outer: multiset<nat>, ghost u: Inode, ghost s: seq<u32>,
                    cache: BlockCacheManager) returns (v: seq<u32>)
      requires cache.Valid() && cache.pins == outer + multiset{indirect2} && |outer| + 1 < MAX_PINS
      requires |u.direct| == 28 && u.indirect2 == indirect2 && s == Slots(u, cache.view, |s|)
      requires Usable(s, cache.view, outer)
      requires b1 < 128 && |s| == SubPos(a1, b1) <= SLOTS && v0 == s[..158]
      modifies cache
      ensures cache.Valid() && cache.pins == old(cache.pins) && cache.view == old(cache.view)
      ensures v == s
    {
      hide Queued, Counted, Coherent, At, Distinct, Slots;
      v := v0;
      var i: nat := 0;
      while i < a1
        invariant 0 <= i <= a1 && v == s[..158 + 129 * i]
        invariant cache.Valid() && cache.view == old(cache.view)
        invariant cache.pins == outer + multiset{indirect2}
      {
        v := PushSub(i, 128, v, outer, u, s, cache);
        i := i + 1;
      }
      if b1 > 0 {
        v := PushSub(a1, b1, v, outer, u, s, cache);
      }
    }

    /** Forget all blocks and return them: each block of the inode, exactly once,
        in slot order. */
    method ClearSize(cache: BlockCacheManager) returns (v: seq<u32>)
      requires cache.Valid() && |cache.pins| + 1 < MAX_PINS
      requires Val().WellFormed() && Usable(AllBlocks(Val(), cache.view), cache.view, cache.pins)
      requires Tail(Val(), cache.view, TotalBlocks(size))
      modifies this, cache
      ensures cache.Valid() && cache.pins == old(cache.pins) && cache.view == old(cache.view)
      ensures v == old(AllBlocks(Val(), cache.view))
      ensures Emptied(Val()) && isDir == old(isDir)
    {
      hide Queued, Counted, Coherent, Distinct, At, Tail;
      RootsEmpty(Val(), cache.view);
      ghost var u, s := Val(), AllBlocks(Val(), cache.view);
      v := [];
      var blocks := DataBlocks(size);
      size := 0;
      var current := 0;
      while current < blocks && current < 28
        modifies this`direct
        invariant 0 <= current <= blocks && current <= 28 && |direct| == 28
        invariant current <= |s| && v == s[..current]
        invariant forall j :: 0 <= j < 28 ==> direct[j] == if j < current then 0 else u.direct[j]
      {
        AtDirect(u, cache.view, current);
        v := v + [direct[current]];
        direct := direct[current := 0];
        current := current + 1;
      }
      if blocks <= 28 {
        return;
      }
      v := ClearRest(blocks - 28, v, u, s, cache);
    }

    /** The indirect blocks of an inode of `n` more data blocks than the direct ones. */
    method ClearRest(n: nat, v0: seq<u32>, ghost u: Inode, ghost s: seq<u32>, cache: BlockCacheManager) returns (v: seq<u32>)
      requires cache.Valid() && |cache.pins| + 1 < MAX_PINS
      requires |u.direct| == 28 && u.indirect1 == indirect1 && u.indirect2 == indirect2 && s == Slots(u, cache.view, |s|)
      requires Usable(s, cache.view, cache.pins)
      requires 0 < n <= 16512 && |s| == TotalOf(28 + n) && v0 == s[..28] && (n <= 128 ==> indirect2 == 0)
      modifies this`indirect1, this`indirect2, cache
      ensures cache.Valid() && cache.pins == old(cache.pins) && cache.view == old(cache.view)
      ensures v == s && indirect1 == 0 && indirect2 == 0
    {
      hide Queued, Counted, Coherent, Distinct, At, Slots;
      AtRoots(u, cache.view);
      SlotAt(u, cache.view, s, 28);
      v := v0 + [indirect1];
      v := PushIndirect1(if n < 128 then n else 128, v, u, s, cache);
      indirect1 := 0;
      if n <= 128 {
        return;
      }
      SlotAt(u, cache.view, s, 157);
      v := v + [indirect2];
      v := PushIndirect2(n - 128, v, u, s, cache);
      indirect2 := 0;
    }

    /** Read up to `len` bytes from `offset`: the bytes of the contents that lie in
        that range. */
    method ReadAt(offset: nat, len: nat, cache: BlockCacheManager, ghost c: seq<byte>) returns (data: seq<byte>)
      requires cache.Valid() && |cache.pins| < MAX_PINS
      requires Holds(Val(), cache.view, c) && Usable(AllBlocks(Val(), cache.view), cache.view, cache.pins)
      modifies cache
      ensures cache.Valid() && cache.pins == old(cache.pins) && cache.view == old(cache.view)
      ensures old(cache.Clean()) ==> cache.Clean()
      ensures data == if offset < |c| then c[offset..if offset + len < |c| then offset + len else |c|] else []
    {
      hide Queued, Counted, Coherent, AllBlocks, Usable, Holds;
      HoldsFacts(Val(), cache.view, c);
      data := [];
      var start := offset;
      var end := if offset + len < size then offset + len else size;
      if start >= end {
        return;
      }
      var startBlock := start / 512;
      while true
        invariant offset <= start < end && startBlock == start / 512
        invariant data == c[offset..start]
        invariant cache.Valid() && cache.pins == old(cache.pins) && cache.view == old(cache.view)
        invariant old(cache.Clean()) ==> cache.Clean()
        decreases end - start
      {
        var endCurrent := (start / 512 + 1) * 512;
        endCurrent := if endCurrent < end then endCurrent else end;
        var n := endCurrent - start;
        BlockEnd(start);
        var part := ReadChunk(start, n, startBlock, cache, c);
        SlicesJoin(c, offset, start, start + n);
        data := data + part;
        if endCurrent == end {
          break;
        }
        startBlock := startBlock + 1;
        start := endCurrent;
      }
    }

    /** Copy `n` bytes from byte `start` on out of the data block that holds them. */
    method ReadChunk(start: nat, n: nat, startBlock: nat, cache: BlockCacheManager, ghost c: seq<byte>)
      returns (part: seq<byte>)
      requires cache.Valid() && |cache.pins| < MAX_PINS
      requires Holds(Val(), cache.view, c) && Usable(AllBlocks(Val(), cache.view), cache.view, cache.pins)
      requires startBlock == start / 512 && start % 512 + n <= 512 && start + n <= |c| && start < |c|
      modifies cache
      ensures cache.Valid() && cache.pins == old(cache.pins) && cache.view == old(cache.view)
      ensures old(cache.Clean()) ==> cache.Clean()
      ensures part == c[start..start + n]
    {
      hide Queued, Counted, Coherent, At, Pos, TotalOf, Distinct, Slots, Holds;
      HoldsFacts(Val(), cache.view, c);
      var id := GetBlockId(startBlock, cache);
      UsableAt(AllBlocks(Val(), cache.view), cache.view, cache.pins, Pos(startBlock));
      BlockSlice(Val(), cache.view, c, start, n);
      var b := cache.ReadBlock(id);
      part := b[start % 512..start % 512 + n];
    }

    /** Write `buf` over the bytes from `offset`, up to the end of the inode.  A write at
        the very end looks up the next block and writes no byte to it; that is block 0,
        or the lookup leaves the blocks in use: see EmptyWriteLookup. */
    method WriteAt(offset: nat, buf: seq<byte>, cache: BlockCacheManager, ghost c: seq<byte>) returns (written: nat)
      requires cache.Valid() && |cache.pins| < MAX_PINS
      requires Holds(Val(), cache.view, c) && Usable(AllBlocks(Val(), cache.view), cache.view, cache.pins)
      requires offset <= size && Reaches(size, offset / 512) && 0 < |cache.view| && 0 !in cache.pins
      modifies cache
      ensures cache.Valid() && cache.pins == old(cache.pins) && |cache.view| == |old(cache.view)|
      ensures written == if offset + |buf| < |c| then |buf| else |c| - offset
      ensures AllBlocks(Val(), cache.view) == AllBlocks(Val(), old(cache.view))
      ensures Holds(Val(), cache.view, Splice(c, offset, buf[..written]))
      ensures forall id :: 0 <= id < |cache.view| && id !in AllBlocks(Val(), cache.view) ==>
        cache.view[id] == old(cache.view)[id]
    {
      hide Queued, Counted, Coherent, At, Pos, TotalOf, Distinct, Holds, Splice, Slots;
      HoldsFacts(Val(), cache.view, c);
      var start := offset;
      var end := if offset + |buf| < size then offset + |buf| else size;
      var startBlock := start / 512;
      written := 0;
      ghost var s := AllBlocks(Val(), cache.view);
      ghost var part := buf[..end - offset];
      while true
        invariant offset <= start <= end && startBlock == start / 512 && Reaches(|c|, startBlock)
        invariant written == start - offset <= |part|
        invariant cache.Valid() && cache.pins == old(cache.pins) && |cache.view| == |old(cache.view)|
        invariant AllBlocks(Val(), cache.view) == s && Usable(s, cache.view, cache.pins)
        invariant Holds(Val(), cache.view, Splice(c, offset, part[..written]))
        invariant forall id :: 0 <= id < |cache.view| && id !in s ==> cache.view[id] == old(cache.view)[id]
        decreases end - start
      {
        var endCurrent := (start / 512 + 1) * 512;
        endCurrent := if endCurrent < end then endCurrent else end;
        var n := endCurrent - start;
        BlockEnd(start);
        var src := buf[written..written + n];
        PrefixSlice(buf, end - offset, written, written + n);
        WriteChunk(start, src, startBlock, cache, Splice(c, offset, part[..written]), s);
        SpliceTwice(c, offset, part, written, n);
        written := written + n;
        if endCurrent == end {
          PrefixSlice(buf, end - offset, 0, written);
          break;
        }
        startBlock := startBlock + 1;
        start := endCurrent;
      }
    }

    /** Copy `src` into the data block that holds byte `start`; past the last block, where
        there is nothing to copy, block 0 is opened instead. */
    method WriteChunk(start: nat, src: seq<byte>, startBlock: nat, cache: BlockCacheManager,
                      ghost c: seq<byte>, ghost s: seq<u32>)
      requires cache.Valid() && |cache.pins| < MAX_PINS && 0 < |cache.view| && 0 !in cache.pins
      requires Holds(Val(), cache.view, c) && s == AllBlocks(Val(), cache.view)
      requires Usable(s, cache.view, cache.pins)
      requires startBlock == start / 512 && Reaches(|c|, startBlock)
      requires start % 512 + |src| <= 512 && start + |src| <= |c|
      modifies cache
      ensures cache.Valid() && cache.pins == old(cache.pins) && |cache.view| == |old(cache.view)|
      ensures AllBlocks(Val(), cache.view) == s && Holds(Val(), cache.view, Splice(c, start, src))
      ensures Usable(s, cache.view, cache.pins)
      ensures forall id :: 0 <= id < |cache.view| && id !in s ==> cache.view[id] == old(cache.view)[id]
    {
      hide Queued, Counted, Coherent, At, Pos, TotalOf, Splice, AllBlocks, Holds, Usable, Reaches;
      HoldsFacts(Val(), cache.view, c);
      var id := GetBlockId(startBlock, cache);
      ChunkWritten(Val(), cache.view, cache.pins, c, start, src);
      cache.Acquire(id);
      var b := cache.Read(id);
      cache.Modify(id, Splice(b, start % 512, src));
      cache.DropHandle(id);
      assert cache.pins == old(cache.pins);
      UsableDisk(s, old(cache.view), cache.view, cache.pins);
    }
  }

  lemma ChunkWritten(v: Inode, disk: Disk, pins: multiset<nat>, c: seq<byte>, start: nat, src: seq<byte>)
    requires Holds(v, disk, c) && Usable(AllBlocks(v, disk), disk, pins) && 0 < |disk| && 0 !in pins
    requires Reaches(|c|, start / 512) && start % 512 + |src| <= 512 && start + |src| <= |c|
    ensures var id := At(v, disk, Pos(start / 512));
      && id < |disk| && id !in pins
      && var disk' := disk[id := Splice(disk[id], start % 512, src)];
      && AllBlocks(v, disk') == AllBlocks(v, disk) && Holds(v, disk', Splice(c, start, src))
      && forall x :: 0 <= x < |disk| && x !in AllBlocks(v, disk) ==> disk'[x] == disk[x]
  {
    hide At, Pos, TotalOf, Splice, Holds, Distinct;
    HoldsFacts(v, disk, c);
    var s := AllBlocks(v, disk);
    var p := Pos(start / 512);
    if start / 512 < DataBlocks(|c|) {
      DataWriteHolds(v, disk, c, start, src);
      assert s[p] == At(v, disk, p);
      UsableAt(s, disk, pins, p);
    } else {
      NextIsZero(v, disk, c);
      SpliceNothing(c, start, src);
      SpliceNothing(disk[0], start % 512, src);
      assert disk[0 := disk[0]] == disk;
    }
  }

  lemma SpliceNothing(s: seq<byte>, off: nat, part: seq<byte>)
    requires off + |part| <= |s| && part == []
    ensures Splice(s, off, part) == s
  {
  }

  lemma UsableDisk(s: seq<u32>, disk: Disk, disk': Disk, pins: multiset<nat>)
    requires Usable(s, disk, pins) && |disk'| == |disk|
    ensures Usable(s, disk', pins)
  {
  }
}
