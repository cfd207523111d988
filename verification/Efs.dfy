/** The regions of an easy-fs image and its two allocators (easy-fs/src/efs.rs). */
module Efs {
  import opened Words
  import opened BlockCaches
  import opened Bitmaps
  import opened InodeTree
  import opened InodeBytes

  const EFS_MAGIC: u32 := 0x3b800001

  /** The fields of the super block; the starts of the regions follow from them. */
  datatype Geometry = Geometry(total: u32, inodeBitmapBlocks: u32, inodeAreaBlocks: u32,
                               dataBitmapBlocks: u32, dataAreaBlocks: u32)
  {
    function InodeBitmap(): Bitmap {
      Bitmap(1, inodeBitmapBlocks)
    }

    function InodeStart(): nat {
      1 + inodeBitmapBlocks
    }

    function DataBitmap(): Bitmap {
      Bitmap(1 + inodeBitmapBlocks + inodeAreaBlocks, dataBitmapBlocks)
    }

    function DataStart(): nat {
      1 + inodeBitmapBlocks + inodeAreaBlocks + dataBitmapBlocks
    }

    /** The five regions follow one another and end at the end of the device; every
        inode bit has its 128 bytes, and every data block has a bit. */
    ghost predicate Ok() {
      && total == DataStart() + dataAreaBlocks
      && inodeAreaBlocks == 1024 * inodeBitmapBlocks
      && dataAreaBlocks <= 4096 * dataBitmapBlocks
    }
  }

  /** The region sizes that `create` computes. */
  function Regions(total: u32, inodeBitmapBlocks: u32): (g: Geometry)
    requires 1 + 1025 * inodeBitmapBlocks <= total
  {
    var inodeNum := inodeBitmapBlocks * 4096;
    var inodeAreaBlocks := (inodeNum * 128 + 512 - 1) / 512;
    var inodeTotal := inodeBitmapBlocks + inodeAreaBlocks;
    var dataTotal := total - 1 - inodeTotal;
    var dataBitmapBlocks := (dataTotal + 4096) / 4097;
    Geometry(total, inodeBitmapBlocks, inodeAreaBlocks, dataBitmapBlocks, dataTotal - dataBitmapBlocks)
  }

  /** The regions partition the device exactly, and the data bitmap is the smallest
      one that covers what it leaves of the data blocks. */
  lemma RegionsPartition(total: u32, inodeBitmapBlocks: u32)
    requires 1 + 1025 * inodeBitmapBlocks <= total
    ensures var g := Regions(total, inodeBitmapBlocks);
      var dataTotal := total - 1 - 1025 * inodeBitmapBlocks;
      && g.Ok() && g.total == total && g.inodeBitmapBlocks == inodeBitmapBlocks
      && g.dataBitmapBlocks + g.dataAreaBlocks == dataTotal
      && forall m :: 0 <= m <= dataTotal ==> (dataTotal - m <= 4096 * m <==> g.dataBitmapBlocks <= m)
  {
  }

  /** The five words of the super block after the magic number. */
  function StoreSuper(b: Block, g: Geometry): Block {
    SetU32(SetU32(SetU32(SetU32(SetU32(SetU32(b, 0, EFS_MAGIC), 1, g.total), 2, g.inodeBitmapBlocks),
      3, g.inodeAreaBlocks), 4, g.dataBitmapBlocks), 5, g.dataAreaBlocks)
  }

  function LoadSuper(b: Block): Option<Geometry> {
    if U32At(b, 0) == EFS_MAGIC
    then Some(Geometry(U32At(b, 1), U32At(b, 2), U32At(b, 3), U32At(b, 4), U32At(b, 5)))
    else None
  }

  lemma SuperRoundTrip(b: Block, g: Geometry)
    ensures LoadSuper(StoreSuper(b, g)) == Some(g)
  {
    hide U32At, SetU32;
    var b0 := SetU32(b, 0, EFS_MAGIC);
    var b1 := SetU32(b0, 1, g.total);
    var b2 := SetU32(b1, 2, g.inodeBitmapBlocks);
    var b3 := SetU32(b2, 3, g.inodeAreaBlocks);
    var b4 := SetU32(b3, 4, g.dataBitmapBlocks);
    forall j | 0 <= j < 6
      ensures U32At(StoreSuper(b, g), j) ==
        [EFS_MAGIC, g.total, g.inodeBitmapBlocks, g.inodeAreaBlocks, g.dataBitmapBlocks, g.dataAreaBlocks][j]
    {
      SetU32Get(b, 0, EFS_MAGIC, j);
      SetU32Get(b0, 1, g.total, j);
      SetU32Get(b1, 2, g.inodeBitmapBlocks, j);
      SetU32Get(b2, 3, g.inodeAreaBlocks, j);
      SetU32Get(b3, 4, g.dataBitmapBlocks, j);
      SetU32Get(b4, 5, g.dataAreaBlocks, j);
    }
  }

  /** The block and the byte offset of inode `i`. */
  function InodePos(g: Geometry, i: nat): (nat, nat) {
    (g.InodeStart() + i / 4, i % 4 * 128)
  }

  /** Every inode of the bitmap has its own 128 bytes inside the inode area. */
  lemma InodePosInside(g: Geometry, i: nat, j: nat)
    requires g.Ok() && i < g.InodeBitmap().Maximum() && j < g.InodeBitmap().Maximum()
    ensures g.InodeStart() <= InodePos(g, i).0 < g.DataBitmap().start && InodePos(g, i).1 + 128 <= 512
    ensures i == j || InodePos(g, i).0 != InodePos(g, j).0
      || InodePos(g, i).1 + 128 <= InodePos(g, j).1 || InodePos(g, j).1 + 128 <= InodePos(g, i).1
  {
  }

  function InodeOf(g: Geometry, disk: Disk, i: nat): (v: Inode)
    ensures |v.direct| == 28
  {
    Decode(BlockOf(disk, InodePos(g, i).0), InodePos(g, i).1)
  }

  /** The set bits of the data bitmap are those of the blocks in `used`. */
  ghost predicate BitsAre(g: Geometry, disk: Disk, used: set<nat>) {
    && g.DataBitmap().Fits(disk)
    && (forall id :: id in used ==> g.DataStart() <= id < g.total)
    && forall id :: 0 <= id - g.DataStart() < g.DataBitmap().Maximum() ==>
         (id in used <==> g.DataBitmap().IsSet(disk, id - g.DataStart()))
  }

  /** `disk'` differs from `disk` at most in the data bitmap. */
  ghost predicate OnlyBitmap(g: Geometry, disk: Disk, disk': Disk) {
    && |disk'| == |disk|
    && forall id {:trigger disk'[id]} :: 0 <= id < |disk| && !(g.DataBitmap().start <= id < g.DataStart()) ==>
         disk'[id] == disk[id]
  }

  /** As many blocks are in use as the data area has exactly when all of them are. */
  lemma AreaCard(g: Geometry, used: set<nat>)
    requires g.Ok() && forall id :: id in used ==> g.DataStart() <= id < g.total
    ensures |used| <= g.dataAreaBlocks
    ensures |used| == g.dataAreaBlocks <==> forall id :: g.DataStart() <= id < g.total ==> id in used
  {
    var all := Range(g.DataStart(), g.total);
    assert used <= all && |all| == |used| + |all - used| by { assert all == used + (all - used); }
    if used == all {
      assert all - used == {};
    } else {
      var id :| id in all - used;
    }
  }

  /** The lowest clear bit of the data bitmap, or its size: inside the data area exactly
      while there is a free block, and otherwise the first bit past it. */
  lemma LowestFree(g: Geometry, disk: Disk, used: set<nat>, n: nat)
    requires g.Ok() && BitsAre(g, disk, used) && n <= g.DataBitmap().Maximum()
    requires (forall j :: 0 <= j < n ==> g.DataBitmap().IsSet(disk, j))
    requires n < g.DataBitmap().Maximum() ==> !g.DataBitmap().IsSet(disk, n)
    ensures n <= g.dataAreaBlocks && (n < g.dataAreaBlocks <==> |used| < g.dataAreaBlocks)
    ensures n == g.DataBitmap().Maximum() <==> |used| == g.DataBitmap().Maximum()
    ensures n < g.DataBitmap().Maximum() ==> g.DataStart() + n !in used
    ensures forall k :: g.DataStart() <= k < g.DataStart() + n ==> k in used
  {
    AreaCard(g, used);
    forall k | g.DataStart() <= k < g.DataStart() + n ensures k in used {
      assert g.DataBitmap().IsSet(disk, k - g.DataStart());
    }
    assert n > g.dataAreaBlocks ==> g.total in used;
    if n < g.dataAreaBlocks {
      assert g.DataStart() + n !in used;
    }
  }

  ghost predicate BitmapUnpinned(g: Geometry, pins: multiset<nat>) {
    forall id :: g.DataBitmap().start <= id < g.DataStart() ==> id !in pins
  }

  /** Allocate the lowest free data block.  It lies inside the data area exactly while
      the blocks in use are fewer than the area has; after that, the first block past the
      device is given out if the bitmap has a bit for it, and otherwise the source panics,
      which is `None`. */
  method AllocData(g: Geometry, cache: BlockCacheManager, ghost used: set<nat>) returns (r: Option<nat>)
    requires cache.Valid() && |cache.pins| < MAX_PINS && BitmapUnpinned(g, cache.pins)
    requires g.Ok() && g.total <= |cache.view| && BitsAre(g, cache.view, used)
    modifies cache
    ensures cache.Valid() && cache.pins == old(cache.pins)
    ensures OnlyBitmap(g, old(cache.view), cache.view)
    ensures r.None? <==> |used| == g.DataBitmap().Maximum()
    ensures r.Some? ==> (|used| < g.dataAreaBlocks <==> r.value < g.total)
    ensures r.Some? ==> |used| == g.dataAreaBlocks ==> r.value == g.total
    ensures r.Some? ==> r.value !in used && g.DataStart() <= r.value && forall k :: g.DataStart() <= k < r.value ==> k in used
    ensures r.Some? && r.value < g.total ==> BitsAre(g, cache.view, used + {r.value})
  {
    hide Queued, Counted, Coherent, BlockBit, BitsAre;
    BitsFit(g, cache.view, used);
    var b := g.DataBitmap().Alloc(cache);
    LowestFree(g, old(cache.view), used, if b.Some? then b.value else g.DataBitmap().Maximum());
    if b.None? {
      return None;
    }
    BitAdded(g, old(cache.view), cache.view, used, b.value);
    r := Some(b.value + g.DataStart());
  }

  lemma BitsFit(g: Geometry, disk: Disk, used: set<nat>)
    requires BitsAre(g, disk, used)
    ensures g.DataBitmap().Fits(disk)
  {
  }

  lemma BitAdded(g: Geometry, disk: Disk, disk': Disk, used: set<nat>, n: nat)
    requires g.Ok() && BitsAre(g, disk, used) && n < g.DataBitmap().Maximum()
    requires g.DataBitmap().Toggled(disk, disk', n) && !g.DataBitmap().IsSet(disk, n)
    ensures g.DataStart() + n < g.total ==> BitsAre(g, disk', used + {g.DataStart() + n})
    ensures OnlyBitmap(g, disk, disk')
  {
    hide BlockBit;
  }

  /** Free a data block: zero it, then clear its bit. */
  method DeallocData(g: Geometry, cache: BlockCacheManager, id: u32, ghost used: set<nat>)
    requires cache.Valid() && |cache.pins| < MAX_PINS && BitmapUnpinned(g, cache.pins)
    requires g.Ok() && g.total <= |cache.view|
    requires BitsAre(g, cache.view, used) && id in used && id !in cache.pins
    modifies cache
    ensures cache.Valid() && cache.pins == old(cache.pins)
    ensures BitsAre(g, cache.view, used - {id})
    ensures |cache.view| == |old(cache.view)|
    ensures OnlyBitmap(g, old(cache.view)[id := ZERO_BLOCK], cache.view)
  {
    hide Queued, Counted, Coherent, BlockBit;
    cache.WriteBlock(id, ZERO_BLOCK);
    assert forall k :: 0 <= k < g.DataBitmap().Maximum() ==>
      g.DataBitmap().IsSet(cache.view, k) == g.DataBitmap().IsSet(old(cache.view), k);
    g.DataBitmap().Dealloc(cache, id - g.DataStart());
  }

  /** `v` lists distinct blocks of the data area, none of them in `used`. */
  ghost predicate FreshBlocks(g: Geometry, v: seq<u32>, used: set<nat>) {
    && (forall i :: 0 <= i < |v| ==> g.DataStart() <= v[i] < g.total && v[i] !in used)
    && (forall i, j :: 0 <= i < j < |v| ==> v[i] != v[j])
  }

  ghost function SetOf(v: seq<u32>): set<nat> {
    set x | x in v
  }

  lemma SetOfSnoc(v: seq<u32>, x: u32, used: set<nat>)
    ensures SetOf(v + [x]) == SetOf(v) + {x}
    ensures used + SetOf(v + [x]) == used + SetOf(v) + {x}
    ensures used - SetOf(v + [x]) == used - SetOf(v) - {x}
  {
  }

  lemma FreshSnoc(g: Geometry, v: seq<u32>, used: set<nat>, x: u32)
    requires FreshBlocks(g, v, used) && x !in used + SetOf(v) && g.DataStart() <= x < g.total
    ensures FreshBlocks(g, v + [x], used)
  {
  }

  lemma OnlyBitmapTwice(g: Geometry, d0: Disk, d1: Disk, d2: Disk)
    requires OnlyBitmap(g, d0, d1) && OnlyBitmap(g, d1, d2)
    ensures OnlyBitmap(g, d0, d2)
  {
  }

  lemma {:induction false} FreshCard(g: Geometry, v: seq<u32>, used: set<nat>)
    requires FreshBlocks(g, v, used)
    ensures |used + SetOf(v)| == |used| + |v|
  {
    if v == [] {
      assert used + SetOf(v) == used;
    } else {
      var n := |v| - 1;
      var w, x := v[..n], v[n];
      FreshLast(g, v, used);
      hide FreshBlocks, SetOf;
      FreshCard(g, w, used);
      assert v == w + [x];
      SetOfSnoc(w, x, used);
    }
  }

  lemma FreshLast(g: Geometry, v: seq<u32>, used: set<nat>)
    requires FreshBlocks(g, v, used) && v != []
    ensures FreshBlocks(g, v[..|v| - 1], used) && v[|v| - 1] !in used + SetOf(v[..|v| - 1])
  {
  }

  lemma EmptyBlocks(g: Geometry, used: set<nat>, disk: Disk)
    ensures used + SetOf([]) == used && FreshBlocks(g, [], used) && OnlyBitmap(g, disk, disk)
  {
  }

  /** Allocate `n` data blocks, as growing an inode does. */
  method AllocBlocks(g: Geometry, cache: BlockCacheManager, n: nat, ghost used: set<nat>) returns (v: seq<u32>)
    requires cache.Valid() && |cache.pins| < MAX_PINS && BitmapUnpinned(g, cache.pins)
    requires g.Ok() && g.total <= |cache.view|
    requires BitsAre(g, cache.view, used) && |used| + n <= g.dataAreaBlocks
    modifies cache
    ensures cache.Valid() && cache.pins == old(cache.pins)
    ensures |v| == n && FreshBlocks(g, v, used) && |cache.view| == |old(cache.view)|
    ensures BitsAre(g, cache.view, used + SetOf(v)) && OnlyBitmap(g, old(cache.view), cache.view)
  {
    hide Queued, Counted, Coherent, BitsAre, OnlyBitmap, SetOf, FreshBlocks, BitmapUnpinned;
    EmptyBlocks(g, used, cache.view);
    v := [];
    while |v| < n
      invariant |v| <= n && FreshBlocks(g, v, used)
      invariant cache.Valid() && cache.pins == old(cache.pins) && |cache.view| == |old(cache.view)|
      invariant BitsAre(g, cache.view, used + SetOf(v)) && OnlyBitmap(g, old(cache.view), cache.view)
    {
      FreshCard(g, v, used);
      ghost var before := cache.view;
      var r := AllocData(g, cache, used + SetOf(v));
      var id: u32 := r.value;
      SetOfSnoc(v, id, used);
      FreshSnoc(g, v, used, id);
      OnlyBitmapTwice(g, old(cache.view), before, cache.view);
      v := v + [id];
    }
  }

  /** `disk'` is `disk` with the blocks `v` zeroed, up to the data bitmap. */
  ghost predicate ZeroedOnly(g: Geometry, disk: Disk, disk': Disk, v: seq<u32>) {
    && |disk'| == |disk|
    && (forall x :: x in v && x < |disk| ==> disk'[x] == ZERO_BLOCK)
    && forall id {:trigger disk'[id]} ::
         0 <= id < |disk| && !(g.DataBitmap().start <= id < g.DataStart()) && id !in v ==> disk'[id] == disk[id]
  }

  lemma ZeroedSnoc(g: Geometry, d0: Disk, d1: Disk, d2: Disk, v: seq<u32>, x: u32)
    requires ZeroedOnly(g, d0, d1, v) && x < |d1| && OnlyBitmap(g, d1[x := ZERO_BLOCK], d2)
    requires g.DataStart() <= x && forall y :: y in v ==> g.DataStart() <= y
    ensures ZeroedOnly(g, d0, d2, v + [x])
  {
  }

  /** Free all blocks of `v`, as clearing an inode does. */
  method DeallocBlocks(g: Geometry, cache: BlockCacheManager, v: seq<u32>, ghost used: set<nat>)
    requires cache.Valid() && |cache.pins| < MAX_PINS && BitmapUnpinned(g, cache.pins)
    requires g.Ok() && g.total <= |cache.view| && BitsAre(g, cache.view, used)
    requires forall i :: 0 <= i < |v| ==> g.DataStart() <= v[i] < g.total && v[i] in used && v[i] !in cache.pins
    requires forall i, j :: 0 <= i < j < |v| ==> v[i] != v[j]
    modifies cache
    ensures cache.Valid() && cache.pins == old(cache.pins)
    ensures BitsAre(g, cache.view, used - SetOf(v)) && ZeroedOnly(g, old(cache.view), cache.view, v)
  {
    hide Queued, Counted, Coherent, BitsAre, OnlyBitmap, ZeroedOnly, BitmapUnpinned;
    var k := 0;
    assert used - SetOf([]) == used;
    assert ZeroedOnly(g, cache.view, cache.view, []) by { ZeroedNone(g, cache.view); }
    while k < |v|
      invariant 0 <= k <= |v|
      invariant cache.Valid() && cache.pins == old(cache.pins) && |cache.view| == |old(cache.view)|
      invariant BitsAre(g, cache.view, used - SetOf(v[..k]))
      invariant ZeroedOnly(g, old(cache.view), cache.view, v[..k])
    {
      assert v[k] !in v[..k];
      ghost var before := cache.view;
      DeallocData(g, cache, v[k], used - SetOf(v[..k]));
      assert v[..k + 1] == v[..k] + [v[k]];
      SetOfSnoc(v[..k], v[k], used);
      ZeroedSnoc(g, old(cache.view), before, cache.view, v[..k], v[k]);
      k := k + 1;
    }
    assert v[..k] == v;
  }

  lemma ZeroedNone(g: Geometry, disk: Disk)
    ensures ZeroedOnly(g, disk, disk, [])
  {
  }
}
