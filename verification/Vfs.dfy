/** The file operations of easy-fs (easy-fs/src/vfs.rs), each run under the file
    system lock, against one growable byte sequence for each inode. */
module Vfs {
  import opened Words
  import opened BlockCaches
  import opened Bitmaps
  import opened InodeTree
  import opened InodeBytes
  import opened DiskInodes
  import opened Efs
  import opened FsState
  import opened Dirents

  /** `c`, extended by zeros to at least `n` bytes. */
  function Pad(c: seq<byte>, n: nat): (r: seq<byte>)
    ensures |r| == if n <= |c| then |c| else n
    ensures r[..|c|] == c && forall i :: |c| <= i < |r| ==> r[i] == 0
  {
    if n <= |c| then c else c + Zeros(n - |c|)
  }

  /** The contents after a write: the gap past the old end, if any, is zero. */
  function Written(c: seq<byte>, offset: nat, buf: seq<byte>): (r: seq<byte>)
    ensures |r| == if offset + |buf| <= |c| then |c| else offset + |buf|
  {
    Splice(Pad(c, offset + |buf|), offset, buf)
  }

  /** Byte by byte: the new bytes in their range, the old ones elsewhere, and zeros
      between the old end and the new bytes. */
  lemma WrittenAt(c: seq<byte>, offset: nat, buf: seq<byte>, j: nat)
    requires j < |Written(c, offset, buf)|
    ensures Written(c, offset, buf)[j] ==
      if offset <= j < offset + |buf| then buf[j - offset] else if j < |c| then c[j] else 0
  {
    var p := Pad(c, offset + |buf|);
    assert j < |c| ==> p[j] == p[..|c|][j];
  }

  /** Blocks that growing a file of `size` bytes to `n` bytes takes. */
  function Needed(size: nat, n: nat): nat {
    if n <= size then 0
    else TotalMonotone(DataBlocks(size), DataBlocks(n)); TotalBlocks(n) - TotalBlocks(size)
  }

  /** Only blocks below the data bitmap are pinned. */
  ghost predicate PinsBelow(g: Geometry, pins: multiset<nat>) {
    forall id :: id in pins ==> id < g.DataBitmap().start
  }

  /** Inode `v` shows `c` with the blocks `l`; the blocks in use are `used`. */
  ghost predicate Shows(g: Geometry, disk: Disk, v: Inode, c: seq<byte>, l: seq<u32>, used: set<nat>) {
    && g.Ok() && g.total <= |disk|
    && Holds(v, disk, c) && AllBlocks(v, disk) == l && Distinct(l, disk)
    && BitsAre(g, disk, used) && FreeZero(g, disk, used)
    && forall x :: x in l ==> x in used
  }

  lemma ShowsUsable(g: Geometry, disk: Disk, v: Inode, c: seq<byte>, l: seq<u32>, used: set<nat>,
                    xs: seq<u32>, disk': Disk, pins: multiset<nat>)
    requires Shows(g, disk, v, c, l, used) && FreshBlocks(g, xs, used) && PinsBelow(g, pins)
    requires OnlyBitmap(g, disk, disk')
    ensures |v.direct| == 28 && Usable(l + xs, disk', pins) && BitmapUnpinned(g, pins)
    ensures forall x :: x in l + xs ==> g.DataStart() <= x < g.total
    ensures Holds(v, disk', c) && AllBlocks(v, disk') == l
    ensures forall x :: x in xs ==> BlockOf(disk', x) == ZERO_BLOCK
  {
    hide At, TotalOf, Holds;
    HoldsSize(v, disk, c);
    assert forall i :: 0 <= i < |l| ==> l[i] in l;
    forall p | 0 <= p < TotalBlocks(v.size) ensures BlockOf(disk', At(v, disk, p)) == BlockOf(disk, At(v, disk, p)) {
      assert l[p] == At(v, disk, p);
    }
    HoldsFrame(v, disk, disk', c);
  }

  /** Growing touches the data bitmap and the blocks of the inode only. */
  lemma Grown(g: Geometry, d0: Disk, d1: Disk, d2: Disk, l: seq<u32>, used: set<nat>, free: set<nat>)
    requires OnlyBitmap(g, d0, d1) && |d2| == |d1| && BitsAre(g, d1, used)
    requires forall id :: 0 <= id < |d2| && !IndexIn(l, id) ==> d2[id] == d1[id]
    requires forall x :: x in l ==> g.DataStart() <= x && x in used
    requires FreeZero(g, d0, free) && free <= used
    ensures SameExcept(g, d0, d2, l) && BitsAre(g, d2, used) && FreeZero(g, d2, used)
  {
    hide IsIndex, BitsAre;
    forall id | 0 <= id < |d2| && id !in l ensures d2[id] == d1[id] {
      assert !IndexIn(l, id);
    }
    BitsFrame(g, d1, d2, used);
  }

  lemma FreshUnused(g: Geometry, v: seq<u32>, used: set<nat>, l: seq<u32>)
    requires FreshBlocks(g, v, used) && forall x :: x in l ==> x in used
    ensures forall x :: x in l + v ==> x in used + SetOf(v)
  {
  }

  lemma ShowsSelf(g: Geometry, disk: Disk, l: seq<u32>, used: set<nat>)
    ensures l + [] == l && used + SetOf([]) == used && FreshBlocks(g, [], used)
    ensures SameExcept(g, disk, disk, l) && OnlyBitmap(g, disk, disk)
  {
  }

  /** Grow the inode `d` to at least `newSize` with freshly allocated blocks. */
  method IncreaseSize(g: Geometry, cache: BlockCacheManager, d: DiskInode, newSize: u32,
                      ghost c: seq<byte>, ghost l: seq<u32>, ghost used: set<nat>) returns (ghost xs: seq<u32>)
    requires cache.Valid() && |cache.pins| + 1 < MAX_PINS && PinsBelow(g, cache.pins)
    requires Shows(g, cache.view, d.Val(), c, l, used)
    requires newSize <= MAX_SIZE && |used| + Needed(|c|, newSize) <= g.dataAreaBlocks
    modifies d, cache
    ensures cache.Valid() && cache.pins == old(cache.pins) && d.isDir == old(d.isDir)
    ensures FreshBlocks(g, xs, used) && SameExcept(g, old(cache.view), cache.view, l + xs)
    ensures Shows(g, cache.view, d.Val(), Pad(c, newSize), l + xs, used + SetOf(xs))
  {
    hide Queued, Counted, Coherent, Holds, AllBlocks, IndexIn, OnlyBitmap, SameExcept, Distinct, BitsAre,
      FreshBlocks, SetOf, TotalBlocks, BitmapUnpinned, PinsBelow, FreeZero;
    ghost var disk := cache.view;
    xs := [];
    ShowsSelf(g, disk, l, used);
    ShowsUsable(g, disk, d.Val(), c, l, used, xs, disk, cache.pins);
    HoldsSize(d.Val(), disk, c);
    if newSize < d.size {
      return;
    }
    TotalMonotone(DataBlocks(d.size), DataBlocks(newSize));
    var need := TotalBlocks(newSize) - TotalBlocks(d.size);
    var v := AllocBlocks(g, cache, need, used);
    xs := v;
    ghost var disk1 := cache.view;
    ShowsUsable(g, disk, d.Val(), c, l, used, xs, disk1, cache.pins);
    d.IncreaseSize(newSize, v, cache, c);
    assert Pad(c, newSize) == c + Zeros(newSize - |c|);
    FreshUnused(g, xs, used, l);
    Grown(g, disk, disk1, cache.view, l + xs, used + SetOf(xs), used);
    DistinctSame(l + xs, disk1, cache.view, cache.pins);
  }

  lemma UsableEach(l: seq<u32>, disk: Disk, pins: multiset<nat>)
    requires Usable(l, disk, pins)
    ensures forall i :: 0 <= i < |l| ==> l[i] in l && l[i] !in pins
    ensures forall i, j :: 0 <= i < j < |l| ==> l[i] != l[j]
  {
  }

  lemma ShowsLength(g: Geometry, disk: Disk, v: Inode, c: seq<byte>, l: seq<u32>, used: set<nat>)
    requires Shows(g, disk, v, c, l, used)
    ensures |l| == TotalBlocks(|c|) && |v.direct| == 28
  {
  }

  lemma DistinctSame(l: seq<u32>, disk: Disk, disk': Disk, pins: multiset<nat>)
    requires Usable(l, disk, pins) && |disk'| == |disk|
    ensures Distinct(l, disk')
  {
  }

  /** Writing data blocks after growing. */
  lemma DataWritten(g: Geometry, d0: Disk, d1: Disk, d2: Disk, v: Inode, c1: seq<byte>, c2: seq<byte>,
                    l: seq<u32>, used: set<nat>)
    requires SameExcept(g, d0, d1, l) && Shows(g, d1, v, c1, l, used)
    requires |d2| == |d1| && forall id :: 0 <= id < |d2| && id !in l ==> d2[id] == d1[id]
    requires Holds(v, d2, c2) && AllBlocks(v, d2) == l
    ensures SameExcept(g, d0, d2, l) && Shows(g, d2, v, c2, l, used)
  {
    hide Holds, AllBlocks;
    assert forall i :: 0 <= i < |l| ==> l[i] in l;
    BitsFrame(g, d1, d2, used);
  }

  /** Grow the inode `d` if need be and write `buf` at `offset`: it then shows the written
      contents, and only its own and fresh blocks have been touched. */
  method GrowAndWrite(g: Geometry, cache: BlockCacheManager, d: DiskInode, offset: nat, buf: seq<byte>,
                      ghost c: seq<byte>, ghost l: seq<u32>, ghost used: set<nat>)
    returns (n: nat, ghost xs: seq<u32>)
    requires cache.Valid() && |cache.pins| + 1 < MAX_PINS && PinsBelow(g, cache.pins) && 0 !in cache.pins
    requires Shows(g, cache.view, d.Val(), c, l, used)
    requires offset + |buf| <= MAX_SIZE && |used| + Needed(|c|, offset + |buf|) <= g.dataAreaBlocks
    requires Writable(|c|, offset, |buf|)
    modifies d, cache
    ensures cache.Valid() && cache.pins == old(cache.pins) && d.isDir == old(d.isDir) && n == |buf|
    ensures FreshBlocks(g, xs, used) && SameExcept(g, old(cache.view), cache.view, l + xs)
    ensures Shows(g, cache.view, d.Val(), Written(c, offset, buf), l + xs, used + SetOf(xs))
  {
    hide Queued, Counted, Coherent, SetOf, SameExcept, FreshBlocks, BitsAre, FreeZero, Holds, AllBlocks, Splice, Needed,
      PinsBelow, Writable, Reaches;
    EmptyWriteLookup(|c|, offset, |buf|);
    ghost var disk := cache.view;
    xs := IncreaseSize(g, cache, d, offset + |buf|, c, l, used);
    ghost var disk1, c1 := cache.view, Pad(c, offset + |buf|);
    HoldsSize(d.Val(), disk1, c1);
    ShowsSelf(g, disk1, l + xs, used + SetOf(xs));
    ShowsUsable(g, disk1, d.Val(), c1, l + xs, used + SetOf(xs), [], disk1, cache.pins);
    n := d.WriteAt(offset, buf, cache, c1);
    assert buf[..n] == buf;
    DataWritten(g, disk, disk1, cache.view, d.Val(), c1, Written(c, offset, buf), l + xs, used + SetOf(xs));
  }

  /** The part of the invariant that speaks of inode `i`. */
  lemma InvShows(g: Geometry, disk: Disk, fs: Fs, i: nat)
    requires FsInv(g, disk, fs) && i < |fs.files|
    ensures |fs.lists| == |fs.files|
    ensures Shows(g, disk, InodeOf(g, disk, i), fs.files[i], fs.lists[i], fs.owner.Keys)
    ensures InodeOf(g, disk, i).isDir == (i == 0)
    ensures InodePos(g, i).0 < |disk| && InodePos(g, i).1 + 128 <= 512
    ensures PinsBelow(g, multiset{InodePos(g, i).0})
  {
    hide Owners, BitsAre, FreeZero, InodeBits, LoadSuper, Holds, AllBlocks;
    assert InodeShows(g, disk, i, fs.files[i], fs.lists[i]);
    ListInArea(g, disk, fs, i);
    InodeInside(g, disk, fs, i);
  }

  /** Storing the grown and rewritten inode restores the invariant. */
  lemma GrownCommitted(g: Geometry, disk: Disk, disk': Disk, fs: Fs, i: nat, v: Inode, c: seq<byte>, xs: seq<u32>)
    requires FsInv(g, disk, fs) && i < |fs.files| && |fs.lists| == |fs.files|
    requires FreshBlocks(g, xs, fs.owner.Keys) && SameExcept(g, disk, disk', fs.lists[i] + xs)
    requires Shows(g, disk', v, c, fs.lists[i] + xs, fs.owner.Keys + SetOf(xs)) && v.isDir == (i == 0)
    ensures var (b, off) := InodePos(g, i);
      && b < |disk'| && off + 128 <= 512 && |v.direct| == 28
      && FsInv(g, disk'[b := StoreInode(disk'[b], off, v)],
               Fs(fs.files[i := c], fs.lists[i := fs.lists[i] + xs], Taken(fs.owner, i, xs)))
  {
    ListInArea(g, disk, fs, i);
    OwnersGrow(g, fs.lists, fs.owner, i, xs);
    hide Owners, BitsAre, FreeZero, InodeBits, Inodes, LoadSuper, Holds, AllBlocks, SetOf;
    assert Private(g, fs.lists[i] + xs, fs.owner, i);
    Committed(g, disk, disk', fs, i, v, c, fs.lists[i] + xs, Taken(fs.owner, i, xs), fs.lists[i] + xs);
  }

  /** Storing the emptied inode, its blocks freed and zeroed, restores the invariant. */
  lemma ClearedCommitted(g: Geometry, disk: Disk, disk': Disk, fs: Fs, i: nat, v: Inode)
    requires FsInv(g, disk, fs) && i < |fs.files| && |fs.lists| == |fs.files|
    requires ZeroedOnly(g, disk, disk', fs.lists[i])
    requires BitsAre(g, disk', fs.owner.Keys - SetOf(fs.lists[i]))
    requires Emptied(v) && v.isDir == (i == 0)
    ensures var (b, off) := InodePos(g, i);
      && b < |disk'| && off + 128 <= 512
      && FsInv(g, disk'[b := StoreInode(disk'[b], off, v)],
               Fs(fs.files[i := []], fs.lists[i := []], Dropped(fs.owner, fs.lists[i])))
  {
    var l := fs.lists[i];
    ClearedFacts(g, disk, disk', fs, i);
    EmptyHolds(v, disk');
    hide FsInv, Owners, BitsAre, FreeZero, Holds, AllBlocks, ZeroedOnly, SameExcept, Private, Dropped, SetOf, StoreInode;
    Committed(g, disk, disk', fs, i, v, [], [], Dropped(fs.owner, l), l);
  }

  lemma ClearedFacts(g: Geometry, disk: Disk, disk': Disk, fs: Fs, i: nat)
    requires FsInv(g, disk, fs) && i < |fs.files| && |fs.lists| == |fs.files|
    requires ZeroedOnly(g, disk, disk', fs.lists[i])
    ensures Private(g, fs.lists[i], fs.owner, i) && SameExcept(g, disk, disk', fs.lists[i])
    ensures FreeZero(g, disk', fs.owner.Keys - SetOf(fs.lists[i]))
    ensures Owners(fs.lists[i := []], Dropped(fs.owner, fs.lists[i]))
  {
    ListInArea(g, disk, fs, i);
    OwnersClear(fs.lists, fs.owner, i);
    hide Owners, BitsAre, InodeBits, Inodes, LoadSuper;
  }

  /** The lowest clear bit of the inode bitmap is the number of inodes. */
  lemma NextInode(g: Geometry, disk: Disk, n: nat, r: Option<nat>)
    requires InodeBits(g, disk, n) && n < g.InodeBitmap().Maximum()
    requires r.None? ==> g.InodeBitmap().FullBelow(disk, g.InodeBitmap().Maximum())
    requires r.Some? ==> r.value < g.InodeBitmap().Maximum() && !g.InodeBitmap().IsSet(disk, r.value)
    requires r.Some? ==> g.InodeBitmap().FullBelow(disk, r.value)
    ensures r == Some(n)
  {
    hide BlockBit;
    assert !g.InodeBitmap().IsSet(disk, n);
  }

  /** Writing an entry at the end of a directory adds a name to it. */
  lemma AppendEntry(names: seq<Name>, name: Name)
    requires DirNames(names) && ValidName(name) && name !in names
    ensures DirNames(names + [name])
    ensures Written(EncodeDir(names), 32 * |names|, EncodeEntry(name, |names| + 1)) == EncodeDir(names + [name])
  {
    NamesSnoc(names, name);
    EntrySize(names, name, |names| + 1);
    hide EncodeDir, EncodeEntry, Written, DirNames, ValidName;
    AppendWrite(EncodeDir(names), EncodeEntry(name, |names| + 1));
  }

  lemma NamesSnoc(names: seq<Name>, name: Name)
    requires DirNames(names) && ValidName(name) && name !in names
    ensures DirNames(names + [name]) && |name| <= 28 && forall k :: 0 <= k < |names| ==> |names[k]| <= 28
    ensures EncodeDir(names + [name]) == EncodeDir(names) + EncodeEntry(name, |names| + 1)
  {
    hide EncodeEntry;
    assert (names + [name])[..|names|] == names;
  }

  /** Writing at the end appends. */
  lemma AppendWrite(c: seq<byte>, buf: seq<byte>)
    ensures Written(c, |c|, buf) == c + buf
  {
  }

  ghost predicate IsRoot(files: seq<seq<byte>>, names: seq<Name>) {
    DirNames(names) && |files| == |names| + 1 && files[0] == EncodeDir(names)
  }

  /** A zeroed device with a super block is a file system without inodes. */
  lemma Blank(g: Geometry, b: Block, disk: Disk)
    requires g.Ok() && g.total <= |disk| && disk[0] == StoreSuper(b, g)
    requires forall j :: 1 <= j < g.total ==> disk[j] == ZERO_BLOCK
    ensures FsInv(g, disk, Fs([], [], map[]))
  {
    hide BlockBit, StoreSuper;
    SuperRoundTrip(b, g);
    forall i | 0 <= i < 4096 ensures !BlockBit(ZERO_BLOCK, i) {
      ZeroBlockBit(i);
    }
  }

  /** Zero the first `total` blocks. */
  method ZeroBlocks(cache: BlockCacheManager, total: nat)
    requires cache.Valid() && cache.pins == multiset{} && total <= |cache.view|
    modifies cache
    ensures cache.Valid() && cache.pins == multiset{} && |cache.view| == |old(cache.view)|
    ensures forall j :: 0 <= j < total ==> cache.view[j] == ZERO_BLOCK
  {
    hide Queued, Counted, Coherent;
    var i := 0;
    while i < total
      invariant 0 <= i <= total && |cache.view| == |old(cache.view)|
      invariant cache.Valid() && cache.pins == multiset{}
      invariant forall j :: 0 <= j < i ==> cache.view[j] == ZERO_BLOCK
    {
      cache.WriteBlock(i, ZERO_BLOCK);
      i := i + 1;
    }
  }

  lemma RootSize(g: Geometry, disk: Disk, fs: Fs, names: seq<Name>)
    requires FsInv(g, disk, fs) && |fs.files| > 0 && DirNames(names) && fs.files[0] == EncodeDir(names)
    ensures InodeOf(g, disk, 0).size == 32 * |names|
  {
    InvShows(g, disk, fs, 0);
  }

  class FileSystem {
    const g: Geometry
    const cache: BlockCacheManager
    ghost var fs: Fs
    ghost var names: seq<Name>

    /** Between operations: the invariant of the image holds of what the cache
        shows, and no block is pinned. */
    ghost predicate Valid()
      reads this, cache
    {
      cache.Valid() && cache.pins == multiset{} && FsInv(g, cache.view, fs)
    }

    /** Moreover inode 0 is a directory that names inode k + 1 in its k-th entry,
        and there are no other inodes. */
    ghost predicate DirValid()
      reads this, cache
    {
      Valid() && IsRoot(fs.files, names)
    }

    /** Make a file system: zero all blocks, write the super block, and allocate the
        root directory as inode 0. */
    constructor Make(cache: BlockCacheManager, total: u32, inodeBitmapBlocks: u32)
      requires cache.Valid() && cache.pins == multiset{} && total <= |cache.view|
      requires 1 <= inodeBitmapBlocks && 1 + 1025 * inodeBitmapBlocks <= total
      modifies cache
      ensures DirValid() && this.cache == cache && g == Regions(total, inodeBitmapBlocks)
      ensures fs == Fs([[]], [[]], map[]) && names == [] && cache.Clean()
    {
      hide Queued, Counted, Coherent, StoreSuper, Regions, FsInv;
      this.g := Regions(total, inodeBitmapBlocks);
      this.cache := cache;
      this.fs := Fs([], [], map[]);
      this.names := [];
      new;
      RegionsPartition(total, inodeBitmapBlocks);
      ZeroBlocks(cache, total);
      cache.Acquire(0);
      var b := cache.Read(0);
      cache.Modify(0, StoreSuper(b, g));
      cache.DropHandle(0);
      Blank(g, b, cache.view);
      var root := AllocInode(true);
      cache.Flush();
    }

    /** Mount an image by its super block, whose magic number must be right. */
    constructor Open(cache: BlockCacheManager, ghost fs: Fs, ghost names: seq<Name>)
      requires cache.Valid() && cache.pins == multiset{} && 0 < |cache.view|
      requires LoadSuper(cache.view[0]).Some?
      modifies cache
      ensures this.cache == cache && this.fs == fs && this.names == names
      ensures cache.Valid() && cache.pins == multiset{} && cache.view == old(cache.view)
      ensures old(cache.Clean()) ==> cache.Clean()
      ensures Some(g) == LoadSuper(cache.view[0])
    {
      hide Queued, Counted, Coherent, LoadSuper;
      var b := cache.ReadBlock(0);
      this.g := LoadSuper(b).value;
      this.cache := cache;
      this.fs := fs;
      this.names := names;
    }

    /** Lock the block of inode `i` and load the inode. */
    method Load(i: nat) returns (d: DiskInode)
      requires Valid() && i < |fs.files|
      modifies cache
      ensures cache.Valid() && cache.pins == multiset{InodePos(g, i).0} && cache.view == old(cache.view)
      ensures old(cache.Clean()) ==> cache.Clean()
      ensures fresh(d) && d.Val() == InodeOf(g, cache.view, i)
    {
      hide Queued, Counted, Coherent, FsInv, Decode;
      InvShows(g, cache.view, fs, i);
      var (b, off) := InodePos(g, i);
      cache.Acquire(b);
      var blk := cache.Read(b);
      d := new DiskInode(Decode(blk, off));
    }

    /** Store the inode `d` as inode `i` and let its block go. */
    method Store(i: nat, d: DiskInode)
      requires cache.Valid() && cache.pins == multiset{InodePos(g, i).0}
      requires InodePos(g, i).0 < |cache.view| && InodePos(g, i).1 + 128 <= 512 && |d.direct| == 28
      modifies cache
      ensures cache.Valid() && cache.pins == multiset{}
      ensures var (b, off) := InodePos(g, i);
        cache.view == old(cache.view)[b := StoreInode(old(cache.view)[b], off, d.Val())]
    {
      hide Queued, Counted, Coherent, StoreInode;
      var (b, off) := InodePos(g, i);
      var blk := cache.Read(b);
      cache.Modify(b, StoreInode(blk, off, d.Val()));
      cache.DropHandle(b);
    }

    /** Grow the locked inode `i` if need be, write `buf` at `offset`, and store it. */
    method WriteInode(i: nat, d: DiskInode, offset: nat, buf: seq<byte>) returns (n: nat)
      requires cache.Valid() && cache.pins == multiset{InodePos(g, i).0}
      requires FsInv(g, cache.view, fs) && i < |fs.files| && d.Val() == InodeOf(g, cache.view, i)
      requires offset + |buf| <= MAX_SIZE
      requires |fs.owner.Keys| + Needed(|fs.files[i]|, offset + |buf|) <= g.dataAreaBlocks
      requires Writable(|fs.files[i]|, offset, |buf|)
      modifies this`fs, d, cache
      ensures Valid() && n == |buf|
      ensures fs.files == old(fs.files)[i := Written(old(fs.files)[i], offset, buf)]
      ensures Grew(g, old(fs), fs, i)
    {
      hide Queued, Counted, Coherent, FsInv, InodePos, InodeOf, SetOf, StoreInode, SameExcept, FreshBlocks,
        Shows, Written, Needed, PinsBelow, Taken, Writable;
      InvShows(g, cache.view, fs, i);
      InodeInside(g, cache.view, fs, i);
      ghost var disk, c, l := cache.view, fs.files[i], fs.lists[i];
      ghost var xs: seq<u32>;
      n, xs := GrowAndWrite(g, cache, d, offset, buf, c, l, fs.owner.Keys);
      GrownCommitted(g, disk, cache.view, fs, i, d.Val(), Written(c, offset, buf), xs);
      ShowsLength(g, cache.view, d.Val(), Written(c, offset, buf), l + xs, fs.owner.Keys + SetOf(xs));
      Store(i, d);
      fs := Fs(fs.files[i := Written(c, offset, buf)], fs.lists[i := l + xs], Taken(fs.owner, i, xs));
      assert GrewBy(g, old(fs), fs, i, xs);
    }

    /** Write `buf` at `offset` of inode `i`.  The file shows the new bytes in the
        range, its old bytes elsewhere, and zeros between the old end and the new
        bytes; no other file changes.  The caller must leave room for the blocks
        needed, and an empty write must not look past the last block. */
    method WriteAt(i: nat, offset: nat, buf: seq<byte>) returns (n: nat)
      requires Valid() && i < |fs.files|
      requires offset + |buf| <= MAX_SIZE
      requires |fs.owner.Keys| + Needed(|fs.files[i]|, offset + |buf|) <= g.dataAreaBlocks
      requires Writable(|fs.files[i]|, offset, |buf|)
      modifies this`fs, cache
      ensures Valid() && n == |buf| && cache.Clean()
      ensures fs.files == old(fs.files)[i := Written(old(fs.files)[i], offset, buf)]
      ensures Grew(g, old(fs), fs, i)
    {
      hide Queued, Counted, Coherent, FsInv, Written, Grew;
      var d := Load(i);
      n := WriteInode(i, d, offset, buf);
      cache.Flush();
    }

    /** Read up to `len` bytes at `offset` of inode `i`. */
    method ReadAt(i: nat, offset: nat, len: nat) returns (data: seq<byte>)
      requires Valid() && i < |fs.files|
      modifies cache
      ensures Valid() && cache.view == old(cache.view)
      ensures old(cache.Clean()) ==> cache.Clean()
      ensures var c := fs.files[i];
        data == if offset < |c| then c[offset..if offset + len < |c| then offset + len else |c|] else []
    {
      hide Queued, Counted, Coherent, FsInv, InodePos, InodeOf, FreshBlocks, BitsAre, FreeZero, Holds, AllBlocks;
      InvShows(g, cache.view, fs, i);
      ghost var l, used := fs.lists[i], fs.owner.Keys;
      var d := Load(i);
      ShowsSelf(g, cache.view, l, used);
      ShowsUsable(g, cache.view, d.Val(), fs.files[i], l, used, [], cache.view, cache.pins);
      data := d.ReadAt(offset, len, cache, fs.files[i]);
      cache.DropHandle(InodePos(g, i).0);
    }

    /** Empty inode `i`.  Exactly its blocks are freed: `total_blocks(size)` of
        them, each once; no other file changes. */
    method Clear(i: nat)
      requires Valid() && i < |fs.files|
      modifies this`fs, cache
      ensures Valid() && cache.Clean()
      ensures i < |old(fs.lists)| && |old(fs.lists)[i]| == TotalBlocks(|old(fs.files)[i]|)
      ensures fs == Fs(old(fs.files)[i := []], old(fs.lists)[i := []], Dropped(old(fs.owner), old(fs.lists)[i]))
    {
      hide Queued, Counted, Coherent, FsInv, InodePos, InodeOf, FreshBlocks, BitsAre, FreeZero, Holds, SetOf,
        StoreInode, ZeroedOnly, TotalOf, Distinct;
      InvShows(g, cache.view, fs, i);
      ghost var disk, l, used := cache.view, fs.lists[i], fs.owner.Keys;
      var d := Load(i);
      ShowsSelf(g, cache.view, l, used);
      ShowsUsable(g, cache.view, d.Val(), fs.files[i], l, used, [], cache.view, cache.pins);
      HoldsSize(d.Val(), cache.view, fs.files[i]);
      var size := d.size;
      var v := d.ClearSize(cache);
      assert |v| == TotalBlocks(size);
      UsableEach(v, cache.view, cache.pins);
      DeallocBlocks(g, cache, v, used);
      ClearedCommitted(g, disk, cache.view, fs, i, d.Val());
      Store(i, d);
      fs := Fs(fs.files[i := []], fs.lists[i := []], Dropped(fs.owner, l));
      cache.Flush();
    }

    /** Allocate the next inode number and store an empty inode there. */
    method AllocInode(isDir: bool) returns (id: nat)
      requires Valid() && |fs.files| < g.InodeBitmap().Maximum() && isDir == (|fs.files| == 0)
      modifies this`fs, cache
      ensures Valid() && id == |old(fs.files)|
      ensures fs == Fs(old(fs.files) + [[]], old(fs.lists) + [[]], old(fs.owner))
    {
      hide Queued, Counted, Coherent, StoreInode, EmptyInode, LoadSuper, BlockBit, BitsAre, FreeZero, Inodes, Owners;
      ghost var disk := cache.view;
      var r := g.InodeBitmap().Alloc(cache);
      NextInode(g, disk, |fs.files|, r);
      id := r.value;
      ghost var disk1 := cache.view;
      InodePosInside(g, id, id);
      var (b, off) := InodePos(g, id);
      cache.Acquire(b);
      var blk := cache.Read(b);
      cache.Modify(b, StoreInode(blk, off, EmptyInode(isDir)));
      cache.DropHandle(b);
      InodeAdded(g, disk, disk1, cache.view, fs);
      fs := Fs(fs.files + [[]], fs.lists + [[]], fs.owner);
    }

    /** Scan the directory `d` for `name`: its inode number, if it is there. */
    method FindInodeId(d: DiskInode, name: Name, ghost l: seq<u32>) returns (r: Option<nat>)
      requires cache.Valid() && |cache.pins| + 1 < MAX_PINS && PinsBelow(g, cache.pins)
      requires DirNames(names) && Shows(g, cache.view, d.Val(), EncodeDir(names), l, fs.owner.Keys)
      modifies cache
      ensures cache.Valid() && cache.pins == old(cache.pins) && cache.view == old(cache.view)
      ensures old(cache.Clean()) ==> cache.Clean()
      ensures r.None? ==> name !in names
      ensures r.Some? ==> 1 <= r.value <= |names| && names[r.value - 1] == name
    {
      hide Queued, Counted, Coherent, Holds, AllBlocks, FreshBlocks, BitsAre, FreeZero, EncodeDir, NameOf,
        NumberOf;
      ghost var c := EncodeDir(names);
      HoldsSize(d.Val(), cache.view, c);
      ShowsSelf(g, cache.view, l, fs.owner.Keys);
      ShowsUsable(g, cache.view, d.Val(), c, l, fs.owner.Keys, [], cache.view, cache.pins);
      var count := d.size / 32;
      var i := 0;
      while i < count
        invariant 0 <= i <= count && name !in names[..i]
        invariant cache.Valid() && cache.pins == old(cache.pins) && cache.view == old(cache.view)
        invariant old(cache.Clean()) ==> cache.Clean()
      {
        var e := d.ReadAt(32 * i, 32, cache, c);
        assert |e| == 32;
        DirEntryAt(names, i, e);
        if NameOf(e) == Some(name) {
          return Some(NumberOf(e));
        }
        assert names[..i + 1] == names[..i] + [names[i]];
        i := i + 1;
      }
      assert names[..i] == names;
      r := None;
    }

    /** Find a file by name. */
    method Find(name: Name) returns (r: Option<nat>)
      requires DirValid()
      modifies cache
      ensures DirValid() && cache.view == old(cache.view)
      ensures old(cache.Clean()) ==> cache.Clean()
      ensures r.None? <==> name !in names
      ensures r.Some? ==> 1 <= r.value <= |names| && names[r.value - 1] == name
    {
      hide Queued, Counted, Coherent, FsInv, InodePos, InodeOf, Shows, PinsBelow, EncodeDir;
      InvShows(g, cache.view, fs, 0);
      var d := Load(0);
      r := FindInodeId(d, name, fs.lists[0]);
      cache.DropHandle(InodePos(g, 0).0);
    }

    /** List the directory: the names in the order of their creation. */
    method Ls() returns (v: seq<Name>)
      requires DirValid()
      modifies cache
      ensures DirValid() && cache.view == old(cache.view)
      ensures old(cache.Clean()) ==> cache.Clean()
      ensures v == names
    {
      hide Queued, Counted, Coherent, FsInv, InodePos, InodeOf, Holds, AllBlocks, FreshBlocks, BitsAre, FreeZero,
        EncodeDir, NameOf, NumberOf;
      InvShows(g, cache.view, fs, 0);
      ghost var c, l := EncodeDir(names), fs.lists[0];
      var d := Load(0);
      HoldsSize(d.Val(), cache.view, c);
      ShowsSelf(g, cache.view, l, fs.owner.Keys);
      ShowsUsable(g, cache.view, d.Val(), c, l, fs.owner.Keys, [], cache.view, cache.pins);
      var count := d.size / 32;
      v := [];
      var i := 0;
      while i < count
        modifies cache
        invariant 0 <= i <= count && v == names[..i]
        invariant cache.Valid() && cache.pins == multiset{InodePos(g, 0).0} && cache.view == old(cache.view)
        invariant old(cache.Clean()) ==> cache.Clean()
      {
        var e := d.ReadAt(32 * i, 32, cache, c);
        assert |e| == 32;
        DirEntryAt(names, i, e);
        v := v + [NameOf(e).value];
        i := i + 1;
      }
      cache.DropHandle(InodePos(g, 0).0);
    }

    /** Create an empty file.  It fails exactly when the name is taken; otherwise the
        new file has the next inode number, and the name comes last. */
    method Create(name: Name) returns (r: Option<nat>)
      requires DirValid() && ValidName(name)
      requires name !in names ==>
        && |fs.files| < g.InodeBitmap().Maximum() && 32 * (|names| + 1) <= MAX_SIZE
        && |fs.owner.Keys| + Needed(32 * |names|, 32 * |names| + 32) <= g.dataAreaBlocks
      modifies this`fs, this`names, cache
      ensures DirValid()
      ensures old(cache.Clean()) ==> cache.Clean()
      ensures r.None? <==> name in old(names)
      ensures r.None? ==> fs == old(fs) && names == old(names) && cache.view == old(cache.view)
      ensures r.Some? ==> r.value == |old(fs.files)| && names == old(names) + [name] && names[r.value - 1] == name
      ensures r.Some? ==> |fs.files| == r.value + 1 && fs.files[r.value] == []
      ensures r.Some? ==> fs.files[1..r.value] == old(fs.files)[1..] && cache.Clean()
    {
      hide Queued, Counted, Coherent, FsInv, Needed, EncodeDir, DirNames, ValidName;
      r := Find(name);
      if r.Some? {
        return None;
      }
      var id := AllocInode(false);
      AddEntry(name, id);
      r := Some(id);
    }

    /** Write the entry of a new inode at the end of the directory. */
    method AddEntry(name: Name, id: nat)
      requires Valid() && DirNames(names) && ValidName(name) && name !in names
      requires 1 <= |fs.files| && fs.files[0] == EncodeDir(names) && id == |names| + 1
      requires 32 * (|names| + 1) <= MAX_SIZE
      requires |fs.owner.Keys| + Needed(32 * |names|, 32 * |names| + 32) <= g.dataAreaBlocks
      modifies this`fs, this`names, cache
      ensures Valid() && cache.Clean()
      ensures names == old(names) + [name] && DirNames(names) && fs.files == old(fs.files)[0 := EncodeDir(names)]
    {
      hide Queued, Counted, Coherent, FsInv, Needed, EncodeDir, EncodeEntry, Written, Grew, DirNames, ValidName,
        InodePos, InodeOf, Writable;
      EntrySize(names, name, id);
      AppendEntry(names, name);
      RootSize(g, cache.view, fs, names);
      var e := EncodeEntry(name, id);
      EntryWritable(|fs.files[0]|, 32 * |names|, |e|);
      var d := Load(0);
      var count := d.size / 32;
      assert count == |names|;
      var n := WriteInode(0, d, 32 * count, e);
      names := names + [name];
      cache.Flush();
    }
  }

  lemma EntryWritable(size: nat, offset: nat, len: nat)
    requires len == 32
    ensures Writable(size, offset, len)
  {
  }

  lemma EntrySize(names: seq<Name>, name: Name, id: nat)
    requires DirNames(names) && ValidName(name)
    ensures (forall k :: 0 <= k < |names| ==> |names[k]| <= 28) && |EncodeDir(names)| == 32 * |names|
    ensures |name| <= 28 && |EncodeEntry(name, id)| == 32
  {
  }

  /** Whatever is flushed survives: mounting the device with an empty cache shows
      the same files under the same names. */
  method Remount(f: FileSystem) returns (f': FileSystem)
    requires f.DirValid() && f.cache.Clean()
    ensures f'.DirValid() && f'.g == f.g && f'.fs == f.fs && f'.names == f.names
    ensures f'.cache.view == f.cache.device && f'.cache.Clean()
  {
    hide Queued, Counted, Coherent, InodeBits, Inodes, Owners, BitsAre, FreeZero, LoadSuper;
    var cache := new BlockCacheManager(f.cache.device);
    f' := new FileSystem.Open(cache, f.fs, f.names);
  }

  /** Growing an empty inode and clearing it again restores the whole image: the files,
      the block lists, the owner of every block, and with them the data bitmap. */
  method WriteThenClear(f: FileSystem, i: nat, offset: nat, buf: seq<byte>)
    requires f.Valid() && i < |f.fs.files| && f.fs.files[i] == []
    requires offset + |buf| <= MAX_SIZE && Writable(0, offset, |buf|)
    requires |f.fs.owner.Keys| + Needed(0, offset + |buf|) <= f.g.dataAreaBlocks
    modifies f`fs, f.cache
    ensures f.Valid() && f.fs == old(f.fs) && BitsAre(f.g, f.cache.view, f.fs.owner.Keys)
  {
    hide Queued, Counted, Coherent, Written, FreshBlocks, Taken, Dropped, SetOf, BitsAre, FsInv, TotalOf, Needed;
    NoBlocks(f.g, f.cache.view, f.fs, i);
    ghost var was := f.fs;
    var n := f.WriteAt(i, offset, buf);
    Regrown(f.g, was, f.fs, i);
    f.Clear(i);
    InvBits(f.g, f.cache.view, f.fs);
  }

  /** Clearing undoes the growth of an empty inode. */
  lemma Regrown(g: Geometry, fs: Fs, fs': Fs, i: nat)
    requires Grew(g, fs, fs', i) && i < |fs.files| && fs.lists[i] == []
    ensures i < |fs'.lists| && fs'.lists[i := []] == fs.lists && Dropped(fs'.owner, fs'.lists[i]) == fs.owner
  {
    hide FreshBlocks, Taken, Dropped, SetOf, TotalOf;
    var xs :| GrewBy(g, fs, fs', i, xs);
    assert fs'.lists[i] == xs;
    TakenThenDropped(g, fs.owner, i, xs);
  }

  lemma NoBlocks(g: Geometry, disk: Disk, fs: Fs, i: nat)
    requires FsInv(g, disk, fs) && i < |fs.files| && fs.files[i] == []
    ensures i < |fs.lists| && fs.lists[i] == []
  {
    assert InodeShows(g, disk, i, fs.files[i], fs.lists[i]);
    HoldsSize(InodeOf(g, disk, i), disk, []);
  }

  lemma InvBits(g: Geometry, disk: Disk, fs: Fs)
    requires FsInv(g, disk, fs)
    ensures BitsAre(g, disk, fs.owner.Keys)
  {
  }

  /** The blocks that a write at block `inner` opens: the index blocks on the way, then
      the block it writes to. */
  ghost function Opened(v: Inode, disk: Disk, inner: nat): seq<u32>
    requires |v.direct| == 28
  {
    if inner < 28 then [v.direct[inner]]
    else if inner < 156 then [v.indirect1, Entry(disk, v.indirect1, inner - 28)]
    else
      var sub := Entry(disk, v.indirect2, (inner - 156) / 128);
      [v.indirect2, sub, Entry(disk, sub, (inner - 156) % 128)]
  }

  /** An empty write at the end of a full last block stays on the device exactly when no
      index block comes first.  Otherwise the slot of that index block is empty, so that
      the super block is taken for it and its magic number for a block id: for 14336
      bytes, say, that is the data block.  The device is shorter than that number of blocks. */
  lemma EmptyWriteFails(g: Geometry, disk: Disk, fs: Fs, i: nat)
    requires FsInv(g, disk, fs) && i < |fs.files| && |disk| <= EFS_MAGIC
    requires |fs.files[i]| % 512 == 0 && |fs.files[i]| < MAX_SIZE
    ensures var v, n := InodeOf(g, disk, i), |fs.files[i]|;
      Writable(n, n, 0) <==> forall k :: 0 <= k < |Opened(v, disk, n / 512)| ==> Opened(v, disk, n / 512)[k] < |disk|
  {
    var v, c := InodeOf(g, disk, i), fs.files[i];
    InvShows(g, disk, fs, i);
    ListInArea(g, disk, fs, i);
    assert Holds(v, disk, c) && U32At(disk[0], 0) == EFS_MAGIC && AllBlocks(v, disk) == fs.lists[i];
    hide FsInv, U32At, InodeOf;
    if NextIsData(|c| / 512) {
      NextIsZero(v, disk, c);
      OpenedInside(disk, v, |c| / 512);
    } else {
      NextOffDevice(disk, v, c);
    }
  }

  /** A lookup through blocks in use opens blocks of the device only. */
  lemma OpenedInside(disk: Disk, v: Inode, n: nat)
    requires v.WellFormed() && Reaches(v.size, n) && Distinct(AllBlocks(v, disk), disk) && At(v, disk, Pos(n)) < |disk|
    ensures forall k :: 0 <= k < |Opened(v, disk, n)| ==> Opened(v, disk, n)[k] < |disk|
  {
    hide At, Entry, Pos, TotalOf, Distinct, Reaches, Slots, DataBlocks;
    var s := AllBlocks(v, disk);
    var q, id := Lookup(v, disk, n);
    if n >= 28 {
      DistinctAt(s, disk, 28);
    }
    if n >= 156 {
      DistinctAt(s, disk, 157);
      DistinctAt(s, disk, q);
    }
  }

  lemma NextOffDevice(disk: Disk, v: Inode, c: seq<byte>)
    requires Holds(v, disk, c) && 0 < |disk| && U32At(disk[0], 0) == EFS_MAGIC
    requires |c| % 512 == 0 && !NextIsData(|c| / 512) && |c| < MAX_SIZE
    ensures EFS_MAGIC in Opened(v, disk, |c| / 512)
  {
    var n := |c| / 512;
    IndexNext(n);
    hide U32At, TotalOf, NextIsData, Pos;
    assert At(v, disk, TotalOf(n)) == 0;
    assert Entry(disk, 0, 0) == EFS_MAGIC;
    if n == 28 {
      assert Opened(v, disk, n)[1] == EFS_MAGIC;
    } else if n == 156 {
      assert Opened(v, disk, n)[1] == EFS_MAGIC;
    } else {
      assert Opened(v, disk, n)[2] == EFS_MAGIC;
    }
  }

  /** The index block that comes first, and where its id is kept. */
  lemma IndexNext(n: nat)
    requires !NextIsData(n) && n < 16540
    ensures n == 28 || n >= 156
    ensures n == 28 ==> TotalOf(n) == 28
    ensures n == 156 ==> TotalOf(n) == 157
    ensures n > 156 ==>
      var p := TotalOf(n);
      && (n - 156) % 128 == 0 && Stored(p) && IndexPos(p) == 157 && EntryPos(p) == (n - 156) / 128
      && Kept(p, p) && p < SLOTS
  {
    if n > 156 {
      var a := (n - 156) / 128;
      assert n == 156 + 128 * a && TotalOf(n) == 158 + 129 * a;
    }
  }
}
