/** The invariant of a mounted easy-fs image.

    `files[i]` are the bytes of inode `i`, `lists[i]` its blocks in slot order, and
    `owner` maps every data block in use to the inode it belongs to. */
module FsState {
  import opened Words
  import opened BlockCaches
  import opened Bitmaps
  import opened InodeTree
  import opened InodeBytes
  import opened Efs

  datatype Fs = Fs(files: seq<seq<byte>>, lists: seq<seq<u32>>, owner: map<nat, nat>)

  /** Each inode shows its file; inode 0 is the one directory. */
  ghost predicate InodeShows(g: Geometry, disk: Disk, i: nat, c: seq<byte>, l: seq<u32>) {
    var v := InodeOf(g, disk, i);
    Holds(v, disk, c) && AllBlocks(v, disk) == l && v.isDir == (i == 0)
  }

  ghost predicate Inodes(g: Geometry, disk: Disk, fs: Fs) {
    && |fs.lists| == |fs.files|
    && forall i :: 0 <= i < |fs.files| ==> InodeShows(g, disk, i, fs.files[i], fs.lists[i])
  }

  /** Inode ids are handed out consecutively and never taken back. */
  ghost predicate InodeBits(g: Geometry, disk: Disk, n: nat) {
    && n <= g.InodeBitmap().Maximum()
    && g.InodeBitmap().Fits(disk)
    && forall i :: 0 <= i < g.InodeBitmap().Maximum() ==> (g.InodeBitmap().IsSet(disk, i) <==> i < n)
  }

  /** The block lists have no block twice, neither one list nor two. */
  ghost predicate Owners(lists: seq<seq<u32>>, owner: map<nat, nat>) {
    && (forall i, p :: 0 <= i < |lists| && 0 <= p < |lists[i]| ==>
          lists[i][p] in owner && owner[lists[i][p]] == i)
    && (forall id :: id in owner ==> owner[id] < |lists| && id in lists[owner[id]])
    && (forall i, p, q :: 0 <= i < |lists| && 0 <= p < q < |lists[i]| ==> lists[i][p] != lists[i][q])
  }

  /** Data blocks that are not in use are all zero. */
  ghost predicate FreeZero(g: Geometry, disk: Disk, used: set<nat>) {
    forall id :: g.DataStart() <= id < g.total && id !in used ==> BlockOf(disk, id) == ZERO_BLOCK
  }

  ghost predicate FsInv(g: Geometry, disk: Disk, fs: Fs) {
    && g.Ok() && g.total <= |disk|
    && LoadSuper(BlockOf(disk, 0)) == Some(g)
    && InodeBits(g, disk, |fs.files|)
    && Inodes(g, disk, fs)
    && Owners(fs.lists, fs.owner)
    && BitsAre(g, disk, fs.owner.Keys)
    && FreeZero(g, disk, fs.owner.Keys)
  }

  /** `disk'` keeps the blocks below the data bitmap except inode `i`, which
      becomes `v`, and it keeps the data blocks of all other inodes. */
  ghost predicate OnlyInode(g: Geometry, disk: Disk, disk': Disk, i: nat, v: Inode, owner: map<nat, nat>)
    requires |v.direct| == 28
  {
    var (block, off) := InodePos(g, i);
    && |disk'| == |disk|
    && BlockOf(disk', block) == StoreInode(BlockOf(disk, block), off, v)
    && (forall id :: 0 <= id < g.DataBitmap().start && id != block ==> BlockOf(disk', id) == BlockOf(disk, id))
    && (forall id :: id in owner && owner[id] != i ==> BlockOf(disk', id) == BlockOf(disk, id))
  }

  /** An inode is unchanged when another one is stored. */
  lemma InodeKept(g: Geometry, disk: Disk, disk': Disk, i: nat, v: Inode, owner: map<nat, nat>, j: nat)
    requires g.Ok() && |v.direct| == 28 && OnlyInode(g, disk, disk', i, v, owner)
    requires i < g.InodeBitmap().Maximum() && j < g.InodeBitmap().Maximum()
    ensures InodeOf(g, disk', j) == if j == i then v else InodeOf(g, disk, j)
  {
    InodePosInside(g, i, j);
    InodePosInside(g, j, i);
    var (block, off) := InodePos(g, i);
    if j == i {
      StoreThenLoad(BlockOf(disk, block), off, v);
    } else if InodePos(g, j).0 == block {
      StoreElsewhere(BlockOf(disk, block), off, v, InodePos(g, j).1);
    }
  }

  /** An inode shows the same when it and the blocks in use are the same. */
  lemma ShowsKept(g: Geometry, disk: Disk, disk': Disk, fs: Fs, j: nat)
    requires Inodes(g, disk, fs) && Owners(fs.lists, fs.owner) && j < |fs.files|
    requires InodeOf(g, disk', j) == InodeOf(g, disk, j)
    requires forall p :: 0 <= p < |fs.lists[j]| ==> BlockOf(disk', fs.lists[j][p]) == BlockOf(disk, fs.lists[j][p])
    ensures InodeShows(g, disk', j, fs.files[j], fs.lists[j])
  {
    hide At, Decode, TotalOf, Holds, InodeOf;
    var w := InodeOf(g, disk, j);
    assert InodeShows(g, disk, j, fs.files[j], fs.lists[j]);
    HoldsSize(w, disk, fs.files[j]);
    forall p | 0 <= p < TotalBlocks(w.size) ensures BlockOf(disk', At(w, disk, p)) == BlockOf(disk, At(w, disk, p)) {
      assert fs.lists[j][p] == At(w, disk, p);
    }
    HoldsFrame(w, disk, disk', fs.files[j]);
  }

  /** What another inode shows is unchanged. */
  lemma OtherKept(g: Geometry, disk: Disk, disk': Disk, fs: Fs, i: nat, v: Inode, j: nat)
    requires g.Ok() && Inodes(g, disk, fs) && Owners(fs.lists, fs.owner)
    requires |fs.files| <= g.InodeBitmap().Maximum()
    requires |v.direct| == 28 && OnlyInode(g, disk, disk', i, v, fs.owner)
    requires i < g.InodeBitmap().Maximum() && j < |fs.files| && j != i
    ensures InodeShows(g, disk', j, fs.files[j], fs.lists[j])
  {
    hide StoreInode, InodeOf, InodeShows;
    InodeKept(g, disk, disk', i, v, fs.owner, j);
    ShowsKept(g, disk, disk', fs, j);
  }

  lemma HoldsSize(v: Inode, disk: Disk, c: seq<byte>)
    requires Holds(v, disk, c)
    ensures v.size == |c| && v.WellFormed() && Tail(v, disk, TotalBlocks(v.size))
  {
  }

  lemma InodeBitsKept(g: Geometry, disk: Disk, disk': Disk, n: nat)
    requires InodeBits(g, disk, n) && |disk'| == |disk|
    requires forall id :: 0 <= id < g.InodeStart() ==> BlockOf(disk', id) == BlockOf(disk, id)
    ensures InodeBits(g, disk', n)
  {
    forall i | 0 <= i < g.InodeBitmap().Maximum()
      ensures g.InodeBitmap().IsSet(disk', i) == g.InodeBitmap().IsSet(disk, i)
    {
      assert BlockOf(disk', 1 + i / 4096) == BlockOf(disk, 1 + i / 4096);
    }
  }

  /** Replacing one inode and its blocks keeps the invariant. */
  lemma Replaced(g: Geometry, disk: Disk, disk': Disk, fs: Fs, i: nat, v: Inode,
                 c: seq<byte>, l: seq<u32>, owner: map<nat, nat>)
    requires FsInv(g, disk, fs) && i < |fs.files|
    requires Owners(fs.lists[i := l], owner)
    requires |v.direct| == 28 && OnlyInode(g, disk, disk', i, v, fs.owner)
    requires Holds(v, disk', c) && AllBlocks(v, disk') == l && v.isDir == (i == 0)
    requires BitsAre(g, disk', owner.Keys) && FreeZero(g, disk', owner.Keys)
    ensures FsInv(g, disk', Fs(fs.files[i := c], fs.lists[i := l], owner))
  {
    hide At, StoreInode, Decode, TotalOf, Holds, Owners, BitsAre, FreeZero, LoadSuper, BlockBit;
    var fs' := Fs(fs.files[i := c], fs.lists[i := l], owner);
    forall j | 0 <= j < |fs'.files| ensures InodeShows(g, disk', j, fs'.files[j], fs'.lists[j]) {
      if j == i {
        InodeKept(g, disk, disk', i, v, fs.owner, i);
      } else {
        OtherKept(g, disk, disk', fs, i, v, j);
      }
    }
    InodePosInside(g, i, i);
    InodeBitsKept(g, disk, disk', |fs.files|);
  }

  /** The owner map after inode `i` has taken the blocks `xs`. */
  ghost function Taken(owner: map<nat, nat>, i: nat, xs: seq<u32>): (r: map<nat, nat>)
    ensures r.Keys == owner.Keys + SetOf(xs)
  {
    owner + map x | x in SetOf(xs) :: i
  }

  lemma OwnersGrow(g: Geometry, lists: seq<seq<u32>>, owner: map<nat, nat>, i: nat, xs: seq<u32>)
    requires Owners(lists, owner) && i < |lists| && FreshBlocks(g, xs, owner.Keys)
    ensures Owners(lists[i := lists[i] + xs], Taken(owner, i, xs))
  {
    var l := lists[i] + xs;
    var lists' := lists[i := l];
    var owner' := Taken(owner, i, xs);
    forall j, p | 0 <= j < |lists'| && 0 <= p < |lists'[j]|
      ensures lists'[j][p] in owner' && owner'[lists'[j][p]] == j
    {
      if j == i && p >= |lists[i]| {
        assert l[p] == xs[p - |lists[i]|];
      } else {
        assert lists'[j][p] == lists[j][p];
      }
    }
    forall id | id in owner' ensures owner'[id] < |lists'| && id in lists'[owner'[id]] {
      if id in SetOf(xs) {
        assert id in xs && id in l;
      } else {
        assert id in lists[owner[id]];
      }
    }
  }

  /** The owner map after inode `i` has given up the blocks `l`. */
  ghost function Dropped(owner: map<nat, nat>, l: seq<u32>): (r: map<nat, nat>)
    ensures r.Keys == owner.Keys - SetOf(l)
  {
    owner - SetOf(l)
  }

  lemma OwnersClear(lists: seq<seq<u32>>, owner: map<nat, nat>, i: nat)
    requires Owners(lists, owner) && i < |lists|
    ensures Owners(lists[i := []], Dropped(owner, lists[i]))
  {
    var lists', owner' := lists[i := []], Dropped(owner, lists[i]);
    forall j, p | 0 <= j < |lists'| && 0 <= p < |lists'[j]|
      ensures lists'[j][p] in owner' && owner'[lists'[j][p]] == j
    {
      assert lists'[j][p] == lists[j][p];
    }
  }

  /** Giving up what was taken restores the blocks in use. */
  lemma TakenThenDropped(g: Geometry, owner: map<nat, nat>, i: nat, xs: seq<u32>)
    requires FreshBlocks(g, xs, owner.Keys)
    ensures Dropped(Taken(owner, i, xs), xs) == owner
  {
  }

  /** Inode `i` has taken fresh blocks for its contents, and nothing else has. */
  ghost predicate Grew(g: Geometry, fs: Fs, fs': Fs, i: nat) {
    && i < |fs.lists| && i < |fs'.files|
    && exists xs :: GrewBy(g, fs, fs', i, xs)
  }

  ghost predicate GrewBy(g: Geometry, fs: Fs, fs': Fs, i: nat, xs: seq<u32>)
    requires i < |fs.lists| && i < |fs'.files|
  {
    && FreshBlocks(g, xs, fs.owner.Keys)
    && fs'.lists == fs.lists[i := fs.lists[i] + xs]
    && fs'.owner == Taken(fs.owner, i, xs)
    && |fs'.lists[i]| == TotalBlocks(|fs'.files[i]|)
  }

  /** The blocks of an inode are distinct blocks of the data area. */
  lemma ListInArea(g: Geometry, disk: Disk, fs: Fs, i: nat)
    requires FsInv(g, disk, fs) && i < |fs.files|
    ensures Distinct(fs.lists[i], disk)
    ensures forall p :: 0 <= p < |fs.lists[i]| ==>
      g.DataStart() <= fs.lists[i][p] < g.total && fs.lists[i][p] in fs.owner && fs.owner[fs.lists[i][p]] == i
  {
    hide InodeShows, InodeBits, LoadSuper, FreeZero;
    assert forall p :: 0 <= p < |fs.lists[i]| ==> fs.lists[i][p] in fs.owner.Keys;
  }

  /** `disk'` differs from `disk` at most in the data bitmap and in the blocks `l`. */
  ghost predicate SameExcept(g: Geometry, disk: Disk, disk': Disk, l: seq<u32>) {
    && |disk'| == |disk|
    && forall id {:trigger disk'[id]} ::
         0 <= id < |disk| && !(g.DataBitmap().start <= id < g.DataStart()) && id !in l ==> disk'[id] == disk[id]
  }

  /** The blocks `l` lie in the data area and belong to inode `i` or to nobody. */
  ghost predicate Private(g: Geometry, l: seq<u32>, owner: map<nat, nat>, i: nat) {
    forall x :: x in l ==> g.DataStart() <= x < g.total && (x in owner ==> owner[x] == i)
  }

  lemma BitsFrame(g: Geometry, disk: Disk, disk': Disk, used: set<nat>)
    requires BitsAre(g, disk, used) && |disk'| == |disk|
    requires forall id :: g.DataBitmap().start <= id < g.DataStart() && id < |disk| ==> disk'[id] == disk[id]
    ensures BitsAre(g, disk', used)
  {
    hide BlockBit;
    forall k | 0 <= k < g.DataBitmap().Maximum()
      ensures g.DataBitmap().IsSet(disk', k) == g.DataBitmap().IsSet(disk, k)
    {
      assert disk'[g.DataBitmap().start + k / 4096] == disk[g.DataBitmap().start + k / 4096];
    }
  }

  lemma HoldsElsewhere(v: Inode, disk: Disk, c: seq<byte>, l: seq<u32>, b: nat, x: Block)
    requires Holds(v, disk, c) && AllBlocks(v, disk) == l && b < |disk| && b !in l
    ensures Holds(v, disk[b := x], c) && AllBlocks(v, disk[b := x]) == l
  {
    hide At, TotalOf;
    forall p | 0 <= p < TotalBlocks(v.size)
      ensures BlockOf(disk[b := x], At(v, disk, p)) == BlockOf(disk, At(v, disk, p))
    {
      assert l[p] == At(v, disk, p);
    }
    HoldsFrame(v, disk, disk[b := x], c);
  }

  /** Storing the inode after its blocks were rewritten restores the invariant. */
  lemma Committed(g: Geometry, disk: Disk, disk': Disk, fs: Fs, i: nat, v: Inode,
                  c: seq<byte>, l: seq<u32>, owner: map<nat, nat>, touched: seq<u32>)
    requires FsInv(g, disk, fs) && i < |fs.files|
    requires SameExcept(g, disk, disk', touched) && Private(g, touched, fs.owner, i)
    requires Holds(v, disk', c) && AllBlocks(v, disk') == l && v.isDir == (i == 0)
    requires Owners(fs.lists[i := l], owner)
    requires BitsAre(g, disk', owner.Keys) && FreeZero(g, disk', owner.Keys)
    ensures var (b, off) := InodePos(g, i);
      && b < |disk'| && off + 128 <= 512 && |v.direct| == 28
      && FsInv(g, disk'[b := StoreInode(disk'[b], off, v)], Fs(fs.files[i := c], fs.lists[i := l], owner))
  {
    hide At, StoreInode, TotalOf, Holds, LoadSuper, InodeShows, BitsAre, InodeBits, InodeOf, AllBlocks;
    HoldsSize(v, disk', c);
    var (b, off) := InodePos(g, i);
    InodeInside(g, disk, fs, i);
    var d := disk'[b := StoreInode(disk'[b], off, v)];
    assert b !in l by {
      if b in l {
        var p :| 0 <= p < |l| && l[p] == b;
        assert fs.lists[i := l][i][p] in owner.Keys;
        BitsInArea(g, disk', owner.Keys, b);
      }
    }
    HoldsElsewhere(v, disk', c, l, b, d[b]);
    BitsFrame(g, disk', d, owner.Keys);
    OnlyInodeIf(g, disk, disk', fs, i, v, touched);
    Replaced(g, disk, d, fs, i, v, c, l, owner);
  }

  lemma BitsInArea(g: Geometry, disk: Disk, used: set<nat>, id: nat)
    requires BitsAre(g, disk, used) && id in used
    ensures g.DataStart() <= id < g.total
  {
  }

  lemma InodeInside(g: Geometry, disk: Disk, fs: Fs, i: nat)
    requires FsInv(g, disk, fs) && i < |fs.files|
    ensures var (b, off) := InodePos(g, i);
      g.InodeStart() <= b < g.DataBitmap().start && b < |disk| && off + 128 <= 512
  {
    InodePosInside(g, i, i);
  }

  lemma OnlyInodeIf(g: Geometry, disk: Disk, disk': Disk, fs: Fs, i: nat, v: Inode, touched: seq<u32>)
    requires FsInv(g, disk, fs) && i < |fs.files| && |v.direct| == 28
    requires SameExcept(g, disk, disk', touched) && Private(g, touched, fs.owner, i)
    ensures var (b, off) := InodePos(g, i);
      && b < |disk'| && off + 128 <= 512
      && OnlyInode(g, disk, disk'[b := StoreInode(disk'[b], off, v)], i, v, fs.owner)
  {
    hide StoreInode, LoadSuper, Inodes, Owners, InodeBits;
    InodeInside(g, disk, fs, i);
  }

  /** The inode that `initialize` stores. */
  function EmptyInode(isDir: bool): (v: Inode)
    ensures |v.direct| == 28
  {
    Inode(0, seq(28, _ => 0), 0, 0, isDir)
  }

  lemma EmptyHolds(v: Inode, disk: Disk)
    requires Emptied(v)
    ensures Holds(v, disk, []) && AllBlocks(v, disk) == []
  {
  }

  lemma AddedShows(g: Geometry, disk: Disk, disk1: Disk, disk': Disk, fs: Fs, j: nat)
    requires FsInv(g, disk, fs) && j <= |fs.files| < g.InodeBitmap().Maximum()
    requires g.InodeBitmap().Toggled(disk, disk1, |fs.files|)
    requires OnlyInode(g, disk1, disk', |fs.files|, EmptyInode(|fs.files| == 0), fs.owner)
    ensures InodeShows(g, disk', j, (fs.files + [[]])[j], (fs.lists + [[]])[j])
  {
    hide StoreInode, LoadSuper, InodeShows, BlockBit, InodeOf, Decode, EmptyInode, Owners, InodeBits;
    if j < |fs.files| {
      AddedKept(g, disk, disk1, disk', fs, j);
    } else {
      EmptyShows(g, disk1, disk', j, fs.owner);
    }
  }

  lemma AddedOnly(g: Geometry, disk: Disk, disk1: Disk, disk': Disk, fs: Fs)
    requires FsInv(g, disk, fs) && |fs.files| < g.InodeBitmap().Maximum()
    requires var (b, off) := InodePos(g, |fs.files|);
      && b < |disk1| && off + 128 <= 512
      && disk' == disk1[b := StoreInode(disk1[b], off, EmptyInode(|fs.files| == 0))]
    ensures OnlyInode(g, disk1, disk', |fs.files|, EmptyInode(|fs.files| == 0), fs.owner)
  {
    hide StoreInode, LoadSuper, InodeShows, BlockBit, InodeOf, Decode, EmptyInode, Owners, InodeBits, Inodes;
    InodePosInside(g, |fs.files|, |fs.files|);
  }

  /** Setting the next bit of the inode bitmap and storing an empty inode there adds
      one empty file. */
  lemma InodeAdded(g: Geometry, disk: Disk, disk1: Disk, disk': Disk, fs: Fs)
    requires FsInv(g, disk, fs)
    requires |fs.files| < g.InodeBitmap().Maximum() && g.InodeBitmap().Toggled(disk, disk1, |fs.files|)
    requires var (b, off) := InodePos(g, |fs.files|);
      && b < |disk1| && off + 128 <= 512
      && disk' == disk1[b := StoreInode(disk1[b], off, EmptyInode(|fs.files| == 0))]
    ensures FsInv(g, disk', Fs(fs.files + [[]], fs.lists + [[]], fs.owner))
  {
    hide StoreInode, LoadSuper, InodeShows, BlockBit, InodeOf, Decode, EmptyInode, Owners;
    var n := |fs.files|;
    var fs' := Fs(fs.files + [[]], fs.lists + [[]], fs.owner);
    InodePosInside(g, n, n);
    AddedOnly(g, disk, disk1, disk', fs);
    forall j | 0 <= j < n + 1 ensures InodeShows(g, disk', j, fs'.files[j], fs'.lists[j]) {
      AddedShows(g, disk, disk1, disk', fs, j);
    }
    OwnersAdd(fs.lists, fs.owner);
    InodeBitsKept(g, disk1, disk', n + 1);
    BitsFrame(g, disk, disk', fs.owner.Keys);
  }

  lemma OwnersAdd(lists: seq<seq<u32>>, owner: map<nat, nat>)
    requires Owners(lists, owner)
    ensures Owners(lists + [[]], owner)
  {
  }

  lemma AddedKept(g: Geometry, disk: Disk, disk1: Disk, disk': Disk, fs: Fs, j: nat)
    requires FsInv(g, disk, fs) && j < |fs.files| < g.InodeBitmap().Maximum()
    requires g.InodeBitmap().Toggled(disk, disk1, |fs.files|)
    requires OnlyInode(g, disk1, disk', |fs.files|, EmptyInode(|fs.files| == 0), fs.owner)
    ensures InodeShows(g, disk', j, fs.files[j], fs.lists[j])
  {
    hide StoreInode, LoadSuper, InodeShows, BlockBit, InodeOf, Decode, EmptyInode, InodeBits;
    forall k | 0 <= k < |fs.files| ensures InodeShows(g, disk1, k, fs.files[k], fs.lists[k]) {
      InodePosInside(g, k, k);
      SameInode(g, disk, disk1, k);
      ShowsKept(g, disk, disk1, fs, k);
    }
    OtherKept(g, disk1, disk', fs, |fs.files|, EmptyInode(|fs.files| == 0), j);
  }

  lemma SameInode(g: Geometry, disk: Disk, disk': Disk, j: nat)
    requires BlockOf(disk', InodePos(g, j).0) == BlockOf(disk, InodePos(g, j).0)
    ensures InodeOf(g, disk', j) == InodeOf(g, disk, j)
  {
  }

  lemma EmptyShows(g: Geometry, disk: Disk, disk': Disk, n: nat, owner: map<nat, nat>)
    requires g.Ok() && n < g.InodeBitmap().Maximum()
    requires OnlyInode(g, disk, disk', n, EmptyInode(n == 0), owner)
    ensures InodeShows(g, disk', n, [], [])
  {
    InodeKept(g, disk, disk', n, EmptyInode(n == 0), owner, n);
    EmptyHolds(EmptyInode(n == 0), disk');
  }
}
