/** The write-back block cache of easy-fs (easy-fs/src/block_cache.rs).

    `queue` holds the block ids in queue order and `copies` the cached block that
    the `Arc` beside each id points to; `strong` is that `Arc`'s strong count, one
    for the queue and one for each live handle.  A handle is named by its block id.
    `view` is the plain array of blocks that the cache presents, and `pins` the
    multiset of live handles. */
module BlockCaches {
  import opened Words

  const BLOCK_CACHE_SIZE := 16

  type Block = b: seq<byte> | |b| == 512 witness Zeros(512)

  const ZERO_BLOCK: Block := Zeros(512)

  datatype BlockCache = BlockCache(cache: Block, modified: bool, strong: nat)

  ghost predicate NoDup(q: seq<nat>) {
    forall i, j :: 0 <= i < j < |q| ==> q[i] != q[j]
  }

  /** Distinct pinned ids need one pin each. */
  lemma {:induction false} DistinctPinsCount(q: seq<nat>, pins: multiset<nat>)
    requires NoDup(q)
    requires forall i :: 0 <= i < |q| ==> pins[q[i]] > 0
    ensures |q| <= |pins|
  {
    if q != [] {
      var last := |q| - 1;
      DistinctPinsCount(q[..last], pins - multiset{q[last]});
    }
  }

  /** Every cached copy shows the logical block, a clean copy equals the
      device, and a block without a copy is already on the device. */
  ghost predicate Coherent(view: seq<Block>, device: seq<Block>, copies: map<nat, BlockCache>) {
    && |view| == |device|
    && (forall id :: id in copies ==> id < |view| && copies[id].cache == view[id])
    && (forall id :: 0 <= id < |view| && (id in copies ==> !copies[id].modified) ==> view[id] == device[id])
  }

  /** At most sixteen copies, one for each queued id. */
  ghost predicate Queued(queue: seq<nat>, cached: set<nat>) {
    && |queue| <= BLOCK_CACHE_SIZE
    && NoDup(queue)
    && (forall id :: id in cached <==> id in queue)
  }

  /** A strong count is one plus the live handles; a pinned block is cached. */
  ghost predicate Counted(copies: map<nat, BlockCache>, pins: multiset<nat>) {
    && (forall id :: id in copies ==> copies[id].strong == 1 + pins[id])
    && (forall id :: id in pins ==> id in copies)
  }

  lemma QueuedWithout(queue: seq<nat>, cached: set<nat>, i: nat)
    requires Queued(queue, cached) && i < |queue|
    ensures Queued(queue[..i] + queue[i + 1..], cached - {queue[i]})
  {
    var q := queue[..i] + queue[i + 1..];
    assert forall j :: 0 <= j < |queue| && j != i ==> queue[j] == q[if j < i then j else j - 1];
  }

  /** Queue position `i` is the first that nobody outside holds. */
  ghost predicate FirstUnpinned(queue: seq<nat>, pins: multiset<nat>, i: nat) {
    i < |queue| && pins[queue[i]] == 0 && forall j :: 0 <= j < i ==> pins[queue[j]] > 0
  }

  lemma QueuedWith(queue: seq<nat>, cached: set<nat>, id: nat)
    requires Queued(queue, cached) && id !in cached && |queue| < BLOCK_CACHE_SIZE
    ensures Queued(queue + [id], cached + {id})
  {
  }

  /** What each change of one copy keeps. */
  lemma SyncedOk(view: seq<Block>, device: seq<Block>, copies: map<nat, BlockCache>, pins: multiset<nat>, id: nat)
    requires Coherent(view, device, copies) && Counted(copies, pins) && id in copies
    ensures id < |device| && Counted(copies[id := copies[id].(modified := false)], pins)
    ensures Coherent(view, device[id := copies[id].cache], copies[id := copies[id].(modified := false)])
    ensures !copies[id].modified ==> device[id := copies[id].cache] == device
    ensures device == view ==> device[id := copies[id].cache] == view
  {
  }

  lemma EvictedOk(view: seq<Block>, device: seq<Block>, copies: map<nat, BlockCache>, pins: multiset<nat>, id: nat)
    requires Coherent(view, device, copies) && Counted(copies, pins) && id in copies
    requires !copies[id].modified && pins[id] == 0
    ensures Coherent(view, device, copies - {id}) && Counted(copies - {id}, pins)
    ensures (copies - {id}).Keys == copies.Keys - {id}
  {
  }

  lemma DropAfterSync(copies: map<nat, BlockCache>, id: nat, c: BlockCache)
    ensures copies[id := c] - {id} == copies - {id}
  {
  }

  /** The first `n` queued copies are clean. */
  ghost predicate CleanTo(queue: seq<nat>, copies: map<nat, BlockCache>, n: nat) {
    forall j :: 0 <= j < n && j < |queue| ==> queue[j] in copies && !copies[queue[j]].modified
  }

  lemma AllClean(view: seq<Block>, device: seq<Block>, queue: seq<nat>, copies: map<nat, BlockCache>)
    requires Coherent(view, device, copies) && Queued(queue, copies.Keys) && CleanTo(queue, copies, |queue|)
    ensures device == view
  {
    forall id | 0 <= id < |view| ensures view[id] == device[id] {
      assert id in copies ==> id in queue;
    }
  }

  lemma QueuedAt(queue: seq<nat>, cached: set<nat>, i: nat)
    requires Queued(queue, cached) && i < |queue|
    ensures queue[i] in cached
  {
  }

  lemma LoadedOk(view: seq<Block>, device: seq<Block>, copies: map<nat, BlockCache>, pins: multiset<nat>, id: nat)
    requires Coherent(view, device, copies) && Counted(copies, pins) && id !in copies && id < |view|
    ensures var copies' := copies[id := BlockCache(device[id], false, 2)];
      Coherent(view, device, copies') && Counted(copies', pins + multiset{id})
  {
  }

  /** A change of one strong count goes with one of the handles. */
  lemma RecountedOk(view: seq<Block>, device: seq<Block>, copies: map<nat, BlockCache>, pins: multiset<nat>, id: nat, pins': multiset<nat>)
    requires Coherent(view, device, copies) && Counted(copies, pins) && id in copies
    requires pins' == pins + multiset{id} || (id in pins && pins' == pins - multiset{id})
    ensures var copies' := copies[id := copies[id].(strong := 1 + pins'[id])];
      Coherent(view, device, copies') && Counted(copies', pins')
  {
  }

  lemma ModifiedOk(view: seq<Block>, device: seq<Block>, copies: map<nat, BlockCache>, pins: multiset<nat>, id: nat, b: Block)
    requires Coherent(view, device, copies) && Counted(copies, pins) && id in copies
    ensures id < |view| && Counted(copies[id := copies[id].(cache := b, modified := true)], pins)
    ensures Coherent(view[id := b], device, copies[id := copies[id].(cache := b, modified := true)])
  {
  }

  lemma CountOf(copies: map<nat, BlockCache>, pins: multiset<nat>, id: nat)
    requires Counted(copies, pins) && (id in copies || id in pins)
    ensures id in copies && copies[id].strong == 1 + pins[id]
  {
  }

  /** The most handles a file-system operation ever holds at once. */
  const MAX_PINS := 3

  class BlockCacheManager {
    var device: seq<Block>
    var queue: seq<nat>
    var copies: map<nat, BlockCache>
    ghost var view: seq<Block>
    ghost var pins: multiset<nat>

    ghost predicate Valid()
      reads this
    {
      Queued(queue, copies.Keys) && Counted(copies, pins) && Coherent(view, device, copies)
    }

    constructor (device: seq<Block>)
      ensures Valid()
      ensures view == device && pins == multiset{} && Clean()
    {
      this.device := device;
      queue := [];
      copies := map[];
      view := device;
      pins := multiset{};
    }

    /** The device is in step with the logical blocks. */
    ghost predicate Clean()
      reads this
    {
      device == view
    }

    /** Write a copy back if it is dirty; dropping the copy does the same. */
    method Sync(id: nat)
      requires Valid() && id in copies
      modifies this`device, this`copies
      ensures Valid() && copies == old(copies)[id := old(copies)[id].(modified := false)]
      ensures id < |view| == |old(device)| && device == old(device)[id := view[id]]
      ensures old(Clean()) ==> Clean()
    {
      SyncedOk(view, device, copies, pins, id);
      hide Coherent, Counted, Queued;
      assert copies[id := copies[id].(modified := false)].Keys == copies.Keys;
      var c := copies[id];
      if c.modified {
        copies := copies[id := c.(modified := false)];
        device := device[id := c.cache];
      }
    }

    /** The first queue position, from front to tail, that nobody outside holds. */
    method FindUnpinned() returns (r: nat)
      requires Valid()
      ensures r <= |queue|
      ensures r < |queue| ==> pins[queue[r]] == 0
      ensures forall j :: 0 <= j < r ==> pins[queue[j]] > 0
    {
      r := 0;
      while r < |queue| && copies[queue[r]].strong != 1
        invariant 0 <= r <= |queue|
        invariant forall j :: 0 <= j < r ==> pins[queue[j]] > 0
      {
        r := r + 1;
      }
    }

    /** Drop the unpinned copy at queue position `i`, writing it back. */
    method Evict(i: nat)
      requires Valid() && i < |queue| && pins[queue[i]] == 0
      modifies this`device, this`copies, this`queue
      ensures Valid() && queue == old(queue)[..i] + old(queue)[i + 1..]
      ensures copies == old(copies) - {old(queue)[i]}
      ensures var id := old(queue)[i]; id < |view| == |old(device)| && device == old(device)[id := view[id]]
      ensures old(Clean()) ==> Clean()
    {
      hide Coherent, Counted, Queued;
      var id := queue[i];
      QueuedAt(queue, copies.Keys, i);
      DropAfterSync(copies, id, copies[id].(modified := false));
      Sync(id);
      QueuedWithout(queue, copies.Keys, i);
      EvictedOk(view, device, copies, pins, id);
      queue := queue[..i] + queue[i + 1..];
      copies := copies - {id};
    }

    /** Push a clean copy of a block that has none, and take a handle on it. */
    method Load(id: nat)
      requires Valid() && id < |view| && id !in copies && |queue| < BLOCK_CACHE_SIZE
      modifies this`queue, this`copies, this`pins
      ensures Valid() && pins == old(pins) + multiset{id}
      ensures queue == old(queue) + [id]
    {
      assert |device| == |view|;
      hide Coherent, Counted, Queued;
      QueuedWith(queue, copies.Keys, id);
      LoadedOk(view, device, copies, pins, id);
      queue := queue + [id];
      assert copies[id := BlockCache(device[id], false, 2)].Keys == copies.Keys + {id};
      copies := copies[id := BlockCache(device[id], false, 2)];
      pins := pins + multiset{id};
    }

    /** Take another handle on a cached block. */
    method Clone(id: nat)
      requires Valid() && id in copies
      modifies this`copies, this`pins
      ensures Valid() && pins == old(pins) + multiset{id}
    {
      hide Coherent, Counted, Queued;
      CountOf(copies, pins, id);
      RecountedOk(view, device, copies, pins, id, pins + multiset{id});
      assert copies[id := copies[id].(strong := copies[id].strong + 1)].Keys == copies.Keys;
      copies := copies[id := copies[id].(strong := copies[id].strong + 1)];
      pins := pins + multiset{id};
    }

    /** Take a handle on the one copy of block `id`, loading it if need be.  False
        stands for the panic of the source: it happens exactly when the cache is
        full of pinned blocks and `id` is not among them.  A full cache gives up the
        first copy, from the front, that is not pinned. */
    method GetBlockCache(id: nat) returns (ok: bool)
      requires Valid() && id < |view|
      modifies this`device, this`queue, this`copies, this`pins
      ensures Valid()
      ensures ok == old(id in copies || |queue| < BLOCK_CACHE_SIZE
                        || exists i :: 0 <= i < |queue| && pins[queue[i]] == 0)
      ensures pins == if ok then old(pins) + multiset{id} else old(pins)
      ensures !ok || old(id in copies) ==> queue == old(queue)
      ensures ok && !old(id in copies) ==>
        if |old(queue)| < BLOCK_CACHE_SIZE then queue == old(queue) + [id]
        else exists i: nat :: FirstUnpinned(old(queue), old(pins), i) && queue == old(queue)[..i] + old(queue)[i + 1..] + [id]
      ensures old(Clean()) ==> Clean()
    {
      hide Coherent, Counted;
      if id in copies {
        Clone(id);
        return true;
      }
      if |queue| == BLOCK_CACHE_SIZE {
        var i := FindUnpinned();
        if i == |queue| {
          return false;
        }
        assert FirstUnpinned(queue, pins, i);
        Evict(i);
      }
      Load(id);
      return true;
    }

    /** Drop one handle on block `id`. */
    method DropHandle(id: nat)
      requires Valid() && id in pins
      modifies this`copies, this`pins
      ensures Valid() && pins == old(pins) - multiset{id}
    {
      hide Coherent, Counted, Queued;
      CountOf(copies, pins, id);
      RecountedOk(view, device, copies, pins, id, pins - multiset{id});
      assert copies[id := copies[id].(strong := copies[id].strong - 1)].Keys == copies.Keys;
      copies := copies[id := copies[id].(strong := copies[id].strong - 1)];
      pins := pins - multiset{id};
    }

    /** Read through a handle. */
    method Read(id: nat) returns (b: Block)
      requires Valid() && id in pins
      ensures id < |view| && b == view[id]
    {
      b := copies[id].cache;
    }

    /** Replace the contents through a handle; the device is not touched. */
    method Modify(id: nat, b: Block)
      requires Valid() && id in pins
      modifies this`copies, this`view
      ensures Valid() && id < |view| && view == old(view)[id := b]
    {
      hide Coherent, Counted, Queued;
      CountOf(copies, pins, id);
      ModifiedOk(view, device, copies, pins, id, b);
      assert copies[id := copies[id].(cache := b, modified := true)].Keys == copies.Keys;
      copies := copies[id := copies[id].(cache := b, modified := true)];
      view := view[id := b];
    }

    /** Take the handle on block `id` and its lock, as the file system does.  The
        caller must not hold that block already (its lock would not be granted),
        and below MAX_PINS the "Run out of BlockCache" panic cannot happen. */
    method Acquire(id: nat)
      requires Valid() && id < |view| && id !in pins && |pins| < MAX_PINS
      modifies this`device, this`queue, this`copies, this`pins
      ensures Valid() && pins == old(pins) + multiset{id}
      ensures old(Clean()) ==> Clean()
    {
      if |queue| == BLOCK_CACHE_SIZE && forall i :: 0 <= i < |queue| ==> pins[queue[i]] > 0 {
        DistinctPinsCount(queue, pins);
        assert false;
      }
      var ok := GetBlockCache(id);
    }

    /** Lock block `id`, read it and let it go. */
    method ReadBlock(id: nat) returns (b: Block)
      requires Valid() && id < |view| && id !in pins && |pins| < MAX_PINS
      modifies this`device, this`queue, this`copies, this`pins
      ensures Valid() && pins == old(pins) && b == view[id]
      ensures old(Clean()) ==> Clean()
    {
      hide Coherent, Counted, Queued;
      Acquire(id);
      b := Read(id);
      DropHandle(id);
    }

    /** Lock block `id`, overwrite it and let it go. */
    method WriteBlock(id: nat, b: Block)
      requires Valid() && id < |view| && id !in pins && |pins| < MAX_PINS
      modifies this
      ensures Valid() && pins == old(pins) && view == old(view)[id := b]
    {
      hide Coherent, Counted, Queued;
      Acquire(id);
      Modify(id, b);
      DropHandle(id);
    }

    /** Write every dirty copy back: the device is then in step.  The lock of every copy is
        taken on the way, so that none of them may be among the blocks that the caller has
        locked; otherwise it waits for itself. */
    method SyncAll(ghost locked: set<nat>)
      requires Valid() && locked !! copies.Keys
      modifies this`device, this`copies
      ensures Valid() && Clean()
    {
      hide Coherent, Counted, Queued;
      var i := 0;
      while i < |queue|
        invariant 0 <= i <= |queue|
        invariant Valid() && CleanTo(queue, copies, i)
      {
        QueuedAt(queue, copies.Keys, i);
        Sync(queue[i]);
        i := i + 1;
      }
      AllClean(view, device, queue, copies);
    }

    /** The same, as the file system calls it: it has locked the blocks that it has handles
        on, and here these are none. */
    method Flush()
      requires Valid() && pins == multiset{}
      modifies this`device, this`copies
      ensures Valid() && Clean()
    {
      SyncAll(set id | id in pins);
    }
  }
}
