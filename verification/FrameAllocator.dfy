/** The stack frame allocator (os7-ref/src/mm/frame_allocator.rs), together with the
    physical memory whose frames it hands out. */
module FrameAllocators {
  import opened Words
  import opened Sv39

  /** Every managed frame below `current` is live or recycled, never both, and no
      frame is recycled twice; the frames from `current` on were never handed out. */
  ghost predicate Partition(first: nat, current: nat, end: nat, recycled: seq<nat>, live: set<nat>) {
    && first <= current <= end <= 0x1000_0000_0000
    && (forall i, j :: 0 <= i < j < |recycled| ==> recycled[i] != recycled[j])
    && (forall f :: f in recycled ==> first <= f < current && f !in live)
    && (forall f :: f in live ==> first <= f < current)
    && (forall f :: first <= f < current ==> f in live || f in recycled)
  }

  /** Zero a page byte by byte, as `FrameTracker::new` does. */
  method ZeroPage(p: Page) returns (q: Page)
    ensures q == ZERO_PAGE
  {
    q := p;
    var i := 0;
    while i < 4096
      invariant 0 <= i <= 4096
      invariant forall j :: 0 <= j < i ==> q[j] == 0
    {
      q := q[i := 0];
      i := i + 1;
    }
  }

  /** Every managed frame is free or live: none is lost. */
  lemma FreeAndLive(first: nat, current: nat, end: nat, recycled: seq<nat>, live: set<nat>)
    requires Partition(first, current, end, recycled, live)
    ensures |recycled| + end - current + |live| == end - first
  {
    var used, back := Range(first, current), Members(recycled);
    MembersCard(recycled);
    assert back + live == used && back !! live;
    assert |back + live| == |back| + |live|;
  }

  class StackFrameAllocator {
    var current: nat
    const end: nat
    var recycled: seq<nat>
    var mem: Memory
    ghost const first: nat
    ghost var live: set<nat>

    ghost predicate Valid()
      reads this
    {
      Partition(first, current, end, recycled, live) && end <= |mem|
    }

    /** No frame is left. */
    predicate Exhausted()
      reads this
    {
      recycled == [] && current == end
    }

    /** How many frames are left. */
    function Free(): int
      reads this
    {
      |recycled| + end - current
    }

    constructor (l: nat, r: nat, mem: Memory)
      requires l <= r <= |mem| && r <= 0x1000_0000_0000
      ensures Valid() && live == {} && first == l && end == r && this.mem == mem
    {
      current, end, recycled := l, r, [];
      this.mem := mem;
      first, live := l, {};
    }

    /** Hand out a zeroed frame that is not live: the last one recycled, or else the
        next one never used. */
    method Alloc() returns (r: Option<nat>)
      requires Valid()
      modifies this
      ensures Valid() && |mem| == |old(mem)|
      ensures r.None? <==> old(Exhausted())
      ensures (r.None? <==> old(Free()) == 0) && Free() == old(Free()) - if r.Some? then 1 else 0
      ensures r.None? ==> mem == old(mem) && live == old(live) && Exhausted()
      ensures r.Some? ==> if old(recycled) != [] then old(recycled) == recycled + [r.value] && current == old(current)
                          else r.value == old(current) && recycled == [] && current == r.value + 1
      ensures r.Some? ==> r.value !in old(live) && live == old(live) + {r.value}
      ensures r.Some? ==> r.value < |mem| && r.value < 0x1000_0000_0000 && mem == old(mem)[r.value := ZERO_PAGE]
    {
      var f: nat;
      if |recycled| > 0 {
        f := recycled[|recycled| - 1];
        recycled := recycled[..|recycled| - 1];
        assert forall i :: 0 <= i < |recycled| ==> recycled[i] == old(recycled)[i] != f;
        assert forall g :: g in recycled ==> g in old(recycled) && g != f;
        assert old(recycled) == recycled + [f];
      } else if current == end {
        return None;
      } else {
        current := current + 1;
        f := current - 1;
      }
      live := live + {f};
      var p := ZeroPage(mem[f]);
      mem := mem[f := p];
      r := Some(f);
    }

    /** Take a frame back.  False stands for the panic of the source.  For a managed frame
        it happens exactly when the frame is not live.  A frame below the managed range is
        taken back without a panic, and then, and only then, the allocator goes wrong: it
        is going to hand out a frame that is not its own. */
    method Dealloc(f: nat) returns (ok: bool)
      requires Valid()
      modifies this
      ensures mem == old(mem) && current == old(current)
      ensures ok <==> f in old(live) || f < first
      ensures recycled == if ok then old(recycled) + [f] else old(recycled)
      ensures live == old(live) - {f}
      ensures Valid() <==> first <= f
    {
      if f >= current || f in recycled {
        return false;
      }
      recycled := recycled + [f];
      live := live - {f};
      ok := true;
    }

    /** Drop the trackers of all frames of `fs`: none of the drops panics. */
    method DeallocAll(fs: seq<nat>)
      requires Valid() && forall i :: 0 <= i < |fs| ==> fs[i] in live
      requires forall i, j :: 0 <= i < j < |fs| ==> fs[i] != fs[j]
      modifies this
      ensures Valid() && mem == old(mem)
      ensures live == old(live) - set f | f in fs
    {
      var i := 0;
      while i < |fs|
        invariant 0 <= i <= |fs|
        invariant Valid() && mem == old(mem)
        invariant forall f :: f in live <==> f in old(live) && f !in fs[..i]
      {
        assert fs[i] !in fs[..i];
        var ok := Dealloc(fs[i]);
        assert ok;
        i := i + 1;
      }
    }
  }
}
