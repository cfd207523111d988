/** Whole runs of the block cache against a plain array of blocks. */
module CacheRuns {
  import opened Words
  import opened BlockCaches

  /** What users of the cache do; reading and modifying need a handle. */
  datatype Op =
    | Fetch(id: nat)
    | Release(id: nat)
    | Get(id: nat)
    | Put(id: nat, block: Block)
    | Flush

  /** A plain array of blocks, and the handles in use. */
  datatype Plain = Plain(blocks: seq<Block>, pins: multiset<nat>)

  ghost function PinnedIds(pins: multiset<nat>): set<nat> {
    set id | id in pins
  }

  /** A fetch goes through unless sixteen other blocks are held. */
  ghost predicate Fits(p: Plain, op: Op) {
    match op
    case Fetch(id) => id < |p.blocks| && (id in p.pins || |PinnedIds(p.pins)| < 16)
    case Release(id) => id in p.pins
    case Get(id) => id in p.pins && id < |p.blocks|
    case Put(id, _) => id in p.pins && id < |p.blocks|
    case Flush => true
  }

  ghost function Step(p: Plain, op: Op): (Plain, Option<Block>) {
    match op
    case Fetch(id) => (p.(pins := p.pins + multiset{id}), None)
    case Release(id) => (p.(pins := p.pins - multiset{id}), None)
    case Get(id) => (p, if id < |p.blocks| then Some(p.blocks[id]) else None)
    case Put(id, b) => (if id < |p.blocks| then p.(blocks := p.blocks[id := b]) else p, None)
    case Flush => (p, None)
  }

  ghost function Run(p: Plain, ops: seq<Op>): (Plain, seq<Option<Block>>) {
    if ops == [] then (p, [])
    else
      var n := |ops| - 1;
      var r := Run(p, ops[..n]);
      var s := Step(r.0, ops[n]);
      (s.0, r.1 + [s.1])
  }

  ghost predicate AllFit(p: Plain, ops: seq<Op>) {
    forall k :: 0 <= k < |ops| ==> Fits(Run(p, ops[..k]).0, ops[k])
  }

  /** Block `id` after the operations: the one put last, or the one there at first. */
  function BlockBy(blocks: seq<Block>, ops: seq<Op>, id: nat): Block
    requires id < |blocks|
  {
    if ops == [] then blocks[id]
    else
      var n := |ops| - 1;
      if ops[n].Put? && ops[n].id == id then ops[n].block else BlockBy(blocks, ops[..n], id)
  }

  /** How often block `id` has been fetched, or released. */
  function Fetches(ops: seq<Op>, id: nat): nat {
    if ops == [] then 0 else Fetches(ops[..|ops| - 1], id) + if ops[|ops| - 1] == Fetch(id) then 1 else 0
  }

  function Releases(ops: seq<Op>, id: nat): nat {
    if ops == [] then 0 else Releases(ops[..|ops| - 1], id) + if ops[|ops| - 1] == Release(id) then 1 else 0
  }

  /** Blocks and handles are what the operations say. */
  ghost predicate PlainIs(p: Plain, q: Plain, ops: seq<Op>) {
    && |q.blocks| == |p.blocks|
    && (forall id {:trigger q.blocks[id]} :: 0 <= id < |p.blocks| ==> q.blocks[id] == BlockBy(p.blocks, ops, id))
    && (forall id: nat {:trigger q.pins[id]} :: q.pins[id] + Releases(ops, id) == p.pins[id] + Fetches(ops, id))
  }

  lemma StepPlain(p: Plain, q: Plain, ops: seq<Op>, op: Op)
    requires PlainIs(p, q, ops) && Fits(q, op)
    ensures PlainIs(p, Step(q, op).0, ops + [op])
    ensures op.Get? ==> op.id < |p.blocks| && Step(q, op).1 == Some(BlockBy(p.blocks, ops, op.id))
    ensures !op.Get? ==> Step(q, op).1 == None
  {
    assert (ops + [op])[..|ops|] == ops;
  }

  lemma PrefixFits(p: Plain, ops: seq<Op>, n: nat)
    requires AllFit(p, ops) && n <= |ops|
    ensures AllFit(p, ops[..n])
  {
    hide Fits, Run;
    assert forall j :: 0 <= j < n ==> ops[..n][..j] == ops[..j] && ops[..n][j] == ops[j];
  }

  lemma {:induction false} RunPlain(p: Plain, ops: seq<Op>)
    requires AllFit(p, ops)
    ensures PlainIs(p, Run(p, ops).0, ops)
  {
    hide Step, Fits, PlainIs;
    if ops == [] {
      NothingDone(p);
    } else {
      var n := |ops| - 1;
      PrefixFits(p, ops, n);
      RunPlain(p, ops[..n]);
      StepPlain(p, Run(p, ops[..n]).0, ops[..n], ops[n]);
      assert ops == ops[..n] + [ops[n]];
    }
  }

  /** A run is its operations one after the other. */
  lemma {:induction false} RunSteps(p: Plain, ops: seq<Op>, j: nat)
    requires j < |ops|
    ensures |Run(p, ops).1| == |ops| && Run(p, ops).1[j] == Step(Run(p, ops[..j]).0, ops[j]).1
  {
    hide Step;
    var n := |ops| - 1;
    if n > 0 {
      RunSteps(p, ops[..n], if j < n then j else 0);
    }
    if j < n {
      assert ops[..n][..j] == ops[..j];
    }
  }

  /** Over every run: a block holds what was put last, and has as many handles as fetches
      that were not released; and output `j`, if it is that of a read, is what was put last
      before it. */
  lemma History(p: Plain, ops: seq<Op>, j: nat)
    requires AllFit(p, ops) && j < |ops|
    ensures PlainIs(p, Run(p, ops).0, ops) && |Run(p, ops).1| == |ops|
    ensures match ops[j]
      case Get(id) => id < |p.blocks| && Run(p, ops).1[j] == Some(BlockBy(p.blocks, ops[..j], id))
      case _ => Run(p, ops).1[j] == None
  {
    RunPlain(p, ops);
    RunSteps(p, ops, j);
    hide Run, Step, Fits, PlainIs;
    PrefixFits(p, ops, j);
    RunPlain(p, ops[..j]);
    StepPlain(p, Run(p, ops[..j]).0, ops[..j], ops[j]);
  }

  lemma NothingDone(p: Plain)
    ensures PlainIs(p, p, [])
  {
    forall id: nat ensures Releases([], id) == 0 == Fetches([], id) {
    }
  }

  /** The cache is full of pinned blocks exactly when sixteen blocks are held. */
  lemma FullOfPinned(queue: seq<nat>, copies: map<nat, BlockCache>, pins: multiset<nat>, id: nat)
    requires Queued(queue, copies.Keys) && Counted(copies, pins)
    ensures (id in copies || |queue| < BLOCK_CACHE_SIZE || exists i :: 0 <= i < |queue| && pins[queue[i]] == 0)
      <==> (id in pins || |PinnedIds(pins)| < 16)
  {
    var held, cached := PinnedIds(pins), Members(queue);
    MembersCard(queue);
    assert held <= cached;
    if held == cached {
      assert forall i :: 0 <= i < |queue| ==> queue[i] in held;
      assert id in copies <==> id in cached;
      assert id in pins <==> id in held;
    } else {
      var x :| x in cached && x !in held;
      var i :| 0 <= i < |queue| && queue[i] == x;
      assert pins[queue[i]] == 0;
      ProperSubset(held, cached);
    }
  }

  lemma ProperSubset(a: set<nat>, b: set<nat>)
    requires a < b
    ensures |a| < |b|
  {
    assert b == a + (b - a);
    assert |b| == |a| + |b - a|;
  }

  ghost predicate Shows(c: BlockCacheManager, p: Plain)
    reads c
  {
    c.Valid() && c.view == p.blocks && c.pins == p.pins
  }

  method Exec(c: BlockCacheManager, op: Op, ghost p: Plain) returns (out: Option<Block>)
    requires Shows(c, p) && Fits(p, op)
    modifies c
    ensures Shows(c, Step(p, op).0) && out == Step(p, op).1
    ensures op == Flush ==> c.device == p.blocks
  {
    hide Queued, Counted, Coherent, PinnedIds;
    out := None;
    match op
    case Fetch(id) =>
      FullOfPinned(c.queue, c.copies, c.pins, id);
      var ok := c.GetBlockCache(id);
    case Release(id) => c.DropHandle(id);
    case Get(id) =>
      var b := c.Read(id);
      out := Some(b);
    case Put(id, b) => c.Modify(id, b);
    case Flush => c.SyncAll({});
  }

  /** Over every run, whatever is fetched, evicted and written back in between, the
      reads give what the plain array gives; a final flush makes the device equal to
      it. */
  method ExecAll(c: BlockCacheManager, ops: seq<Op>, ghost p: Plain) returns (outs: seq<Option<Block>>)
    requires Shows(c, p) && AllFit(p, ops)
    modifies c
    ensures Shows(c, Run(p, ops).0) && outs == Run(p, ops).1
    ensures ops != [] && ops[|ops| - 1] == Flush ==> c.device == Run(p, ops).0.blocks
  {
    hide Queued, Counted, Coherent, Fits, Step;
    outs := [];
    var i := 0;
    while i < |ops|
      invariant 0 <= i <= |ops|
      invariant Shows(c, Run(p, ops[..i]).0) && outs == Run(p, ops[..i]).1
      invariant i > 0 && ops[i - 1] == Flush ==> c.device == c.view
    {
      assert ops[..i + 1][..i] == ops[..i];
      var out := Exec(c, ops[i], Run(p, ops[..i]).0);
      FlushKeeps(Run(p, ops[..i]).0, ops[i]);
      outs := outs + [out];
      i := i + 1;
    }
    assert ops[..i] == ops;
  }

  lemma FlushKeeps(p: Plain, op: Op)
    ensures op == Flush ==> Step(p, op).0 == p
  {
  }
}
