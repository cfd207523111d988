/** All address spaces of the kernel together, over one frame allocator: whatever is
    done to them, each managed frame stays in exactly one place. */
module MemoryRuns {
  import opened Words
  import opened Sv39
  import opened FrameAllocators
  import opened PageTables
  import opened MemorySets

  /** An address space as a value: its root, its tables and its areas.  The space of a
      zombie has been recycled: it has no areas, and its leaf entries are stale. */
  datatype Space = Space(root: nat, up: map<nat, Link>, areas: seq<MapArea>, zombie: bool)

  ghost function OwnedBy(s: Space): set<nat> {
    s.up.Keys + DataFrames(s.areas)
  }

  datatype Kernel = Kernel(mem: Memory, live: set<nat>, spaces: seq<Space>)

  /** Every space is well mapped, and every live frame has exactly one owner. */
  ghost predicate Owning(k: Kernel) {
    && (forall i :: 0 <= i < |k.spaces| ==> SpaceGood(k, k.spaces[i]))
    && (forall i, j :: 0 <= i < j < |k.spaces| ==> OwnedBy(k.spaces[i]) !! OwnedBy(k.spaces[j]))
    && (forall f :: f in k.live ==> exists i :: 0 <= i < |k.spaces| && f in OwnedBy(k.spaces[i]))
  }

  ghost predicate SpaceGood(k: Kernel, s: Space) {
    && TableTree(k.mem, s.root, s.up) && s.up.Keys <= k.live && ClearOfTrampoline(s.areas)
    && if s.zombie then s.areas == [] else SpaceOk(k.mem, k.live, s.root, s.up, s.areas)
  }

  /** A space is changed, made or dropped, and only its own frames are touched. */
  ghost predicate ChangedStep(k: Kernel, k': Kernel, i: nat, s: Space) {
    && i < |k.spaces| && k'.spaces == k.spaces[i := s] && SpaceGood(k', s)
    && OwnStep(k.mem, k'.mem, k.live, k'.live, OwnedBy(k.spaces[i]), OwnedBy(s))
  }

  ghost predicate CreatedStep(k: Kernel, k': Kernel, s: Space) {
    && k'.spaces == k.spaces + [s] && SpaceGood(k', s)
    && OwnStep(k.mem, k'.mem, k.live, k'.live, {}, OwnedBy(s))
  }

  ghost predicate DroppedStep(k: Kernel, k': Kernel, i: nat) {
    && i < |k.spaces| && k'.spaces == k.spaces[..i] + k.spaces[i + 1..]
    && OwnStep(k.mem, k'.mem, k.live, k'.live, OwnedBy(k.spaces[i]), {})
  }

  /** A space that a step does not concern stays good and keeps its frames. */
  lemma OtherSpaceKept(k: Kernel, k': Kernel, own: set<nat>, own': set<nat>, s: Space)
    requires SpaceGood(k, s) && OwnStep(k.mem, k'.mem, k.live, k'.live, own, own') && own !! OwnedBy(s)
    ensures SpaceGood(k', s) && own' !! OwnedBy(s)
  {
    hide TableTree, SpaceOk, DataFrames;
    if s.zombie {
      NoData();
      TreeFrame(k.mem, k'.mem, s.root, s.up);
    } else {
      ParentKept(k.mem, k'.mem, k.live, k'.live, own, own', s.root, s.up, s.areas);
    }
  }

  lemma ChangedKeeps(k: Kernel, k': Kernel, i: nat, s: Space)
    requires Owning(k) && ChangedStep(k, k', i, s)
    ensures Owning(k')
  {
    hide SpaceGood, OwnedBy;
    forall j | 0 <= j < |k.spaces| && j != i ensures SpaceGood(k', k.spaces[j]) && OwnedBy(s) !! OwnedBy(k.spaces[j]) {
      OtherSpaceKept(k, k', OwnedBy(k.spaces[i]), OwnedBy(s), k.spaces[j]);
    }
    forall f | f in k'.live ensures exists j :: 0 <= j < |k'.spaces| && f in OwnedBy(k'.spaces[j]) {
      if f in OwnedBy(s) {
        assert f in OwnedBy(k'.spaces[i]);
      } else {
        var j :| 0 <= j < |k.spaces| && f in OwnedBy(k.spaces[j]);
        assert f in OwnedBy(k'.spaces[j]);
      }
    }
  }

  lemma CreatedKeeps(k: Kernel, k': Kernel, s: Space)
    requires Owning(k) && CreatedStep(k, k', s)
    ensures Owning(k')
  {
    hide SpaceGood, OwnedBy;
    var n := |k.spaces|;
    forall j | 0 <= j < n ensures SpaceGood(k', k.spaces[j]) && OwnedBy(s) !! OwnedBy(k.spaces[j]) {
      OtherSpaceKept(k, k', {}, OwnedBy(s), k.spaces[j]);
    }
    forall f | f in k'.live ensures exists j :: 0 <= j < |k'.spaces| && f in OwnedBy(k'.spaces[j]) {
      if f in OwnedBy(s) {
        assert f in OwnedBy(k'.spaces[n]);
      } else {
        var j :| 0 <= j < n && f in OwnedBy(k.spaces[j]);
        assert f in OwnedBy(k'.spaces[j]);
      }
    }
  }

  lemma DroppedKeeps(k: Kernel, k': Kernel, i: nat)
    requires Owning(k) && DroppedStep(k, k', i)
    ensures Owning(k')
  {
    hide SpaceGood, OwnedBy;
    forall j | 0 <= j < |k.spaces| && j != i ensures SpaceGood(k', k.spaces[j]) {
      OtherSpaceKept(k, k', OwnedBy(k.spaces[i]), {}, k.spaces[j]);
    }
    forall f | f in k'.live ensures exists j :: 0 <= j < |k'.spaces| && f in OwnedBy(k'.spaces[j]) {
      var j :| 0 <= j < |k.spaces| && f in OwnedBy(k.spaces[j]);
      assert f in OwnedBy(k'.spaces[if j < i then j else j - 1]);
    }
  }

  /** What is done to the spaces; a user writes to a page of area `area` of its space. */
  datatype Op =
    | NewSpace(tramp: Ppn)
    | Push(i: nat, start: nat, end: nat, perm: Flags)
    | Remove(i: nat, start: nat)
    | Fork(i: nat, tramp: Ppn)
    | Recycle(i: nat)
    | Drop(i: nat)
    | Write(i: nat, area: nat, vpn: nat, page: Page)

  /** The space is there and not a zombie's. */
  ghost predicate Active(k: Kernel, i: nat) {
    i < |k.spaces| && !k.spaces[i].zombie
  }

  /** What the source asserts: only live spaces are used, and an area is mapped on pages
      that are not mapped, neither by an area nor for the trampoline. */
  ghost predicate Fits(k: Kernel, op: Op) {
    match op
    case NewSpace(_) => true
    case Push(i, start, end, _) =>
      && Active(k, i) && start <= end <= start + 134217728
      && forall vpn :: start <= vpn < end ==>
           Lookup(k.mem, k.spaces[i].root, vpn) == None && Key(vpn) != Key(TRAMPOLINE_VPN)
    case Remove(i, _) => Active(k, i)
    case Fork(i, _) => Active(k, i)
    case Recycle(i) => Active(k, i)
    case Drop(i) => i < |k.spaces|
    case Write(i, n, vpn, _) => Active(k, i) && n < |k.spaces[i].areas| && vpn in k.spaces[i].areas[n].frames
  }

  /** The frames an operation takes at most: one for a page, and two for its tables. */
  ghost function Cost(k: Kernel, op: Op): int
    requires Fits(k, op)
  {
    match op
    case NewSpace(_) => 3
    case Push(_, start, end, _) => 3 * (end - start)
    case Fork(i, _) => 3 + 3 * PagesOf(k.spaces[i].areas)
    case _ => 0
  }

  lemma FreeIs(a: StackFrameAllocator)
    requires a.Valid()
    ensures a.Free() == a.end - a.first - |a.live|
  {
    FreeAndLive(a.first, a.current, a.end, a.recycled, a.live);
  }

  /** A new space maps the trampoline and nothing else. */
  ghost predicate Made(k: Kernel, k': Kernel, s: Space, tramp: Ppn) {
    && CreatedStep(k, k', s) && !s.zombie && s.areas == []
    && forall v :: Lookup(k'.mem, s.root, v) == if Key(v) == Key(TRAMPOLINE_VPN) then Some((tramp, WithV(10))) else None
  }

  /** One more area at the end, mapped on zeroed frames of its own; no other mapping of
      the space changes. */
  ghost predicate AreaPushed(k: Kernel, k': Kernel, i: nat, s: Space, start: nat, end: nat, perm: Flags)
    requires i < |k.spaces|
  {
    var was := k.spaces[i];
    var n := |was.areas|;
    && ChangedStep(k, k', i, s) && !s.zombie && s.root == was.root
    && |s.areas| == n + 1 && s.areas[..n] == was.areas
    && s.areas[n].start == start && s.areas[n].end == end && s.areas[n].perm == perm
    && Progress(k.mem, k'.mem, k.live, k'.live, s.root, was.up, s.up, s.areas[n])
  }

  /** The first area with that start is gone, if there is one: exactly its pages are
      unmapped, and nothing is written but tables of the space, which stay. */
  ghost predicate AreaRemoved(k: Kernel, k': Kernel, i: nat, s: Space, start: nat)
    requires i < |k.spaces|
  {
    var was := k.spaces[i];
    && ChangedStep(k, k', i, s) && !s.zombie && s.root == was.root
    && s.up == was.up && OnlyTables(k.mem, k'.mem, s.up)
    && if exists n: nat :: FirstWithStart(was.areas, start, n)
       then exists n: nat :: FirstWithStart(was.areas, start, n) && RemovedAt(k.mem, k'.mem, s.root, was.areas, s.areas, n)
       else s.areas == was.areas && k'.mem == k.mem
  }

  /** A new space with the areas, permissions and bytes of space `i`. */
  ghost predicate Forked(k: Kernel, k': Kernel, i: nat, s: Space, tramp: Ppn)
    requires i < |k.spaces|
  {
    && CreatedStep(k, k', s) && !s.zombie
    && |s.areas| == |k.spaces[i].areas| && Copies(k'.mem, k.spaces[i].areas, s.areas)
    && Lookup(k'.mem, s.root, TRAMPOLINE_VPN) == Some((tramp, WithV(10)))
  }

  /** One operation takes the spaces from `k` to `k'`. */
  ghost predicate OpStep(k: Kernel, op: Op, k': Kernel) {
    && Fits(k, op)
    && match op
       case NewSpace(tramp) => exists s :: Made(k, k', s, tramp)
       case Push(i, start, end, perm) => exists s :: AreaPushed(k, k', i, s, start, end, perm)
       case Remove(i, start) => exists s :: AreaRemoved(k, k', i, s, start)
       case Fork(i, tramp) => exists s :: Forked(k, k', i, s, tramp)
       case Recycle(i) =>
         k'.mem == k.mem && ChangedStep(k, k', i, k.spaces[i].(areas := [], zombie := true))
       case Drop(i) => DroppedStep(k, k', i)
       case Write(i, n, vpn, page) =>
         && k.spaces[i].areas[n].frames[vpn] < |k.mem|
         && k' == k.(mem := k.mem[k.spaces[i].areas[n].frames[vpn] := page])
  }

  /** A write to a data frame of a space changes nothing else. */
  lemma WriteKeeps(k: Kernel, i: nat, n: nat, vpn: nat, page: Page)
    requires Owning(k) && Active(k, i) && n < |k.spaces[i].areas| && vpn in k.spaces[i].areas[n].frames
    requires k.spaces[i].areas[n].frames[vpn] < |k.mem|
    ensures ChangedStep(k, k.(mem := k.mem[k.spaces[i].areas[n].frames[vpn] := page]), i, k.spaces[i])
  {
    hide Owning, TableTree, SpaceOk, DataFrames, ClearOfTrampoline;
    SpaceOf(k, i);
    var s := k.spaces[i];
    var f := s.areas[n].frames[vpn];
    InData(s.areas, n, vpn);
    SpaceFrames(k.mem, k.live, s.root, s.up, s.areas);
    SpaceFrame(k.mem, k.mem[f := page], k.live, k.live, s.root, s.up, s.areas);
    assert k.live - OwnedBy(s) + OwnedBy(s) == k.live;
  }

  lemma InData(areas: seq<MapArea>, n: nat, vpn: nat)
    requires n < |areas| && vpn in areas[n].frames
    ensures areas[n].frames[vpn] in DataFrames(areas)
  {
  }

  /** Every operation keeps one owner for each live frame. */
  lemma OpKeeps(k: Kernel, op: Op, k': Kernel)
    requires Owning(k) && OpStep(k, op, k')
    ensures Owning(k')
  {
    hide Owning, ChangedStep, CreatedStep, DroppedStep, Progress, Copies, Lookup, Key;
    match op
    case NewSpace(tramp) =>
      var s :| Made(k, k', s, tramp);
      CreatedKeeps(k, k', s);
    case Push(i, start, end, perm) =>
      var s :| AreaPushed(k, k', i, s, start, end, perm);
      ChangedKeeps(k, k', i, s);
    case Remove(i, start) =>
      var s :| AreaRemoved(k, k', i, s, start);
      ChangedKeeps(k, k', i, s);
    case Fork(i, tramp) =>
      var s :| Forked(k, k', i, s, tramp);
      CreatedKeeps(k, k', s);
    case Recycle(i) => ChangedKeeps(k, k', i, k.spaces[i].(areas := [], zombie := true));
    case Drop(i) => DroppedKeeps(k, k', i);
    case Write(i, n, vpn, page) =>
      WriteKeeps(k, i, n, vpn, page);
      ChangedKeeps(k, k', i, k.spaces[i]);
  }

  /** A run: `run` are the states that the first operations of `ops` lead through. */
  ghost predicate IsRun(run: seq<Kernel>, ops: seq<Op>) {
    && 0 < |run| <= |ops| + 1
    && forall n :: 0 <= n < |run| - 1 ==> OpStep(run[n], ops[n], run[n + 1])
  }

  /** Whatever frames are handed out, every operation fits when its turn comes. */
  ghost predicate AllFit(k: Kernel, ops: seq<Op>) {
    forall run :: IsRun(run, ops) && run[0] == k && |run| <= |ops| ==> Fits(run[|run| - 1], ops[|run| - 1])
  }

  /** Over every run, each live frame belongs to exactly one address space, so none is
      handed out twice while live. */
  lemma {:induction false} FramesOwnedOnce(run: seq<Kernel>, ops: seq<Op>)
    requires IsRun(run, ops) && Owning(run[0])
    ensures forall n :: 0 <= n < |run| ==> Owning(run[n])
  {
    hide Owning, OpStep;
    if |run| > 1 {
      var n := |run| - 1;
      FramesOwnedOnce(run[..n], ops);
      assert Owning(run[..n][n - 1]);
      OpKeeps(run[n - 1], ops[n - 1], run[n]);
      forall j | 0 <= j < |run| ensures Owning(run[j]) {
        if j < n {
          assert run[j] == run[..n][j];
        }
      }
    }
  }

  /** The operations of space `i` itself; copying it is none. */
  predicate Own(op: Op, i: nat) {
    match op
    case NewSpace(_) => false
    case Fork(_, _) => false
    case _ => op.i == i
  }

  /** Where space `i` is after an operation that is not its own, and after many. */
  function Follow(i: nat, op: Op): nat {
    if op.Drop? && op.i < i then i - 1 else i
  }

  function Followed(i: nat, ops: seq<Op>): nat {
    if ops == [] then i else Follow(Followed(i, ops[..|ops| - 1]), ops[|ops| - 1])
  }

  /** None of the operations is that of the space that was `i` at first. */
  predicate NeverOwn(i: nat, ops: seq<Op>) {
    ops == [] || (NeverOwn(i, ops[..|ops| - 1]) && !Own(ops[|ops| - 1], Followed(i, ops[..|ops| - 1])))
  }

  /** Space `i` of `k` is space `j` of `k'`: the same value, mapping and bytes. */
  ghost predicate SameSpace(k: Kernel, i: nat, k': Kernel, j: nat) {
    && i < |k.spaces| && j < |k'.spaces| && k'.spaces[j] == k.spaces[i]
    && (forall v :: Lookup(k'.mem, k.spaces[i].root, v) == Lookup(k.mem, k.spaces[i].root, v))
    && (forall f :: f in OwnedBy(k.spaces[i]) ==> PageOf(k'.mem, f) == PageOf(k.mem, f))
  }

  /** A step on other frames keeps the mapping and the bytes of a space. */
  lemma PagesKept(k: Kernel, k': Kernel, own: set<nat>, own': set<nat>, s: Space)
    requires SpaceGood(k, s) && OwnStep(k.mem, k'.mem, k.live, k'.live, own, own') && own !! OwnedBy(s)
    ensures forall f :: f in OwnedBy(s) ==> PageOf(k'.mem, f) == PageOf(k.mem, f)
    ensures forall v :: Lookup(k'.mem, s.root, v) == Lookup(k.mem, s.root, v)
  {
    OtherSpaceKept(k, k', own, own', s);
    hide TableTree, SpaceOk, DataFrames, Lookup, ClearOfTrampoline;
    forall v ensures Lookup(k'.mem, s.root, v) == Lookup(k.mem, s.root, v) {
      LookupFrame(k.mem, k'.mem, s.root, s.up, v);
    }
  }

  lemma ChangedIsolated(k: Kernel, k': Kernel, j: nat, s: Space, i: nat)
    requires Owning(k) && ChangedStep(k, k', j, s) && i < |k.spaces| && i != j
    ensures SameSpace(k, i, k', i)
  {
    hide Owning, SpaceGood, OwnedBy, OwnStep, Lookup, PageOf;
    SpaceOf(k, i);
    SpacesApart(k, i, j);
    PagesKept(k, k', OwnedBy(k.spaces[j]), OwnedBy(s), k.spaces[i]);
  }

  lemma CreatedIsolated(k: Kernel, k': Kernel, s: Space, i: nat)
    requires Owning(k) && CreatedStep(k, k', s) && i < |k.spaces|
    ensures SameSpace(k, i, k', i)
  {
    hide Owning, SpaceGood, OwnedBy, OwnStep, Lookup, PageOf;
    SpaceOf(k, i);
    PagesKept(k, k', {}, OwnedBy(s), k.spaces[i]);
  }

  lemma DroppedIsolated(k: Kernel, k': Kernel, j: nat, i: nat)
    requires Owning(k) && DroppedStep(k, k', j) && i < |k.spaces| && i != j
    ensures SameSpace(k, i, k', if j < i then i - 1 else i)
  {
    hide Owning, SpaceGood, OwnedBy, OwnStep, Lookup, PageOf;
    SpaceOf(k, i);
    SpacesApart(k, i, j);
    PagesKept(k, k', OwnedBy(k.spaces[j]), {}, k.spaces[i]);
  }

  /** An operation that is not its own leaves a space as it was. */
  lemma OpIsolated(k: Kernel, op: Op, k': Kernel, i: nat)
    requires Owning(k) && OpStep(k, op, k') && i < |k.spaces| && !Own(op, i)
    ensures SameSpace(k, i, k', Follow(i, op))
  {
    hide Owning, ChangedStep, CreatedStep, DroppedStep, Progress, Copies, Lookup, Key, SameSpace;
    match op
    case NewSpace(tramp) =>
      var s :| Made(k, k', s, tramp);
      CreatedIsolated(k, k', s, i);
    case Push(j, start, end, perm) =>
      var s :| AreaPushed(k, k', j, s, start, end, perm);
      ChangedIsolated(k, k', j, s, i);
    case Remove(j, start) =>
      var s :| AreaRemoved(k, k', j, s, start);
      ChangedIsolated(k, k', j, s, i);
    case Fork(j, tramp) =>
      var s :| Forked(k, k', j, s, tramp);
      CreatedIsolated(k, k', s, i);
    case Recycle(j) => ChangedIsolated(k, k', j, k.spaces[j].(areas := [], zombie := true), i);
    case Drop(j) => DroppedIsolated(k, k', j, i);
    case Write(j, n, vpn, page) =>
      WriteKeeps(k, j, n, vpn, page);
      ChangedIsolated(k, k', j, k.spaces[j], i);
  }

  lemma SameTwice(k: Kernel, i: nat, k1: Kernel, j: nat, k2: Kernel, l: nat)
    requires SameSpace(k, i, k1, j) && SameSpace(k1, j, k2, l)
    ensures SameSpace(k, i, k2, l)
  {
    hide Lookup, OwnedBy, PageOf;
  }

  /** Isolation: over every run, whatever the other spaces do, be it the space that this
      one was copied from or a copy of it, a space keeps its mapping and its bytes until
      an operation of its own. */
  lemma {:induction false} Isolated(run: seq<Kernel>, ops: seq<Op>, i: nat)
    requires IsRun(run, ops) && |run| == |ops| + 1 && Owning(run[0]) && i < |run[0].spaces|
    requires NeverOwn(i, ops)
    ensures SameSpace(run[0], i, run[|ops|], Followed(i, ops))
  {
    hide Owning, OpStep, Own, Follow, SameSpace;
    if ops == [] {
      SameSelf(run[0], i);
    } else {
      var n := |ops| - 1;
      var was, j := run[..n + 1], Followed(i, ops[..n]);
      assert was[n] == run[n] && was[0] == run[0];
      Isolated(was, ops[..n], i);
      FramesOwnedOnce(was, ops[..n]);
      NextIsolated(run[0], i, run[n], j, ops[n], run[n + 1]);
    }
  }

  lemma NextIsolated(k: Kernel, i: nat, k1: Kernel, j: nat, op: Op, k2: Kernel)
    requires SameSpace(k, i, k1, j) && Owning(k1) && OpStep(k1, op, k2) && !Own(op, j)
    ensures SameSpace(k, i, k2, Follow(j, op))
  {
    hide Owning, OpStep, Own, Follow, Lookup, OwnedBy, PageOf;
    OpIsolated(k1, op, k2, j);
    SameTwice(k, i, k1, j, k2, Follow(j, op));
  }

  lemma SameSelf(k: Kernel, i: nat)
    requires i < |k.spaces|
    ensures SameSpace(k, i, k, i)
  {
    hide Lookup, OwnedBy, PageOf;
  }

  /** The space `m` is the value `s`, and lists its tables. */
  ghost predicate Is(m: MemorySet, s: Space)
    reads m, m.pt
  {
    m.pt.root == s.root && m.pt.up == s.up && m.areas == s.areas && ListsTables(m.pt.frames, s.up)
  }

  ghost function ValueOf(m: MemorySet): Space
    reads m, m.pt
  {
    Space(m.pt.root, m.pt.up, m.areas, false)
  }

  class AddressSpaces {
    const a: StackFrameAllocator
    var spaces: seq<MemorySet>
    ghost var values: seq<Space>

    ghost function Val(): Kernel
      reads this, a
    {
      Kernel(a.mem, a.live, values)
    }

    /** The spaces are different objects with these values. */
    ghost predicate Listed()
      reads this, spaces, set m: MemorySet | m in spaces :: m.pt
    {
      && |values| == |spaces|
      && (forall i, j :: 0 <= i < j < |spaces| ==> spaces[i] != spaces[j] && spaces[i].pt != spaces[j].pt)
      && (forall i :: 0 <= i < |spaces| ==> Is(spaces[i], values[i]))
    }

    /** Frames are partitioned into the tail, the recycled stack and the live ones, and
        each live frame belongs to exactly one of the spaces. */
    ghost predicate Valid()
      reads this, a, spaces, set m: MemorySet | m in spaces :: m.pt
    {
      a.Valid() && Listed() && Owning(Val())
    }

    constructor (a: StackFrameAllocator)
      requires a.Valid() && a.live == {}
      ensures Valid() && this.a == a && Val() == Kernel(a.mem, {}, [])
    {
      this.a := a;
      spaces, values := [], [];
    }

    /** A user space: bare, then the trampoline. */
    method New(tramp: Ppn) returns (ok: bool)
      requires Valid()
      modifies a, this
      ensures !ok ==> a.Exhausted() && old(a.Free()) < 3
      ensures ok ==> Valid() && OpStep(old(Val()), NewSpace(tramp), Val())
      ensures ok ==> |spaces| == |old(spaces)| + 1 && spaces[..|old(spaces)|] == old(spaces)
      ensures ok ==> fresh(spaces[|old(spaces)|]) && fresh(spaces[|old(spaces)|].pt)
    {
      hide Owning, SpaceOk, TableTree, Lookup, Partition, DataFrames, ListsTables, OwnStep, ClearOfTrampoline, Key;
      if a.Exhausted() {
        return false;
      }
      ghost var k := Val();
      var m := new MemorySet.NewBare(a);
      ghost var mem1, live1, own1 := a.mem, a.live, m.Owned();
      ok := m.MapTrampoline(tramp, a);
      if ok {
        OwnStepTwice(k.mem, mem1, a.mem, k.live, live1, a.live, {}, own1, m.Owned());
        NoneClear();
        Add(m, k);
        assert Made(k, Val(), ValueOf(m), tramp);
      }
    }

    /** Record a new space. */
    method Add(m: MemorySet, ghost k: Kernel)
      requires Listed() && k.spaces == values
      requires forall i :: 0 <= i < |spaces| ==> spaces[i] != m && spaces[i].pt != m.pt
      requires m.Valid(a) && ClearOfTrampoline(m.areas) && OwnStep(k.mem, a.mem, k.live, a.live, {}, m.Owned())
      requires Owning(k)
      modifies this
      ensures spaces == old(spaces) + [m] && CreatedStep(k, Val(), ValueOf(m)) && Valid()
    {
      hide Owning, SpaceOk, TableTree, Lookup, Partition, DataFrames, ListsTables, OwnStep, ClearOfTrampoline;
      ghost var s := ValueOf(m);
      assert Is(m, s);
      ghost var was, before := spaces, values;
      spaces, values := spaces + [m], values + [s];
      CreatedKeeps(k, Val(), s);
      forall i | 0 <= i < |spaces| ensures Is(spaces[i], values[i]) {
        if i < |was| {
          assert Is(was[i], before[i]);
        }
      }
      hide Is, SpaceGood;
    }

    /** Map a new area in a space. */
    method PushArea(i: nat, start: nat, end: nat, perm: Flags) returns (ok: bool)
      requires Valid() && Fits(Val(), Push(i, start, end, perm))
      modifies a, spaces[i], spaces[i].pt, this`values
      ensures !ok ==> a.Exhausted() && old(a.Free()) < 3 * (end - start)
      ensures ok ==> Valid() && OpStep(old(Val()), Push(i, start, end, perm), Val())
    {
      hide Owning, SpaceOk, TableTree, Lookup, Partition, DataFrames, ListsTables, Progress, OwnStep, ClearOfTrampoline, Key;
      ghost var k := Val();
      var m := spaces[i];
      SpaceOf(k, i);
      ok := m.Push(start, end, perm, a);
      if ok {
        ghost var s := ValueOf(m);
        PushedClear(values[i].areas, m.areas, a.mem, a.live, m.pt.root, m.pt.up, start, end);
        values := values[i := s];
        ChangedKeeps(k, Val(), i, s);
        assert AreaPushed(k, Val(), i, s, start, end, perm);
      }
    }

    /** Unmap and drop an area of a space, if it has one with that start. */
    method RemoveArea(i: nat, start: nat)
      requires Valid() && Fits(Val(), Remove(i, start))
      modifies a, spaces[i], spaces[i].pt, this`values
      ensures Valid() && OpStep(old(Val()), Remove(i, start), Val())
    {
      hide Owning, SpaceOk, TableTree, Lookup, Partition, DataFrames, ListsTables, OwnStep, ClearOfTrampoline, Without,
        UnmappedTo, OnlyTables;
      ghost var k := Val();
      var m := spaces[i];
      SpaceOf(k, i);
      var found := m.RemoveAreaWithStart(start, a);
      ghost var s := ValueOf(m);
      RemovedClear(values[i].areas, m.areas, start, found, k.mem, a.mem, m.pt.root);
      values := values[i := s];
      ChangedKeeps(k, Val(), i, s);
      assert AreaRemoved(k, Val(), i, s, start);
    }

    /** Copy a space, as fork does. */
    method ForkSpace(i: nat, tramp: Ppn) returns (ok: bool)
      requires Valid() && Fits(Val(), Fork(i, tramp))
      modifies a, this
      ensures !ok ==> a.Exhausted() && old(a.Free()) < 3 + 3 * PagesOf(old(values)[i].areas)
      ensures ok ==> Valid() && OpStep(old(Val()), Fork(i, tramp), Val())
      ensures ok ==> |spaces| == |old(spaces)| + 1 && spaces[..|old(spaces)|] == old(spaces)
      ensures ok ==> fresh(spaces[|old(spaces)|]) && fresh(spaces[|old(spaces)|].pt)
    {
      hide Owning, SpaceOk, TableTree, Lookup, Partition, DataFrames, ListsTables, OwnStep, ClearOfTrampoline, Copies, PageOf;
      ghost var k := Val();
      SpaceOf(k, i);
      var m: MemorySet;
      ok, m := FromExistedUser(spaces[i], tramp, a);
      if ok {
        CopiedClear(a.mem, a.live, spaces[i].pt.root, spaces[i].pt.up, spaces[i].areas, m.pt.root, m.pt.up, m.areas);
        Add(m, k);
        assert Forked(k, Val(), i, ValueOf(m), tramp);
      }
    }

    /** The exit of a process: its data frames go back, its tables stay. */
    method RecycleSpace(i: nat)
      requires Valid() && Fits(Val(), Recycle(i))
      modifies a, spaces[i], this`values
      ensures Valid() && OpStep(old(Val()), Recycle(i), Val())
    {
      hide Owning, SpaceOk, TableTree, Lookup, Partition, DataFrames, ListsTables, OwnStep, ClearOfTrampoline;
      ghost var k := Val();
      var m := spaces[i];
      SpaceOf(k, i);
      m.RecycleDataPages(a);
      ghost var s := values[i].(areas := [], zombie := true);
      NoneClear();
      values := values[i := s];
      ChangedKeeps(k, Val(), i, s);
    }

    /** Take space `i`, whatever it has become, off the list. */
    method Unlist(i: nat)
      requires |values| == |spaces| && i < |spaces|
      requires forall j, n :: 0 <= j < n < |spaces| ==> spaces[j] != spaces[n] && spaces[j].pt != spaces[n].pt
      requires forall j :: 0 <= j < |spaces| && j != i ==> Is(spaces[j], values[j])
      modifies this`spaces, this`values
      ensures Listed() && spaces == old(spaces)[..i] + old(spaces)[i + 1..]
      ensures values == old(values)[..i] + old(values)[i + 1..]
    {
      hide Is;
      ghost var was, before := spaces, values;
      spaces, values := spaces[..i] + spaces[i + 1..], values[..i] + values[i + 1..];
      forall j | 0 <= j < |spaces| ensures Is(spaces[j], values[j]) {
        ghost var n := if j < i then j else j + 1;
        assert spaces[j] == was[n] && values[j] == before[n];
      }
    }

    /** The last handle on a process goes: its space, recycled or not, is dropped. */
    method DropSpace(i: nat)
      requires Valid() && Fits(Val(), Drop(i))
      modifies a, spaces[i], this
      ensures Valid() && OpStep(old(Val()), Drop(i), Val())
      ensures spaces == old(spaces)[..i] + old(spaces)[i + 1..]
    {
      hide Owning, SpaceOk, TableTree, Lookup, Partition, DataFrames, ListsTables, OwnStep, ClearOfTrampoline;
      ghost var k := Val();
      SpaceOf(k, i);
      spaces[i].Drop(a);
      Unlist(i);
      DroppedKeeps(k, Val(), i);
    }

    /** A user writes to a page of its own. */
    method UserWrite(i: nat, n: nat, vpn: nat, page: Page)
      requires Valid() && Fits(Val(), Write(i, n, vpn, page))
      modifies a`mem
      ensures Valid() && OpStep(old(Val()), Write(i, n, vpn, page), Val())
    {
      hide Owning, SpaceOk, TableTree, Lookup, Partition, DataFrames, ListsTables, OwnStep, ClearOfTrampoline;
      ghost var k := Val();
      SpaceOf(k, i);
      InData(values[i].areas, n, vpn);
      SpaceFrames(a.mem, a.live, values[i].root, values[i].up, values[i].areas);
      LiveInMemory(a);
      var f := spaces[i].areas[n].frames[vpn];
      a.mem := a.mem[f := page];
      WriteKeeps(k, i, n, vpn, page);
      ChangedKeeps(k, Val(), i, values[i]);
    }

    /** One operation; false stands for the panic when memory is exhausted. */
    method Exec(op: Op) returns (ok: bool)
      requires Valid() && Fits(Val(), op)
      modifies this, a, spaces, set m: MemorySet | m in spaces :: m.pt
      ensures !ok ==> a.Exhausted() && old(a.Free()) < Cost(old(Val()), op)
      ensures ok ==> Valid() && OpStep(old(Val()), op, Val())
      ensures ok ==> forall i :: 0 <= i < |spaces| ==>
        spaces[i] in old(spaces) || (fresh(spaces[i]) && fresh(spaces[i].pt))
    {
      hide Owning, Partition, Is, OpStep, Lookup, Key;
      ok := true;
      match op {
        case NewSpace(tramp) => ok := New(tramp);
        case Push(i, start, end, perm) => ok := PushArea(i, start, end, perm);
        case Remove(i, start) => RemoveArea(i, start);
        case Fork(i, tramp) => ok := ForkSpace(i, tramp);
        case Recycle(i) => RecycleSpace(i);
        case Drop(i) => DropSpace(i);
        case Write(i, n, vpn, page) => UserWrite(i, n, vpn, page);
      }
    }

    /** Any sequence of operations: the spaces go through `run`, one step for each operation,
        up to the first one, if any, that needs more frames than are left. */
    method ExecAll(ops: seq<Op>) returns (ok: bool, ghost run: seq<Kernel>)
      requires Valid() && AllFit(Val(), ops)
      modifies this, a, spaces, set m: MemorySet | m in spaces :: m.pt
      ensures IsRun(run, ops) && 0 < |run| <= |ops| + 1 && run[0] == old(Val())
      ensures ok ==> Valid() && |run| == |ops| + 1 && run[|ops|] == Val()
      ensures !ok ==> a.Exhausted() && |run| <= |ops| && Fits(run[|run| - 1], ops[|run| - 1])
      ensures !ok ==> a.end - a.first - |run[|run| - 1].live| < Cost(run[|run| - 1], ops[|run| - 1])
    {
      hide Owning, Partition, Is, OpStep, Fits, Cost, IsRun, AllFit;
      run := [Val()];
      RunNone(Val(), ops);
      var n := 0;
      while n < |ops|
        invariant 0 <= n <= |ops| && Valid()
        invariant |run| == n + 1 && IsRun(run, ops) && run[0] == old(Val()) && run[n] == Val()
        invariant forall i :: 0 <= i < |spaces| ==>
          spaces[i] in old(spaces) || (fresh(spaces[i]) && fresh(spaces[i].pt))
      {
        FreeIs(a);
        NextFits(old(Val()), ops, run);
        ok := Exec(ops[n]);
        if !ok {
          return;
        }
        RunMore(run, ops, Val());
        run := run + [Val()];
        n := n + 1;
      }
      ok := true;
    }
  }

  lemma RunNone(k: Kernel, ops: seq<Op>)
    ensures IsRun([k], ops)
  {
  }

  lemma RunMore(run: seq<Kernel>, ops: seq<Op>, k: Kernel)
    requires IsRun(run, ops) && |run| <= |ops| && OpStep(run[|run| - 1], ops[|run| - 1], k)
    ensures IsRun(run + [k], ops)
  {
    hide OpStep;
  }

  lemma NextFits(k: Kernel, ops: seq<Op>, run: seq<Kernel>)
    requires AllFit(k, ops) && IsRun(run, ops) && run[0] == k && |run| <= |ops|
    ensures Fits(run[|run| - 1], ops[|run| - 1])
  {
    hide OpStep, Fits;
  }

  lemma NoneClear()
    ensures ClearOfTrampoline([])
  {
  }

  lemma PushedClear(was: seq<MapArea>, now: seq<MapArea>, mem: Memory, live: set<nat>, root: nat, up: map<nat, Link>,
                    start: nat, end: nat)
    requires ClearOfTrampoline(was) && SpaceOk(mem, live, root, up, now)
    requires |now| == |was| + 1 && now[..|was|] == was && now[|was|].start == start && now[|was|].end == end
    requires forall vpn :: start <= vpn < end ==> Key(vpn) != Key(TRAMPOLINE_VPN)
    ensures ClearOfTrampoline(now)
  {
    hide Lookup, Key, DataFrames;
    forall k, vpn | 0 <= k < |now| && vpn in now[k].frames ensures Key(vpn) != Key(TRAMPOLINE_VPN) {
      assert AreaOk(mem, root, now[k]);
      if k < |was| {
        assert now[k] == was[k];
      }
    }
  }

  lemma RemovedClear(was: seq<MapArea>, now: seq<MapArea>, start: nat, found: bool, mem: Memory, mem': Memory, root: nat)
    requires ClearOfTrampoline(was) && (!found ==> now == was)
    requires found ==> exists k :: FirstWithStart(was, start, k) && RemovedAt(mem, mem', root, was, now, k)
    ensures ClearOfTrampoline(now)
  {
    hide Key, UnmappedTo;
  }

  lemma CopiedClear(mem: Memory, live: set<nat>, root: nat, up: map<nat, Link>, areas: seq<MapArea>,
                    root': nat, up': map<nat, Link>, child: seq<MapArea>)
    requires SpaceOk(mem, live, root, up, areas) && SpaceOk(mem, live, root', up', child)
    requires ClearOfTrampoline(areas) && |child| == |areas| && Copies(mem, areas, child)
    ensures ClearOfTrampoline(child)
  {
    hide Lookup, Key, DataFrames, PageOf;
    forall k, vpn | 0 <= k < |child| && vpn in child[k].frames ensures Key(vpn) != Key(TRAMPOLINE_VPN) {
      assert AreaOk(mem, root, areas[k]) && AreaOk(mem, root', child[k]) && Copied(mem, areas[k], child[k]);
      assert vpn in areas[k].frames;
    }
  }

  lemma SpacesApart(k: Kernel, i: nat, j: nat)
    requires Owning(k) && i < |k.spaces| && j < |k.spaces| && i != j
    ensures OwnedBy(k.spaces[i]) !! OwnedBy(k.spaces[j])
  {
    hide OwnedBy, SpaceGood;
  }

  lemma SpaceOf(k: Kernel, i: nat)
    requires Owning(k) && i < |k.spaces|
    ensures SpaceGood(k, k.spaces[i])
  {
    hide OwnedBy, SpaceGood;
  }
}
