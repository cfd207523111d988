/** The life of processes (os7-ref/src/task, src/syscall/process.rs): fork, exit with
    reparenting, and waitpid, on one processor.

    A task control block lives while it is referenced, and its pid with it, so an
    unreaped process is named by its pid.  Strong references are the entries of
    children lists, of the ready queue, and the current task; parent links are weak. */
module Processes {
  import opened Words

  type Pid = nat

  /** The initial process. */
  const INITPROC: Pid := 0

  datatype Task = Task(zombie: bool, parent: Option<Pid>, children: seq<Pid>, exitCode: int)

  /** A process other than the initial one has a parent, and is in its children
      list. */
  ghost predicate HasParent(tasks: map<Pid, Task>, p: Pid)
    requires p in tasks
  {
    && tasks[p].parent.Some? && tasks[p].parent.value in tasks && tasks[p].parent.value != p
    && p in tasks[tasks[p].parent.value].children
  }

  ghost predicate Distinct(s: seq<Pid>) {
    forall i, j :: 0 <= i < j < |s| ==> s[i] != s[j]
  }

  /** A children list holds processes that name its owner as parent, each once. */
  ghost predicate OwnChildren(tasks: map<Pid, Task>, q: Pid)
    requires q in tasks
  {
    var cs := tasks[q].children;
    && (forall c :: c in cs ==> c in tasks && tasks[c].parent == Some(q))
    && Distinct(cs)
  }

  /** So every process but the initial one is in exactly one children list. */
  ghost predicate Linked(tasks: map<Pid, Task>) {
    && INITPROC in tasks && tasks[INITPROC].parent == None
    && (forall p :: p in tasks && p != INITPROC ==> HasParent(tasks, p))
    && (forall q :: q in tasks ==> OwnChildren(tasks, q))
  }

  /** A process is ready, or running, or a zombie without children: one of them. */
  ghost predicate Scheduled(tasks: map<Pid, Task>, current: Option<Pid>, ready: seq<Pid>) {
    && (forall i :: 0 <= i < |ready| ==> ready[i] in tasks && !tasks[ready[i]].zombie && Some(ready[i]) != current)
    && Distinct(ready)
    && (current.Some? ==> current.value in tasks && !tasks[current.value].zombie)
    && (forall p :: p in tasks && !tasks[p].zombie ==> p in ready || Some(p) == current)
    && (forall p :: p in tasks && tasks[p].zombie ==> tasks[p].children == [])
    && INITPROC in tasks && !tasks[INITPROC].zombie
  }

  /** The pids below `next` are those of the unreaped processes and the recycled
      ones. */
  ghost predicate Pids(used: set<Pid>, next: nat, recycled: seq<Pid>) {
    && (forall p :: p in used ==> p < next && p !in recycled)
    && (forall i :: 0 <= i < |recycled| ==> recycled[i] < next)
    && Distinct(recycled)
    && (forall p :: 0 <= p < next ==> p in used || p in recycled)
  }

  /** Nothing refers to `p`: the strong count of a handle on it is one. */
  ghost predicate Unreferenced(tasks: map<Pid, Task>, current: Option<Pid>, ready: seq<Pid>, p: Pid) {
    p !in ready && current != Some(p) && forall q :: q in tasks ==> p !in tasks[q].children
  }

  /** Does `pid`, where -1 stands for any, ask for process `p`? */
  predicate Matches(pid: int, p: Pid) {
    pid == -1 || pid == p
  }

  predicate NoMatch(children: seq<Pid>, pid: int) {
    forall i :: 0 <= i < |children| ==> !Matches(pid, children[i])
  }

  ghost predicate NoZombie(tasks: map<Pid, Task>, children: seq<Pid>, pid: int)
    requires forall i :: 0 <= i < |children| ==> children[i] in tasks
  {
    forall i :: 0 <= i < |children| && Matches(pid, children[i]) ==> !tasks[children[i]].zombie
  }

  /** The position of the first zombie among `children` that `pid` asks for. */
  function FirstZombie(tasks: map<Pid, Task>, children: seq<Pid>, pid: int): (k: nat)
    requires forall i :: 0 <= i < |children| ==> children[i] in tasks
    ensures k <= |children|
    ensures k < |children| ==> tasks[children[k]].zombie && Matches(pid, children[k])
    ensures forall i :: 0 <= i < k ==> !(tasks[children[i]].zombie && Matches(pid, children[i]))
  {
    if children == [] || (tasks[children[0]].zombie && Matches(pid, children[0])) then 0
    else 1 + FirstZombie(tasks, children[1..], pid)
  }

  /** The processes after a fork by `p`. */
  function AfterFork(tasks: map<Pid, Task>, p: Pid, c: Pid): map<Pid, Task>
    requires p in tasks
  {
    tasks[p := tasks[p].(children := tasks[p].children + [c])][c := Task(false, Some(p), [], 0)]
  }

  /** Adding a process as the last child of another. */
  lemma Forked(tasks: map<Pid, Task>, p: Pid, c: Pid)
    requires Linked(tasks) && p in tasks && c !in tasks
    ensures Linked(AfterFork(tasks, p, c))
  {
    var tasks' := AfterFork(tasks, p, c);
    forall q | q in tasks' && q != INITPROC ensures HasParent(tasks', q) {
      assert q != c ==> HasParent(tasks, q);
    }
    hide HasParent;
    forall q | q in tasks' ensures OwnChildren(tasks', q) {
      ForkedChildren(tasks, p, c, q);
    }
  }

  lemma ForkedChildren(tasks: map<Pid, Task>, p: Pid, c: Pid, q: Pid)
    requires Linked(tasks) && p in tasks && c !in tasks && q in AfterFork(tasks, p, c)
    ensures OwnChildren(AfterFork(tasks, p, c), q)
  {
    assert OwnChildren(tasks, p) && (q != c ==> OwnChildren(tasks, q));
    hide Linked, Distinct;
    if q == p {
      DistinctSnoc(tasks[p].children, c);
    } else if q == c {
      DistinctNone();
    }
  }

  lemma DistinctNone()
    ensures Distinct([])
  {
  }

  lemma DistinctSnoc(s: seq<Pid>, x: Pid)
    requires Distinct(s) && x !in s
    ensures Distinct(s + [x])
  {
  }

  function Without(cs: seq<Pid>, k: nat): (r: seq<Pid>)
    requires k < |cs|
    ensures |r| == |cs| - 1
    ensures forall i {:trigger r[i]} :: 0 <= i < |r| ==> r[i] == cs[if i < k then i else i + 1]
  {
    cs[..k] + cs[k + 1..]
  }

  /** The processes after `q` has reaped its `k`-th child. */
  function AfterReap(tasks: map<Pid, Task>, q: Pid, k: nat): map<Pid, Task>
    requires q in tasks && k < |tasks[q].children|
  {
    tasks[q := tasks[q].(children := Without(tasks[q].children, k))] - {tasks[q].children[k]}
  }

  lemma WithoutMember(cs: seq<Pid>, k: nat, p: Pid)
    requires k < |cs| && Distinct(cs)
    ensures p in Without(cs, k) <==> p in cs && p != cs[k]
  {
    var r := Without(cs, k);
    if p in cs && p != cs[k] {
      var i :| 0 <= i < |cs| && cs[i] == p;
      assert r[if i < k then i else i - 1] == p;
    }
  }

  /** Taking a childless process out of its parent's children list and dropping it
      leaves a tree that does not mention it. */
  lemma Reaped(tasks: map<Pid, Task>, q: Pid, k: nat)
    requires Linked(tasks) && q in tasks && k < |tasks[q].children| && tasks[q].children[k] in tasks
    requires tasks[tasks[q].children[k]].children == []
    ensures var z := tasks[q].children[k];
      var tasks' := AfterReap(tasks, q, k);
      && z != INITPROC && z != q && Linked(tasks')
      && forall p :: p in tasks' ==> z !in tasks'[p].children
  {
    var cs := tasks[q].children;
    var z := cs[k];
    assert z in cs && OwnChildren(tasks, q) && OwnChildren(tasks, z);
    var tasks' := AfterReap(tasks, q, k);
    forall p | p in tasks' && p != INITPROC ensures HasParent(tasks', p) {
      assert HasParent(tasks, p);
      WithoutMember(cs, k, p);
    }
    forall p | p in tasks' ensures OwnChildren(tasks', p) && z !in tasks'[p].children {
      assert OwnChildren(tasks, p);
      ReapedChildren(tasks, q, k, p);
    }
  }

  lemma ReapedChildren(tasks: map<Pid, Task>, q: Pid, k: nat, p: Pid)
    requires q in tasks && k < |tasks[q].children| && p in tasks && p != tasks[q].children[k]
    requires OwnChildren(tasks, q) && OwnChildren(tasks, p)
    ensures var tasks' := AfterReap(tasks, q, k);
      p in tasks' && OwnChildren(tasks', p) && tasks[q].children[k] !in tasks'[p].children
  {
    var cs := tasks[q].children;
    assert cs[k] in cs;
    forall c ensures c in Without(cs, k) <==> c in cs && c != cs[k] {
      WithoutMember(cs, k, c);
    }
  }

  /** Move the processes `cs`, in order, under the initial process. */
  function Adopt(tasks: map<Pid, Task>, cs: seq<Pid>): (r: map<Pid, Task>)
    requires INITPROC in tasks && forall c :: c in cs ==> c in tasks
    ensures r.Keys == tasks.Keys
  {
    if cs == [] then tasks
    else
      var c := cs[|cs| - 1];
      var r := Adopt(tasks, cs[..|cs| - 1]);
      var r := r[c := r[c].(parent := Some(INITPROC))];
      r[INITPROC := r[INITPROC].(children := r[INITPROC].children + [c])]
  }

  /** Exactly the parent links of `cs` and the children of the initial process have
      changed. */
  lemma {:induction false} AdoptEffect(tasks: map<Pid, Task>, cs: seq<Pid>)
    requires INITPROC in tasks && INITPROC !in cs && forall c :: c in cs ==> c in tasks
    ensures var r := Adopt(tasks, cs);
      && r[INITPROC] == tasks[INITPROC].(children := tasks[INITPROC].children + cs)
      && forall p :: p in tasks && p != INITPROC ==>
           r[p] == if p in cs then tasks[p].(parent := Some(INITPROC)) else tasks[p]
  {
    if cs != [] {
      var n := |cs| - 1;
      AdoptEffect(tasks, cs[..n]);
      assert cs == cs[..n] + [cs[n]];
    }
  }

  /** After an exit: the children of `p` are the last children of the initial process,
      and `p` is a zombie without children. */
  function Exited(tasks: map<Pid, Task>, p: Pid, code: int): map<Pid, Task>
    requires INITPROC in tasks && p in tasks && forall c :: c in tasks[p].children ==> c in tasks
  {
    var r := Adopt(tasks, tasks[p].children);
    r[p := r[p].(zombie := true, exitCode := code, children := [])]
  }

  /** Reparenting keeps the links. */
  lemma ExitedLinked(tasks: map<Pid, Task>, p: Pid, code: int)
    requires Linked(tasks) && p in tasks && p != INITPROC
    ensures (forall c :: c in tasks[p].children ==> c in tasks) && Linked(Exited(tasks, p, code))
  {
    hide Adopt, Exited, HasParent, OwnChildren;
    ExitedAt(tasks, p, code, INITPROC);
    var r := Exited(tasks, p, code);
    forall q | q in r && q != INITPROC ensures HasParent(r, q) {
      ExitedParent(tasks, p, code, q);
    }
    forall q | q in r ensures OwnChildren(r, q) {
      ExitedChildren(tasks, p, code, q);
    }
  }

  lemma ExitedParent(tasks: map<Pid, Task>, p: Pid, code: int, q: Pid)
    requires Linked(tasks) && p in tasks && p != INITPROC && q in tasks && q != INITPROC
    ensures (forall c :: c in tasks[p].children ==> c in tasks)
    ensures q in Exited(tasks, p, code) && HasParent(Exited(tasks, p, code), q)
  {
    assert HasParent(tasks, q) && OwnChildren(tasks, p);
    hide Adopt, Exited, Linked, OwnChildren;
    var r := Exited(tasks, p, code);
    ExitedAt(tasks, p, code, q);
    ExitedAt(tasks, p, code, INITPROC);
    ExitedAt(tasks, p, code, tasks[q].parent.value);
  }

  lemma ExitedChildren(tasks: map<Pid, Task>, p: Pid, code: int, q: Pid)
    requires Linked(tasks) && p in tasks && p != INITPROC && q in tasks
    ensures (forall c :: c in tasks[p].children ==> c in tasks)
    ensures q in Exited(tasks, p, code) && OwnChildren(Exited(tasks, p, code), q)
  {
    assert OwnChildren(tasks, q) && OwnChildren(tasks, p) && OwnChildren(tasks, INITPROC);
    var a, b := tasks[INITPROC].children, tasks[p].children;
    assert forall c :: c in b ==> c !in a && (c in tasks[q].children ==> q == p);
    DistinctConcat(a, b);
    hide Exited, Linked, Distinct;
    ExitedAt(tasks, p, code, q);
    var r := Exited(tasks, p, code);
    var cs := r[q].children;
    assert Distinct(cs);
    hide OwnChildren;
    forall c | c in cs ensures c in r && r[c].parent == Some(q) {
      ExitedChild(tasks, p, code, q, c);
    }
    assert OwnChildren(r, q) by { OwnChildrenIf(r, q); }
  }

  lemma OwnChildrenIf(tasks: map<Pid, Task>, q: Pid)
    requires q in tasks && Distinct(tasks[q].children)
    requires forall c :: c in tasks[q].children ==> c in tasks && tasks[c].parent == Some(q)
    ensures OwnChildren(tasks, q)
  {
  }

  lemma ExitedChild(tasks: map<Pid, Task>, p: Pid, code: int, q: Pid, c: Pid)
    requires Linked(tasks) && p in tasks && p != INITPROC && q in tasks
    requires (forall c :: c in tasks[p].children ==> c in tasks) && c in Exited(tasks, p, code)[q].children
    ensures c in Exited(tasks, p, code) && Exited(tasks, p, code)[c].parent == Some(q)
  {
    assert OwnChildren(tasks, q) && OwnChildren(tasks, p) && OwnChildren(tasks, INITPROC);
    hide Exited, Linked, Distinct;
    ExitedAt(tasks, p, code, q);
    ExitedAt(tasks, p, code, c);
  }

  lemma DistinctConcat(a: seq<Pid>, b: seq<Pid>)
    requires Distinct(a) && Distinct(b) && forall c :: c in b ==> c !in a
    ensures Distinct(a + b)
  {
    assert forall j :: 0 <= j < |b| ==> b[j] in b;
    assert forall i :: 0 <= i < |a| ==> a[i] in a;
  }

  /** Each process after an exit. */
  lemma ExitedAt(tasks: map<Pid, Task>, p: Pid, code: int, q: Pid)
    requires Linked(tasks) && p in tasks && p != INITPROC && q in tasks
    ensures (forall c :: c in tasks[p].children ==> c in tasks) && q in Exited(tasks, p, code)
    ensures Exited(tasks, p, code).Keys == tasks.Keys && p !in tasks[p].children
    ensures Exited(tasks, p, code)[q] ==
      if q == INITPROC then tasks[q].(children := tasks[q].children + tasks[p].children)
      else if q == p then tasks[p].(zombie := true, exitCode := code, children := [])
      else if q in tasks[p].children then tasks[q].(parent := Some(INITPROC))
      else tasks[q]
  {
    assert OwnChildren(tasks, p) && HasParent(tasks, p);
    AdoptEffect(tasks, tasks[p].children);
    hide Adopt;
  }

  lemma AdoptNone(tasks: map<Pid, Task>)
    requires INITPROC in tasks
    ensures Adopt(tasks, []) == tasks
  {
  }

  lemma AdoptNext(tasks: map<Pid, Task>, cs: seq<Pid>, i: nat)
    requires INITPROC in tasks && (forall c :: c in cs ==> c in tasks) && i < |cs|
    ensures Adopt(tasks, cs[..i]).Keys == tasks.Keys
    ensures var r := Adopt(tasks, cs[..i]);
      var r := r[cs[i] := r[cs[i]].(parent := Some(INITPROC))];
      Adopt(tasks, cs[..i + 1]) == r[INITPROC := r[INITPROC].(children := r[INITPROC].children + [cs[i]])]
  {
    assert cs[..i + 1][..i] == cs[..i];
  }

  lemma ExitedIs(tasks: map<Pid, Task>, p: Pid, code: int)
    requires INITPROC in tasks && p in tasks && forall c :: c in tasks[p].children ==> c in tasks
    ensures var r := Adopt(tasks, tasks[p].children);
      p in r && Exited(tasks, p, code) == r[p := r[p].(zombie := true, exitCode := code, children := [])]
  {
  }

  lemma ForkedScheduled(tasks: map<Pid, Task>, current: Option<Pid>, ready: seq<Pid>, p: Pid, c: Pid)
    requires Scheduled(tasks, current, ready) && current == Some(p) && c !in tasks
    ensures Scheduled(AfterFork(tasks, p, c), current, ready + [c])
  {
  }

  lemma ExitedScheduled(tasks: map<Pid, Task>, ready: seq<Pid>, p: Pid, code: int)
    requires Linked(tasks) && Scheduled(tasks, Some(p), ready) && p != INITPROC
    ensures (forall c :: c in tasks[p].children ==> c in tasks)
    ensures Scheduled(Exited(tasks, p, code), None, ready)
  {
    hide Exited, Linked;
    ExitedAt(tasks, p, code, p);
    forall q | q in tasks ensures
      Exited(tasks, p, code)[q].zombie == (tasks[q].zombie || q == p)
      && (q == p || q == INITPROC || Exited(tasks, p, code)[q].children == tasks[q].children)
      && Exited(tasks, p, code)[p].children == []
    {
      ExitedAt(tasks, p, code, q);
    }
  }

  lemma ReapedScheduled(tasks: map<Pid, Task>, ready: seq<Pid>, q: Pid, k: nat)
    requires Scheduled(tasks, Some(q), ready) && k < |tasks[q].children|
    requires tasks[q].children[k] in tasks && tasks[tasks[q].children[k]].zombie
    ensures Scheduled(AfterReap(tasks, q, k), Some(q), ready)
  {
    hide Without, Distinct;
  }

  lemma ReapedPids(used: set<Pid>, next: nat, recycled: seq<Pid>, z: Pid)
    requires Pids(used, next, recycled) && z in used
    ensures z < next && z !in recycled && Pids(used - {z}, next, recycled + [z])
  {
  }

  /** Reaping the first zombie that `pid` asks for keeps everything, and nothing refers
      to the zombie any more. */
  lemma Reap(tasks: map<Pid, Task>, q: Pid, ready: seq<Pid>, next: nat, recycled: seq<Pid>, pid: int)
    requires Linked(tasks) && Scheduled(tasks, Some(q), ready) && Pids(tasks.Keys, next, recycled)
    requires forall i :: 0 <= i < |tasks[q].children| ==> tasks[q].children[i] in tasks
    requires FirstZombie(tasks, tasks[q].children, pid) < |tasks[q].children|
    ensures var k := FirstZombie(tasks, tasks[q].children, pid);
      var z := tasks[q].children[k];
      var tasks' := AfterReap(tasks, q, k);
      && tasks' == tasks[q := tasks[q].(children := Without(tasks[q].children, k))] - {z}
      && Linked(tasks') && Scheduled(tasks', Some(q), ready) && Pids(tasks'.Keys, next, recycled + [z])
      && !tasks[q].zombie && tasks[z].zombie && z < next && z !in recycled && Unreferenced(tasks', Some(q), ready, z)
  {
    var k := FirstZombie(tasks, tasks[q].children, pid);
    var z := tasks[q].children[k];
    assert z !in ready && tasks[z].children == [];
    hide Linked, Scheduled, Pids, FirstZombie, Without;
    Reaped(tasks, q, k);
    ReapedScheduled(tasks, ready, q, k);
    ReapedPids(tasks.Keys, next, recycled, z);
    assert AfterReap(tasks, q, k).Keys == tasks.Keys - {z};
  }

  /** The exits nobody has collected yet. */
  ghost function Pending(tasks: map<Pid, Task>): set<(Pid, int)> {
    set p | p in tasks && tasks[p].zombie :: (p, tasks[p].exitCode)
  }

  /** What has happened so far: the processes made and reaped, the exits and the results
      of `waitpid`. */
  datatype History = History(made: multiset<Pid>, reaped: multiset<Pid>,
                             exits: multiset<(Pid, int)>, results: multiset<(Pid, int)>)

  /** Every process made is reaped once or still there, and every exit has been
      collected once, with its code, or is still pending. */
  ghost predicate Accounted(h: History, tasks: map<Pid, Task>) {
    h.made == h.reaped + multiset(tasks.Keys) && h.exits == h.results + multiset(Pending(tasks))
  }

  lemma ForkedAccounted(h: History, tasks: map<Pid, Task>, p: Pid, c: Pid)
    requires Accounted(h, tasks) && p in tasks && c !in tasks
    ensures Accounted(h.(made := h.made + multiset{c}), AfterFork(tasks, p, c))
  {
    var tasks' := AfterFork(tasks, p, c);
    assert tasks'.Keys == tasks.Keys + {c};
    forall e ensures e in Pending(tasks') <==> e in Pending(tasks) {
      if e.0 in tasks' {
        assert e.0 != c ==> tasks'[e.0].zombie == tasks[e.0].zombie;
      }
    }
    assert Pending(tasks') == Pending(tasks);
  }

  lemma ExitedAccounted(h: History, tasks: map<Pid, Task>, p: Pid, code: int)
    requires Accounted(h, tasks) && Linked(tasks) && p in tasks && p != INITPROC && !tasks[p].zombie
    ensures forall c :: c in tasks[p].children ==> c in tasks
    ensures Accounted(h.(exits := h.exits + multiset{(p, code)}), Exited(tasks, p, code))
  {
    assert INITPROC in tasks;
    hide Exited, Linked;
    ExitedAt(tasks, p, code, p);
    var tasks' := Exited(tasks, p, code);
    forall e ensures e in Pending(tasks') <==> e in Pending(tasks) || e == (p, code) {
      if e.0 in tasks {
        ExitedAt(tasks, p, code, e.0);
      }
    }
    assert (p, code) !in Pending(tasks);
    assert Pending(tasks') == Pending(tasks) + {(p, code)};
  }

  lemma ReapedAccounted(h: History, tasks: map<Pid, Task>, q: Pid, k: nat)
    requires Accounted(h, tasks) && q in tasks && !tasks[q].zombie && k < |tasks[q].children|
    requires tasks[q].children[k] in tasks && tasks[tasks[q].children[k]].zombie
    ensures var z := tasks[q].children[k];
      Accounted(h.(reaped := h.reaped + multiset{z}, results := h.results + multiset{(z, tasks[z].exitCode)}),
                AfterReap(tasks, q, k))
  {
    hide Without;
    var z := tasks[q].children[k];
    var tasks' := AfterReap(tasks, q, k);
    assert tasks'.Keys == tasks.Keys - {z};
    var e := (z, tasks[z].exitCode);
    assert e in Pending(tasks);
    forall x ensures x in Pending(tasks') <==> x in Pending(tasks) && x != e {
      if x.0 in tasks' {
        assert tasks'[x.0].zombie == tasks[x.0].zombie;
      }
    }
    assert Pending(tasks') == Pending(tasks) - {e};
  }

  lemma InitialOk()
    ensures var tasks := map[INITPROC := Task(false, None, [], 0)];
      && Linked(tasks) && Scheduled(tasks, None, [INITPROC]) && Pids(tasks.Keys, 1, [])
      && Accounted(History(multiset{INITPROC}, multiset{}, multiset{}, multiset{}), tasks)
  {
    var tasks := map[INITPROC := Task(false, None, [], 0)];
    assert tasks.Keys == {INITPROC} && Pending(tasks) == {};
    assert INITPROC in [INITPROC];
  }

  lemma ExitKeeps(h: History, tasks: map<Pid, Task>, ready: seq<Pid>, p: Pid, code: int)
    requires Linked(tasks) && Scheduled(tasks, Some(p), ready) && Accounted(h, tasks) && p != INITPROC
    ensures INITPROC in tasks && p in tasks && forall c :: c in tasks[p].children ==> c in tasks
    ensures var tasks' := Exited(tasks, p, code);
      && Linked(tasks') && Scheduled(tasks', None, ready) && tasks'.Keys == tasks.Keys
      && Accounted(h.(exits := h.exits + multiset{(p, code)}), tasks')
  {
    assert INITPROC in tasks && p in tasks && !tasks[p].zombie;
    hide Linked, Scheduled, Accounted, Exited;
    ExitedLinked(tasks, p, code);
    ExitedScheduled(tasks, ready, p, code);
    ExitedAt(tasks, p, code, p);
    ExitedAccounted(h, tasks, p, code);
  }

  /** The processes, the processor, the ready queue and the pid allocator, with the
      account of what has happened. */
  datatype State = State(h: History, tasks: map<Pid, Task>, current: Option<Pid>, ready: seq<Pid>,
                         nextPid: nat, recycled: seq<Pid>)

  ghost predicate Inv(s: State) {
    && Linked(s.tasks) && Scheduled(s.tasks, s.current, s.ready) && Pids(s.tasks.Keys, s.nextPid, s.recycled)
    && Accounted(s.h, s.tasks)
  }

  /** A system call of the process that is running. */
  datatype Call = CallFork | CallExit(code: int) | CallWait(pid: int) | CallYield

  /** What came of it: the child's pid, the end of a process, the answer of `waitpid`
      with the exit code, or nothing. */
  datatype Output = Child(pid: Pid) | Ended(pid: Pid, code: int) | Answer(found: int, code: int) | Nothing

  /** The scheduler gives a free processor to the front of the ready queue. */
  function Dispatched(s: State): State {
    if s.current == None && s.ready != [] then s.(current := Some(s.ready[0]), ready := s.ready[1..]) else s
  }

  function PidTaken(s: State): (Pid, State) {
    if s.recycled != [] then
      var n := |s.recycled| - 1;
      (s.recycled[n], s.(recycled := s.recycled[..n]))
    else (s.nextPid, s.(nextPid := s.nextPid + 1))
  }

  /** `p` and its children are there. */
  predicate Known(tasks: map<Pid, Task>, p: Pid) {
    INITPROC in tasks && p in tasks && forall c :: c in tasks[p].children ==> c in tasks
  }

  function ForkStep(s: State, p: Pid): (State, Output)
    requires Known(s.tasks, p)
  {
    var (c, t) := PidTaken(s);
    (t.(h := s.h.(made := s.h.made + multiset{c}), tasks := AfterFork(s.tasks, p, c), ready := s.ready + [c]), Child(c))
  }

  function ExitStep(s: State, p: Pid, code: int): (State, Output)
    requires Known(s.tasks, p)
  {
    (s.(h := s.h.(exits := s.h.exits + multiset{(p, code)}), tasks := Exited(s.tasks, p, code), current := None),
     Ended(p, code))
  }

  /** -1 when no child matches, -2 when none of the matching ones is a zombie, and
      otherwise the first such zombie, which is reaped. */
  function WaitStep(s: State, p: Pid, pid: int): (State, Output)
    requires Known(s.tasks, p)
  {
    var cs := s.tasks[p].children;
    var k := FirstZombie(s.tasks, cs, pid);
    if NoMatch(cs, pid) then (s, Answer(-1, 0))
    else if k == |cs| then (s, Answer(-2, 0))
    else
      var z, code := cs[k], s.tasks[cs[k]].exitCode;
      (s.(h := s.h.(reaped := s.h.reaped + multiset{z}, results := s.h.results + multiset{(z, code)}),
          tasks := AfterReap(s.tasks, p, k), recycled := s.recycled + [z]),
       Answer(z, code))
  }

  /** One system call by whichever process is running. */
  function Step(s: State, c: Call): (State, Output) {
    var s := Dispatched(s);
    if s.current == None || !Known(s.tasks, s.current.value) then (s, Nothing)
    else
      var p := s.current.value;
      match c
      case CallFork => ForkStep(s, p)
      case CallExit(code) => ExitStep(s, p, code)
      case CallWait(pid) => WaitStep(s, p, pid)
      case CallYield => (s.(current := None, ready := s.ready + [p]), Nothing)
  }

  /** The initial process does not exit. */
  predicate Fits(s: State, c: Call) {
    c.CallExit? ==> Dispatched(s).current != Some(INITPROC)
  }

  function Run(s: State, calls: seq<Call>): (State, seq<Output>) {
    if calls == [] then (s, [])
    else
      var n := |calls| - 1;
      var r := Run(s, calls[..n]);
      var t := Step(r.0, calls[n]);
      (t.0, r.1 + [t.1])
  }

  ghost predicate AllFit(s: State, calls: seq<Call>) {
    forall k :: 0 <= k < |calls| ==> Fits(Run(s, calls[..k]).0, calls[k])
  }

  /** With the processor free there is always a process to run: the initial one is
      ready then. */
  lemma DispatchKeeps(s: State)
    requires Inv(s)
    ensures Inv(Dispatched(s)) && Dispatched(s).current.Some? && Known(s.tasks, Dispatched(s).current.value)
  {
    hide Linked, Pids, Accounted;
    assert s.current == None ==> INITPROC in s.ready;
    var p := Dispatched(s).current.value;
    ChildrenKnown(s.tasks, p);
    if s.current == None {
      hide Distinct;
      TailDistinct(s.ready);
    }
  }

  lemma ChildrenKnown(tasks: map<Pid, Task>, p: Pid)
    requires Linked(tasks) && p in tasks
    ensures Known(tasks, p)
  {
    assert OwnChildren(tasks, p);
  }

  lemma TailDistinct(s: seq<Pid>)
    requires s != [] && Distinct(s)
    ensures Distinct(s[1..]) && s[0] !in s[1..] && forall p :: p in s <==> p == s[0] || p in s[1..]
  {
    assert s == [s[0]] + s[1..];
  }

  lemma PidKeeps(s: State)
    requires Pids(s.tasks.Keys, s.nextPid, s.recycled)
    ensures var (c, t) := PidTaken(s);
      && c !in s.tasks && Pids(s.tasks.Keys + {c}, t.nextPid, t.recycled)
      && t == s.(nextPid := t.nextPid, recycled := t.recycled)
  {
    if s.recycled != [] {
      hide Distinct;
      FrontDistinct(s.recycled);
    }
  }

  lemma FrontDistinct(s: seq<Pid>)
    requires s != [] && Distinct(s)
    ensures var n := |s| - 1;
      Distinct(s[..n]) && s[n] !in s[..n] && forall p :: p in s <==> p == s[n] || p in s[..n]
  {
    assert s == s[..|s| - 1] + [s[|s| - 1]];
  }

  lemma ForkKeeps(s: State)
    requires Inv(s) && s.current.Some? && Known(s.tasks, s.current.value)
    ensures Inv(ForkStep(s, s.current.value).0)
  {
    hide Linked, Scheduled, Pids, Accounted;
    var p := s.current.value;
    var (c, t) := PidTaken(s);
    PidKeeps(s);
    Forked(s.tasks, p, c);
    ForkedScheduled(s.tasks, s.current, s.ready, p, c);
    ForkedAccounted(s.h, s.tasks, p, c);
    assert AfterFork(s.tasks, p, c).Keys == s.tasks.Keys + {c};
  }

  lemma WaitKeeps(s: State, pid: int)
    requires Inv(s) && s.current.Some? && Known(s.tasks, s.current.value)
    ensures var (t, out) := WaitStep(s, s.current.value, pid);
      && Inv(t)
      && (out.found >= 0 ==> out.found in s.tasks && out.found !in t.tasks
                             && Unreferenced(t.tasks, t.current, t.ready, out.found)
                             && out.found < s.nextPid && out.found !in s.recycled)
  {
    hide Linked, Scheduled, Pids, Accounted, Unreferenced, FirstZombie, NoMatch, Without;
    var p := s.current.value;
    var cs := s.tasks[p].children;
    var k := FirstZombie(s.tasks, cs, pid);
    if !NoMatch(cs, pid) && k < |cs| {
      Reap(s.tasks, p, s.ready, s.nextPid, s.recycled, pid);
      ReapedAccounted(s.h, s.tasks, p, k);
    }
  }

  /** Every call keeps the invariant. */
  lemma StepKeeps(s: State, c: Call)
    requires Inv(s) && Fits(s, c)
    ensures Inv(Step(s, c).0)
  {
    DispatchKeeps(s);
    var d := Dispatched(s);
    var p := d.current.value;
    match c
    case CallFork => ForkKeeps(d);
    case CallExit(code) =>
      hide Linked, Scheduled, Pids, Accounted, Exited;
      ExitKeeps(d.h, d.tasks, d.ready, p, code);
    case CallWait(pid) => WaitKeeps(d, pid);
    case CallYield => YieldKeeps(d);
  }

  lemma YieldKeeps(s: State)
    requires Inv(s) && s.current.Some?
    ensures Inv(s.(current := None, ready := s.ready + [s.current.value]))
  {
    hide Linked, Pids, Accounted;
  }

  /** Process `p` is the one that makes the next call, with `rest` ready: it is running,
      or nothing is and it is first. */
  ghost predicate Turn(s: State, p: Pid, rest: seq<Pid>) {
    (s.current == Some(p) && s.ready == rest) || (s.current == None && s.ready == [p] + rest)
  }

  lemma TurnIs(s: State, p: Pid, rest: seq<Pid>)
    requires Inv(s) && Turn(s, p, rest)
    ensures Inv(Dispatched(s)) && Known(s.tasks, p) && !s.tasks[p].zombie
    ensures Dispatched(s) == s.(current := Some(p), ready := rest)
  {
    DispatchKeeps(s);
    hide Linked, Pids, Accounted;
    assert s.ready != [] ==> s.ready[0] == p || s.current == Some(p);
  }

  /** A call of the process whose turn it is. */
  lemma CallOf(s: State, p: Pid, rest: seq<Pid>, c: Call)
    requires Inv(s) && Turn(s, p, rest)
    ensures Known(s.tasks, p)
    ensures var d := s.(current := Some(p), ready := rest);
      && Inv(d)
      && (c == CallFork ==> Step(s, c) == ForkStep(d, p))
      && (c.CallExit? ==> Step(s, c) == ExitStep(d, p, c.code))
      && (c.CallWait? ==> Step(s, c) == WaitStep(d, p, c.pid))
      && (c == CallYield ==> Step(s, c) == (d.(current := None, ready := rest + [p]), Nothing))
  {
    TurnIs(s, p, rest);
    hide Inv, Dispatched, ForkStep, ExitStep, WaitStep;
  }

  /** `c` is new, and the last child of `p`: a process without children of its own.
      Nothing else has changed. */
  ghost predicate ChildAdded(was: map<Pid, Task>, now: map<Pid, Task>, p: Pid, c: Pid) {
    && p in was && c !in was && now.Keys == was.Keys + {c}
    && now[c] == Task(false, Some(p), [], 0)
    && now[p] == was[p].(children := was[p].children + [c])
    && forall q :: q in was && q != p ==> now[q] == was[q]
  }

  /** The pid given out is the one given back last, or the next one. */
  ghost predicate PidGiven(s: State, t: State, c: Pid) {
    if s.recycled == [] then c == s.nextPid && t.nextPid == c + 1 && t.recycled == []
    else t.recycled + [c] == s.recycled && t.nextPid == s.nextPid
  }

  /** After a fork by `p` its new child is ready, last of all. */
  lemma ForkedAt(s: State, p: Pid, rest: seq<Pid>)
    requires Inv(s) && Turn(s, p, rest)
    ensures var (t, out) := Step(s, CallFork);
      && out.Child? && t.current == Some(p) && t.ready == rest + [out.pid]
      && ChildAdded(s.tasks, t.tasks, p, out.pid) && PidGiven(s, t, out.pid)
  {
    hide Inv, Step, ForkStep, Turn, ChildAdded, PidGiven;
    CallOf(s, p, rest, CallFork);
    var d := s.(current := Some(p), ready := rest);
    InvPids(d);
    ForkMakes(d, p);
    SamePids(s, d, ForkStep(d, p).0, ForkStep(d, p).1.pid);
  }

  lemma SamePids(s: State, d: State, t: State, c: Pid)
    requires d.nextPid == s.nextPid && d.recycled == s.recycled && PidGiven(d, t, c)
    ensures PidGiven(s, t, c)
  {
  }

  lemma ForkMakes(s: State, p: Pid)
    requires Known(s.tasks, p) && Pids(s.tasks.Keys, s.nextPid, s.recycled)
    ensures var (t, out) := ForkStep(s, p);
      && out.Child? && t.current == s.current && t.ready == s.ready + [out.pid]
      && ChildAdded(s.tasks, t.tasks, p, out.pid) && PidGiven(s, t, out.pid)
  {
    PidKeeps(s);
    hide Pids;
  }

  lemma InvPids(s: State)
    requires Inv(s)
    ensures Pids(s.tasks.Keys, s.nextPid, s.recycled)
  {
  }

  /** A process that waits for its new child at once is told that it has not exited. */
  lemma ForkThenWait(s: State, p: Pid, rest: seq<Pid>)
    requires Inv(s) && Turn(s, p, rest)
    ensures var (t, out) := Step(s, CallFork);
      out.Child? && Step(t, CallWait(out.pid)).1 == Answer(-2, 0)
  {
    hide Inv, Step;
    StepKeeps(s, CallFork);
    ForkedAt(s, p, rest);
    var t, c := Step(s, CallFork).0, Step(s, CallFork).1.pid;
    WaitedAt(t, p, rest + [c], c);
    OnlyChildLives(t.tasks, p, c);
  }

  lemma OnlyChildLives(tasks: map<Pid, Task>, p: Pid, c: Pid)
    requires Known(tasks, p) && tasks[p].children != [] && tasks[p].children[|tasks[p].children| - 1] == c
    requires !tasks[c].zombie
    ensures var cs := tasks[p].children;
      && (exists i :: 0 <= i < |cs| && cs[i] == c)
      && forall i :: 0 <= i < |cs| && cs[i] == c ==> !tasks[cs[i]].zombie
  {
    assert tasks[p].children[|tasks[p].children| - 1] == c;
  }

  /** What `waitpid` answers process `p`, by its children: -1 if it has none of that kind,
      -2 if it has, but no zombie among them, and otherwise the first such zombie. */
  ghost predicate Answers(was: map<Pid, Task>, now: map<Pid, Task>, p: Pid, pid: int, out: Output)
    requires Known(was, p)
  {
    var cs := was[p].children;
    && out.Answer?
    && (out.found == -1 <==> forall i :: 0 <= i < |cs| ==> !(pid == -1 || pid == cs[i]))
    && (out.found == -2 <==>
          && (exists i :: 0 <= i < |cs| && (pid == -1 || pid == cs[i]))
          && forall i :: 0 <= i < |cs| && (pid == -1 || pid == cs[i]) ==> !was[cs[i]].zombie)
    && (out.found < 0 ==> out.found in {-1, -2} && out.code == 0 && now == was)
    && (out.found >= 0 ==> exists k :: 0 <= k < |cs| && Collected(was, now, p, pid, k, out))
  }

  /** Child `k` of `p` was the first zombie asked for.  It is gone, from the processes and
      from the children of `p`, and nothing else has changed. */
  ghost predicate Collected(was: map<Pid, Task>, now: map<Pid, Task>, p: Pid, pid: int, k: nat, out: Output)
    requires Known(was, p) && k < |was[p].children| && out.Answer?
  {
    var cs := was[p].children;
    && out.found == cs[k] && out.code == was[cs[k]].exitCode && was[cs[k]].zombie && (pid == -1 || pid == cs[k])
    && (forall i :: 0 <= i < k ==> !(was[cs[i]].zombie && (pid == -1 || pid == cs[i])))
    && ChildGone(was, now, p, k)
  }

  ghost predicate ChildGone(was: map<Pid, Task>, now: map<Pid, Task>, p: Pid, k: nat)
    requires p in was && k < |was[p].children|
  {
    var cs := was[p].children;
    && now.Keys == was.Keys - {cs[k]}
    && forall q :: q in now ==> now[q] == if q == p then was[p].(children := cs[..k] + cs[k + 1..]) else was[q]
  }

  lemma ReapedAt(tasks: map<Pid, Task>, p: Pid, k: nat)
    requires p in tasks && k < |tasks[p].children|
    ensures ChildGone(tasks, AfterReap(tasks, p, k), p, k)
  {
  }

  /** The answer, and the processes after it; a pid that is answered is free again. */
  lemma WaitedAt(s: State, p: Pid, rest: seq<Pid>, pid: int)
    requires Inv(s) && Turn(s, p, rest)
    ensures Known(s.tasks, p)
    ensures var (t, out) := Step(s, CallWait(pid));
      && Answers(s.tasks, t.tasks, p, pid, out)
      && t.current == Some(p) && t.ready == rest && t.nextPid == s.nextPid
      && (if out.found < 0 then t.recycled == s.recycled else t.recycled == s.recycled + [out.found as Pid])
  {
    hide Inv, Step, WaitStep, Answers, Turn;
    CallOf(s, p, rest, CallWait(pid));
    WaitAnswers(s.(current := Some(p), ready := rest), p, pid);
    AnswerIs(s.tasks, Step(s, CallWait(pid)).0.tasks, p, pid, Step(s, CallWait(pid)).1);
  }

  lemma AnswerIs(was: map<Pid, Task>, now: map<Pid, Task>, p: Pid, pid: int, out: Output)
    requires Known(was, p) && Answers(was, now, p, pid, out)
    ensures out.Answer? && out.found >= -2
  {
  }

  lemma WaitAnswers(s: State, p: Pid, pid: int)
    requires Known(s.tasks, p)
    ensures var (t, out) := WaitStep(s, p, pid);
      && t.current == s.current && t.ready == s.ready && t.nextPid == s.nextPid
      && Answers(s.tasks, t.tasks, p, pid, out)
      && (if out.found < 0 then t.recycled == s.recycled else t.recycled == s.recycled + [out.found as Pid])
  {
    var cs := s.tasks[p].children;
    var k := FirstZombie(s.tasks, cs, pid);
    hide FirstZombie, AfterReap;
    if !NoMatch(cs, pid) && k < |cs| {
      var (t, out) := WaitStep(s, p, pid);
      ReapedAt(s.tasks, p, k);
      hide ChildGone;
      assert Collected(s.tasks, t.tasks, p, pid, k, out);
    }
  }

  /** Each process after an exit of `p`: it is a zombie with that code and without
      children, its children are the last ones of the initial process, and nothing else
      has changed. */
  lemma EndedAt(s: State, p: Pid, rest: seq<Pid>, code: int, q: Pid)
    requires Inv(s) && Turn(s, p, rest) && p != INITPROC
    ensures INITPROC in s.tasks && p in s.tasks
    ensures var (t, out) := Step(s, CallExit(code));
      && out == Ended(p, code) && t.current == None && t.ready == rest
      && t.nextPid == s.nextPid && t.recycled == s.recycled
      && (q in t.tasks <==> q in s.tasks)
      && (q in t.tasks ==>
            t.tasks[q] ==
              if q == INITPROC then s.tasks[q].(children := s.tasks[q].children + s.tasks[p].children)
              else if q == p then s.tasks[p].(zombie := true, exitCode := code, children := [])
              else if q in s.tasks[p].children then s.tasks[q].(parent := Some(INITPROC))
              else s.tasks[q])
  {
    assert Linked(s.tasks);
    hide Inv, Step, Exited, Linked, Turn;
    CallOf(s, p, rest, CallExit(code));
    ExitedAt(s.tasks, p, code, p);
    if q in s.tasks {
      ExitedAt(s.tasks, p, code, q);
    }
  }

  /** Giving the processor up changes nothing but who is ready. */
  lemma YieldedAt(s: State, p: Pid, rest: seq<Pid>)
    requires Inv(s) && Turn(s, p, rest)
    ensures Step(s, CallYield) == (s.(current := None, ready := rest + [p]), Nothing)
  {
    hide Inv, Step, Turn;
    CallOf(s, p, rest, CallYield);
  }

  /** A process that exits answers its waiting parent: whatever happened in between, if it
      is still a zombie child of `p` and `p` asks for it, its code is the answer. */
  lemma ZombieAnswers(s: State, p: Pid, rest: seq<Pid>, z: Pid)
    requires Inv(s) && Turn(s, p, rest)
    requires z in s.tasks && s.tasks[z].zombie && s.tasks[z].parent == Some(p)
    ensures Step(s, CallWait(z)).1 == Answer(z, s.tasks[z].exitCode)
  {
    assert z in s.tasks[p].children by { assert z != INITPROC && HasParent(s.tasks, z); }
    hide Inv, Step, Turn;
    WaitedAt(s, p, rest, z);
    AnsweredFor(s.tasks, Step(s, CallWait(z)).0.tasks, p, z, Step(s, CallWait(z)).1);
  }

  lemma AnsweredFor(was: map<Pid, Task>, now: map<Pid, Task>, p: Pid, z: Pid, out: Output)
    requires Known(was, p) && Answers(was, now, p, z, out) && z in was[p].children && was[z].zombie
    ensures out == Answer(z, was[z].exitCode)
  {
    var cs := was[p].children;
    var i :| 0 <= i < |cs| && cs[i] == z;
  }

  /** Over every run: one children list per process and agreeing parent links, one place
      per process, and an account of all pids, processes and exits. */
  lemma {:induction false} RunKeeps(s: State, calls: seq<Call>)
    requires Inv(s) && AllFit(s, calls)
    ensures Inv(Run(s, calls).0)
  {
    hide Inv, Step, Fits;
    if calls != [] {
      var n := |calls| - 1;
      assert forall k :: 0 <= k < n ==> calls[..n][..k] == calls[..k] && calls[..n][k] == calls[k];
      RunKeeps(s, calls[..n]);
      StepKeeps(Run(s, calls[..n]).0, calls[n]);
    }
  }

  /** A run is its calls one after the other: each is answered, and acts, in the state that
      those before it have led to. */
  lemma {:induction false} RunSteps(s: State, calls: seq<Call>, i: nat)
    requires i < |calls|
    ensures Run(s, []) == (s, []) && |Run(s, calls).1| == |calls|
    ensures var t := Step(Run(s, calls[..i]).0, calls[i]);
      Run(s, calls).1[i] == t.1 && Run(s, calls[..i + 1]).0 == t.0
  {
    hide Step;
    var n := |calls| - 1;
    if i < n {
      RunSteps(s, calls[..n], i);
      assert calls[..n][..i] == calls[..i] && calls[..n][..i + 1] == calls[..i + 1];
    } else {
      assert calls[..i + 1] == calls;
      if n > 0 {
        RunSteps(s, calls[..n], 0);
      }
    }
  }

  /** The account of one output, and of all of them. */
  function Recorded(h: History, out: Output): History {
    match out
    case Child(c) => h.(made := h.made + multiset{c})
    case Ended(p, code) => h.(exits := h.exits + multiset{(p, code)})
    case Answer(z, code) =>
      if z >= 0 then h.(reaped := h.reaped + multiset{z as Pid}, results := h.results + multiset{(z as Pid, code)}) else h
    case Nothing => h
  }

  function Record(h: History, outs: seq<Output>): History {
    if outs == [] then h else Recorded(Record(h, outs[..|outs| - 1]), outs[|outs| - 1])
  }

  lemma ForkRecorded(s: State, p: Pid)
    requires Known(s.tasks, p)
    ensures ForkStep(s, p).0.h == Recorded(s.h, ForkStep(s, p).1)
  {
    hide AfterFork;
  }

  lemma ExitRecorded(s: State, p: Pid, code: int)
    requires Known(s.tasks, p)
    ensures ExitStep(s, p, code).0.h == Recorded(s.h, ExitStep(s, p, code).1)
  {
    hide Exited;
  }

  lemma WaitRecorded(s: State, p: Pid, pid: int)
    requires Known(s.tasks, p)
    ensures WaitStep(s, p, pid).0.h == Recorded(s.h, WaitStep(s, p, pid).1)
  {
    hide FirstZombie, NoMatch, AfterReap;
  }

  lemma StepRecorded(s: State, c: Call)
    ensures Step(s, c).0.h == Recorded(s.h, Step(s, c).1)
  {
    hide ForkStep, ExitStep, WaitStep, Known;
    var d := Dispatched(s);
    if d.current.Some? && Known(d.tasks, d.current.value) {
      var p := d.current.value;
      match c
      case CallFork => ForkRecorded(d, p);
      case CallExit(code) => ExitRecorded(d, p, code);
      case CallWait(pid) => WaitRecorded(d, p, pid);
      case CallYield =>
    }
  }

  /** The account is what the outputs say. */
  lemma {:induction false} RunRecorded(s: State, calls: seq<Call>)
    ensures Run(s, calls).0.h == Record(s.h, Run(s, calls).1)
  {
    hide Step, Recorded;
    if calls != [] {
      var n := |calls| - 1;
      RunRecorded(s, calls[..n]);
      StepRecorded(Run(s, calls[..n]).0, calls[n]);
      var outs := Run(s, calls).1;
      assert outs[..|outs| - 1] == Run(s, calls[..n]).1;
    }
  }

  /** The state at the start. */
  const INITIAL := State(History(multiset{INITPROC}, multiset{}, multiset{}, multiset{}),
                         map[INITPROC := Task(false, None, [], 0)], None, [INITPROC], 1, [])

  /** Over every run from the start, by its outputs alone: each process made is reaped at
      most once, each exit is collected at most once and with its code, and what is not
      collected belongs to a zombie still there. */
  lemma CollectedOnce(calls: seq<Call>)
    requires AllFit(INITIAL, calls)
    ensures var (t, outs) := Run(INITIAL, calls);
      var h := Record(INITIAL.h, outs);
      && h.exits == h.results + multiset(Pending(t.tasks))
      && h.made == h.reaped + multiset(t.tasks.Keys)
  {
    InitialOk();
    hide Linked, Scheduled, Pids, Run, Pending, AllFit;
    RunKeeps(INITIAL, calls);
    RunRecorded(INITIAL, calls);
  }

  class ProcessTable {
    ghost var h: History
    var tasks: map<Pid, Task>
    var current: Option<Pid>
    var ready: seq<Pid>
    var nextPid: nat
    var recycled: seq<Pid>
    ghost function Val(): State
      reads this
    {
      State(h, tasks, current, ready, nextPid, recycled)
    }

    ghost predicate Valid()
      reads this
    {
      Inv(Val())
    }

    /** Only the initial process, ready to run. */
    constructor ()
      ensures Valid() && Val() == INITIAL
    {
      hide Linked, Scheduled, Pids, Accounted;
      tasks := map[INITPROC := Task(false, None, [], 0)];
      h := History(multiset{INITPROC}, multiset{}, multiset{}, multiset{});
      current, ready := None, [INITPROC];
      nextPid, recycled := 1, [];
      InitialOk();
    }

    /** A pid that no unreaped process has. */
    method AllocPid() returns (p: Pid)
      requires Pids(tasks.Keys, nextPid, recycled)
      modifies this`nextPid, this`recycled
      ensures p !in tasks && Pids(tasks.Keys + {p}, nextPid, recycled)
      ensures if old(recycled) != [] then old(recycled) == recycled + [p] && nextPid == old(nextPid)
              else p == old(nextPid) && recycled == [] && nextPid == p + 1
      ensures (p, Val()) == PidTaken(old(Val()))
    {
      hide Pids;
      PidKeeps(Val());
      if recycled != [] {
        p := recycled[|recycled| - 1];
        recycled := recycled[..|recycled| - 1];
      } else {
        nextPid := nextPid + 1;
        p := nextPid - 1;
      }
    }

    /** Give a pid back; the allocator asserts that it is one given out and not yet
        returned. */
    method DeallocPid(z: Pid)
      requires z < nextPid && z !in recycled
      modifies this`recycled
      ensures recycled == old(recycled) + [z]
    {
      recycled := recycled + [z];
    }

    /** `fork`: a new last child of the current process, at the end of the ready queue. */
    method Fork() returns (c: Pid)
      requires Valid() && current.Some?
      modifies this`h, this`tasks, this`ready, this`nextPid, this`recycled
      ensures Valid() && c !in old(tasks) && ready == old(ready) + [c]
      ensures if old(recycled) != [] then old(recycled) == recycled + [c] && nextPid == old(nextPid)
              else c == old(nextPid) && recycled == [] && nextPid == c + 1
      ensures current.value in old(tasks) && tasks == AfterFork(old(tasks), current.value, c)
      ensures (Val(), Child(c)) == Step(old(Val()), CallFork)
    {
      hide Linked, Scheduled, Pids, Accounted, PidTaken;
      DispatchKeeps(Val());
      ForkKeeps(Val());
      var p := current.value;
      c := AllocPid();
      h := h.(made := h.made + multiset{c});
      tasks := tasks[p := tasks[p].(children := tasks[p].children + [c])];
      tasks := tasks[c := Task(false, Some(p), [], 0)];
      ready := ready + [c];
    }

    /** `exit` of the current process, which is not the initial one: its children go
        under the initial process, and it becomes a zombie. */
    method Exit(code: int)
      requires Valid() && current.Some? && current.value != INITPROC
      modifies this`h, this`tasks, this`current
      ensures Valid() && current == None
      ensures (forall c :: c in old(tasks)[old(current).value].children ==> c in old(tasks))
      ensures tasks == Exited(old(tasks), old(current).value, code)
      ensures (Val(), Ended(old(current).value, code)) == Step(old(Val()), CallExit(code))
    {
      hide Linked, Scheduled, Pids, Accounted, Exited, Adopt;
      DispatchKeeps(Val());
      var p := current.value;
      ghost var was := tasks;
      ExitKeeps(h, tasks, ready, p, code);
      current := None;
      h := h.(exits := h.exits + multiset{(p, code)});
      tasks := Reparent(tasks, tasks[p].children);
      ExitedIs(was, p, code);
      tasks := tasks[p := tasks[p].(zombie := true, exitCode := code, children := [])];
    }

    /** `waitpid` by the current process: -1 when no child matches, -2 when one matches
        but no matching one is a zombie, otherwise the first matching zombie, which
        leaves the children list unreferenced, so that it and its pid are freed. */
    method WaitPid(pid: int) returns (found: int, code: int)
      requires Valid() && current.Some?
      modifies this`h, this`tasks, this`recycled
      ensures Valid() && current.value in old(tasks)
      ensures var cs := old(tasks)[current.value].children;
        && (forall i :: 0 <= i < |cs| ==> cs[i] in old(tasks))
        && (found == -1 <==> NoMatch(cs, pid))
        && (found == -2 <==> !NoMatch(cs, pid) && NoZombie(old(tasks), cs, pid))
        && (found < 0 ==> found in {-1, -2} && tasks == old(tasks))
        && (found >= 0 ==>
              var k := FirstZombie(old(tasks), cs, pid);
              && k < |cs| && found == cs[k] && code == old(tasks)[cs[k]].exitCode
              && tasks == AfterReap(old(tasks), current.value, k)
              && Unreferenced(tasks, current, ready, found))
      ensures (Val(), Answer(found, code)) == Step(old(Val()), CallWait(pid))
    {
      hide Inv, Unreferenced, FirstZombie, NoMatch, NoZombie, Without;
      DispatchKeeps(Val());
      WaitKeeps(Val(), pid);
      var q := current.value;
      var cs := tasks[q].children;
      found := Search(tasks, cs, pid);
      code := 0;
      if found >= 0 {
        var k, z := found, cs[found];
        code := tasks[z].exitCode;
        h := h.(reaped := h.reaped + multiset{z}, results := h.results + multiset{(z, code)});
        tasks := tasks[q := tasks[q].(children := Without(cs, k))] - {z};
        DeallocPid(z);
        found := z;
      }
    }

    /** Give the processor up. */
    method Suspend()
      requires Valid() && current.Some?
      modifies this`current, this`ready
      ensures Valid() && current == None && ready == old(ready) + [old(current).value]
      ensures (Val(), Nothing) == Step(old(Val()), CallYield)
    {
      hide Inv;
      DispatchKeeps(Val());
      YieldKeeps(Val());
      ready := ready + [current.value];
      current := None;
    }

    /** The scheduler takes the process at the front of the ready queue; there is one,
        since the initial process is always ready when nothing runs. */
    method RunNext()
      requires Valid() && current == None
      modifies this`current, this`ready
      ensures Valid() && old(ready) != [] && current == Some(old(ready)[0]) && ready == old(ready)[1..]
    {
      hide Inv;
      DispatchKeeps(Val());
      current := Some(ready[0]);
      ready := ready[1..];
    }

    method Exec(c: Call) returns (out: Output)
      requires Valid() && Fits(Val(), c)
      modifies this
      ensures Valid() && (Val(), out) == Step(old(Val()), c)
    {
      hide Inv, ForkStep, ExitStep, WaitStep;
      if current == None {
        RunNext();
      }
      match c {
        case CallFork =>
          var p := Fork();
          out := Child(p);
        case CallExit(code) =>
          out := Ended(current.value, code);
          Exit(code);
        case CallWait(pid) =>
          var found, code := WaitPid(pid);
          out := Answer(found, code);
        case CallYield =>
          Suspend();
          out := Nothing;
      }
    }

    /** Any sequence of system calls by whichever process is running, as long as the
        initial process does not exit: the processes end up, and the calls answer, as
        in the run of the value. */
    method ExecAll(calls: seq<Call>) returns (outs: seq<Output>)
      requires Valid() && AllFit(Val(), calls)
      modifies this
      ensures Valid() && (Val(), outs) == Run(old(Val()), calls)
    {
      hide Inv, Step, Fits;
      outs := [];
      var i := 0;
      while i < |calls|
        invariant 0 <= i <= |calls| && Valid()
        invariant (Val(), outs) == Run(old(Val()), calls[..i])
      {
        assert calls[..i + 1][..i] == calls[..i];
        var out := Exec(calls[i]);
        outs := outs + [out];
        i := i + 1;
      }
      assert calls[..i] == calls;
    }
  }

  /** The search of `waitpid` among the children. */
  method Search(tasks: map<Pid, Task>, cs: seq<Pid>, pid: int) returns (r: int)
    requires forall i :: 0 <= i < |cs| ==> cs[i] in tasks
    ensures -2 <= r < |cs|
    ensures r == -1 <==> NoMatch(cs, pid)
    ensures r == -2 <==> !NoMatch(cs, pid) && NoZombie(tasks, cs, pid)
    ensures r != -1 ==> FirstZombie(tasks, cs, pid) == if r == -2 then |cs| else r
  {
    var i := 0;
    while i < |cs| && !Matches(pid, cs[i])
      invariant 0 <= i <= |cs|
      invariant forall j :: 0 <= j < i ==> !Matches(pid, cs[j])
    {
      i := i + 1;
    }
    if i == |cs| {
      return -1;
    }
    var k := 0;
    while k < |cs| && !(tasks[cs[k]].zombie && Matches(pid, cs[k]))
      invariant 0 <= k <= |cs|
      invariant forall j :: 0 <= j < k ==> !(tasks[cs[j]].zombie && Matches(pid, cs[j]))
    {
      k := k + 1;
    }
    r := if k == |cs| then -2 else k;
  }

  /** The loop over the children of an exiting process. */
  method Reparent(tasks: map<Pid, Task>, cs: seq<Pid>) returns (r: map<Pid, Task>)
    requires INITPROC in tasks && forall c :: c in cs ==> c in tasks
    ensures r == Adopt(tasks, cs)
  {
    hide Adopt;
    r := tasks;
    var i := 0;
    AdoptNone(tasks);
    while i < |cs|
      invariant 0 <= i <= |cs| && r.Keys == tasks.Keys
      invariant r == Adopt(tasks, cs[..i])
    {
      AdoptNext(tasks, cs, i);
      r := r[cs[i] := r[cs[i]].(parent := Some(INITPROC))];
      r := r[INITPROC := r[INITPROC].(children := r[INITPROC].children + [cs[i]])];
      i := i + 1;
    }
    assert cs[..i] == cs;
  }
}
