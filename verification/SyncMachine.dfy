/** All threads of a process over all interleavings: the primitives as one machine
    whose steps are the stretches of code between two context switches. */
module SyncMachine {
  import opened Words
  import opened Primitives

  /** Where a thread goes on when it next runs: in user code, at the top of the
      spinning loop, or at the `lock` after the blocking part of `Condvar::wait`. */
  datatype Pc = User | Spinning(m: nat) | Relock(m: nat)

  /** The places a thread can be in. */
  datatype Place = Running | Ready | MutexQueue(m: nat) | CondQueue(c: nat) | SemQueue(k: nat)

  /** What has been done to a semaphore. */
  datatype History = History(init: nat, ups: nat, downs: nat)

  /** The kernel's state, and auxiliary records of it: `held` are the mutexes each
      thread has locked and not unlocked, `holder` the inverse of it, `place` where
      each unfinished thread is. */
  datatype State = State(
    sched: Sched, mutexes: seq<Mutex>, conds: seq<seq<Tid>>, sems: seq<Sem>, pcs: map<Tid, Pc>,
    held: map<Tid, set<nat>>, holder: map<nat, Tid>, place: map<Tid, Place>, history: seq<History>)

  datatype Action =
    | LockIt(m: nat) | GoOn | UnlockIt(m: nat)
    | SignalIt(c: nat) | WaitOn(c: nat, m: nat)
    | UpIt(k: nat) | DownIt(k: nat)
    | Yield | Exit | Schedule | Spawn(t: Tid)

  /** The running thread is in user code. */
  predicate InUser(s: State) {
    s.sched.current.Some? && s.sched.current.value in s.pcs && s.pcs[s.sched.current.value] == User
  }

  predicate Holding(s: State, m: nat) {
    s.sched.current.Some? && s.sched.current.value in s.held && m in s.held[s.sched.current.value] && m < |s.mutexes|
  }

  /** Only holders unlock; otherwise any thread may do anything. */
  predicate Enabled(s: State, a: Action) {
    match a
    case LockIt(m) => InUser(s) && m < |s.mutexes|
    case GoOn =>
      s.sched.current.Some? && s.sched.current.value in s.pcs && s.pcs[s.sched.current.value] != User
      && s.pcs[s.sched.current.value].m < |s.mutexes|
    case UnlockIt(m) => InUser(s) && Holding(s, m)
    case SignalIt(c) => InUser(s) && c < |s.conds|
    case WaitOn(c, m) => InUser(s) && Holding(s, m) && c < |s.conds|
    case UpIt(k) => InUser(s) && k < |s.sems| && k < |s.history|
    case DownIt(k) => InUser(s) && k < |s.sems| && k < |s.history|
    case Yield => InUser(s)
    case Exit => InUser(s)
    case Schedule => s.sched.current.None?
    case Spawn(t) => t !in s.held && t !in s.pcs
  }

  function HeldBy(s: State, t: Tid): set<nat> {
    if t in s.held then s.held[t] else {}
  }

  /** `lock` by the current thread, from user code or from inside the kernel. */
  function LockStep(s: State, m: nat): State
    requires s.sched.current.Some? && m < |s.mutexes|
  {
    var t := s.sched.current.value;
    var (m', sched', r) := Lock(s.mutexes[m], s.sched);
    var s' := s.(mutexes := s.mutexes[m := m'], sched := sched');
    match r
    case Got => s'.(pcs := s.pcs[t := User], held := s.held[t := HeldBy(s, t) + {m}], holder := s.holder[m := t])
    case Queued => s'.(pcs := s.pcs[t := User], place := s.place[t := MutexQueue(m)])
    case Suspended => s'.(pcs := s.pcs[t := Spinning(m)], place := s.place[t := Ready])
  }

  /** `unlock` by the current thread. */
  function UnlockStep(s: State, m: nat): State
    requires s.sched.current.Some? && m < |s.mutexes|
  {
    var t := s.sched.current.value;
    var (m', sched', w) := Unlock(s.mutexes[m], s.sched);
    var held := s.held[t := HeldBy(s, t) - {m}];
    var s' := s.(mutexes := s.mutexes[m := m'], sched := sched');
    if w.Some?
    then s'.(held := held[w.value := (if w.value in held then held[w.value] else {}) + {m}],
             holder := s.holder[m := w.value], place := s.place[w.value := Ready])
    else s'.(held := held, holder := s.holder - {m})
  }

  /** Queue the current thread on a condition variable and block it. */
  function EnqueueStep(s: State, c: nat, m: nat): State
    requires s.sched.current.Some? && c < |s.conds|
  {
    var t := s.sched.current.value;
    s.(conds := s.conds[c := s.conds[c] + [t]], sched := BlockCurrent(s.sched),
       pcs := s.pcs[t := Relock(m)], place := s.place[t := CondQueue(c)])
  }

  function Next(s: State, a: Action): State
    requires Enabled(s, a)
  {
    match a
    case LockIt(m) => LockStep(s, m)
    case GoOn => LockStep(s, s.pcs[s.sched.current.value].m)
    case UnlockIt(m) => UnlockStep(s, m)
    case SignalIt(c) =>
      var q := s.conds[c];
      var (q', sched') := Signal(q, s.sched);
      s.(conds := s.conds[c := q'], sched := sched', place := if q != [] then s.place[q[0] := Ready] else s.place)
    case WaitOn(c, m) => EnqueueStep(UnlockStep(s, m), c, m)
    case UpIt(k) =>
      var sem := s.sems[k];
      var (sem', sched') := Up(sem, s.sched);
      s.(sems := s.sems[k := sem'], sched := sched',
         place := if sem.count + 1 <= 0 && sem.queue != [] then s.place[sem.queue[0] := Ready] else s.place,
         history := s.history[k := s.history[k].(ups := s.history[k].ups + 1)])
    case DownIt(k) =>
      var t := s.sched.current.value;
      var (sem', sched') := Down(s.sems[k], s.sched);
      s.(sems := s.sems[k := sem'], sched := sched',
         place := if s.sems[k].count - 1 < 0 then s.place[t := SemQueue(k)] else s.place,
         history := s.history[k := s.history[k].(downs := s.history[k].downs + 1)])
    case Yield => s.(sched := SuspendCurrent(s.sched), place := s.place[s.sched.current.value := Ready])
    case Exit =>
      var t := s.sched.current.value;
      s.(sched := BlockCurrent(s.sched), pcs := s.pcs - {t}, place := s.place - {t})
    case Schedule =>
      s.(sched := Dispatch(s.sched),
         place := if s.sched.ready != [] then s.place[s.sched.ready[0] := Running] else s.place)
    case Spawn(t) =>
      s.(sched := AddTask(s.sched, t), pcs := s.pcs[t := User], held := s.held[t := {}], place := s.place[t := Ready])
  }

  /** The threads in one place, in order. */
  function QueueOf(s: State, p: Place): seq<Tid> {
    match p
    case Running => if s.sched.current.Some? then [s.sched.current.value] else []
    case Ready => s.sched.ready
    case MutexQueue(m) => if m < |s.mutexes| && s.mutexes[m].Blocking? then s.mutexes[m].queue else []
    case CondQueue(c) => if c < |s.conds| then s.conds[c] else []
    case SemQueue(k) => if k < |s.sems| then s.sems[k].queue else []
  }

  /** Every unfinished thread is in exactly one place, and once there. */
  ghost predicate Placed(s: State) {
    && (forall p, i :: 0 <= i < |QueueOf(s, p)| ==> QueueOf(s, p)[i] in s.place && s.place[QueueOf(s, p)[i]] == p)
    && (forall p, i, j :: 0 <= i < j < |QueueOf(s, p)| ==> QueueOf(s, p)[i] != QueueOf(s, p)[j])
    && (forall t :: t in s.place ==> t in QueueOf(s, s.place[t]))
    && s.place.Keys == s.pcs.Keys
  }

  /** Each locked mutex has exactly one holder, and an unlocked blocking mutex has no
      waiters. */
  ghost predicate OneHolder(mutexes: seq<Mutex>, held: map<Tid, set<nat>>, holder: map<nat, Tid>) {
    && (forall m :: m in holder ==> m < |mutexes| && mutexes[m].locked)
    && (forall m :: 0 <= m < |mutexes| && mutexes[m].locked ==> m in holder)
    && (forall m :: m in holder ==> holder[m] in held && m in held[holder[m]])
    && (forall t, m :: t in held && m in held[t] ==> m in holder && holder[m] == t)
    && (forall m :: 0 <= m < |mutexes| && mutexes[m].Blocking? && !mutexes[m].locked ==> mutexes[m].queue == [])
  }

  ghost predicate Exclusive(s: State) {
    s.pcs.Keys <= s.held.Keys && OneHolder(s.mutexes, s.held, s.holder)
  }

  /** The count of a semaphore is its history, and a negative count its waiters. */
  ghost predicate Counted(s: State) {
    && |s.history| == |s.sems|
    && forall k :: 0 <= k < |s.sems| ==>
         var sem, h := s.sems[k], s.history[k];
         sem.count == h.init + h.ups - h.downs && |sem.queue| == (if sem.count < 0 then -sem.count else 0)
  }

  ghost predicate Inv(s: State) {
    Placed(s) && Exclusive(s) && Counted(s)
  }

  /** The first thread of `from` has become the last one of `to`; no other place has
      changed. */
  ghost predicate Moved(s: State, s': State, t: Tid, from: Place, to: Place) {
    && from != to && QueueOf(s, from) != [] && QueueOf(s, from)[0] == t
    && QueueOf(s', from) == QueueOf(s, from)[1..] && QueueOf(s', to) == QueueOf(s, to) + [t]
    && (forall p :: p != from && p != to ==> QueueOf(s', p) == QueueOf(s, p))
    && s'.place == s.place[t := to] && s'.pcs.Keys == s.pcs.Keys
  }

  /** Nothing has moved. */
  ghost predicate Stayed(s: State, s': State) {
    (forall p :: QueueOf(s', p) == QueueOf(s, p)) && s'.place == s.place && s'.pcs.Keys == s.pcs.Keys
  }

  lemma MovedWhere(s: State, s': State, t: Tid, from: Place, to: Place, p: Place, i: nat)
    requires Placed(s) && Moved(s, s', t, from, to) && i < |QueueOf(s', p)|
    ensures QueueOf(s', p)[i] in s'.place && s'.place[QueueOf(s', p)[i]] == p
  {
    hide QueueOf;
    if p == from {
      assert QueueOf(s', p)[i] == QueueOf(s, p)[i + 1] != QueueOf(s, p)[0];
    } else if p == to && i == |QueueOf(s, to)| {
      assert QueueOf(s', p)[i] == t;
    } else {
      assert QueueOf(s', p)[i] == QueueOf(s, p)[i];
      assert s.place[QueueOf(s, from)[0]] == from;
    }
  }

  lemma MovedDistinct(s: State, s': State, t: Tid, from: Place, to: Place, p: Place, i: nat, j: nat)
    requires Placed(s) && Moved(s, s', t, from, to) && i < j < |QueueOf(s', p)|
    ensures QueueOf(s', p)[i] != QueueOf(s', p)[j]
  {
    hide QueueOf;
    if p == from {
      assert QueueOf(s', p)[i] == QueueOf(s, p)[i + 1] && QueueOf(s', p)[j] == QueueOf(s, p)[j + 1];
    } else if p == to && j == |QueueOf(s, to)| {
      assert QueueOf(s', p)[j] == t && QueueOf(s', p)[i] == QueueOf(s, p)[i];
      assert s.place[QueueOf(s, from)[0]] == from && s.place[QueueOf(s, p)[i]] == p;
    } else {
      assert QueueOf(s', p)[i] == QueueOf(s, p)[i] && QueueOf(s', p)[j] == QueueOf(s, p)[j];
    }
  }

  lemma MovedFound(s: State, s': State, t: Tid, from: Place, to: Place, u: Tid)
    requires Placed(s) && Moved(s, s', t, from, to) && u in s'.place
    ensures u in QueueOf(s', s'.place[u])
  {
    hide QueueOf;
    if u != t {
      assert u in QueueOf(s, s.place[u]);
      assert QueueOf(s, from) == [t] + QueueOf(s', from);
    }
  }

  lemma MovedPlaced(s: State, s': State, t: Tid, from: Place, to: Place)
    requires Placed(s) && Moved(s, s', t, from, to)
    ensures Placed(s')
  {
    hide QueueOf, Moved;
    forall p, i | 0 <= i < |QueueOf(s', p)|
      ensures QueueOf(s', p)[i] in s'.place && s'.place[QueueOf(s', p)[i]] == p
    {
      MovedWhere(s, s', t, from, to, p, i);
    }
    forall p, i, j | 0 <= i < j < |QueueOf(s', p)| ensures QueueOf(s', p)[i] != QueueOf(s', p)[j] {
      MovedDistinct(s, s', t, from, to, p, i, j);
    }
    forall u | u in s'.place ensures u in QueueOf(s', s'.place[u]) {
      MovedFound(s, s', t, from, to, u);
    }
    MovedKeys(s, s', t, from, to);
  }

  lemma MovedKeys(s: State, s': State, t: Tid, from: Place, to: Place)
    requires Placed(s) && Moved(s, s', t, from, to)
    ensures s'.place.Keys == s'.pcs.Keys
  {
    hide QueueOf;
    assert QueueOf(s, from)[0] in s.place;
  }

  lemma StayedPlaced(s: State, s': State)
    requires Placed(s) && Stayed(s, s')
    ensures Placed(s')
  {
    hide QueueOf;
  }

  /** The running thread is an unfinished thread. */
  lemma RunningPlaced(s: State)
    requires Placed(s) && s.sched.current.Some?
    ensures s.sched.current.value in s.place && s.sched.current.value in s.pcs
  {
    assert QueueOf(s, Running)[0] == s.sched.current.value;
  }

  lemma LockMoves(s: State, m: nat)
    requires s.sched.current.Some? && m < |s.mutexes| && s.sched.current.value in s.pcs
    ensures var t, s' := s.sched.current.value, LockStep(s, m);
      Stayed(s, s') || Moved(s, s', t, Running, MutexQueue(m)) || Moved(s, s', t, Running, Ready)
  {
    var t, s' := s.sched.current.value, LockStep(s, m);
    if !s.mutexes[m].locked {
      assert Stayed(s, s');
    } else if s.mutexes[m].Spin? {
      assert Moved(s, s', t, Running, Ready);
    } else {
      assert Moved(s, s', t, Running, MutexQueue(m));
    }
  }

  lemma LockPlaced(s: State, m: nat)
    requires Placed(s) && s.sched.current.Some? && m < |s.mutexes|
    ensures Placed(LockStep(s, m))
  {
    hide Placed, QueueOf, Moved, Stayed, LockStep;
    var s', t := LockStep(s, m), s.sched.current.value;
    RunningPlaced(s);
    LockMoves(s, m);
    if Stayed(s, s') {
      StayedPlaced(s, s');
    } else if Moved(s, s', t, Running, Ready) {
      MovedPlaced(s, s', t, Running, Ready);
    } else {
      MovedPlaced(s, s', t, Running, MutexQueue(m));
    }
  }

  /** A thread woken from `from` goes to the ready queue, or nothing moves. */
  ghost predicate Woke(s: State, s': State, from: Place) {
    Stayed(s, s') || exists w :: Moved(s, s', w, from, Ready)
  }

  lemma WokePlaced(s: State, s': State, from: Place)
    requires Placed(s) && Woke(s, s', from)
    ensures Placed(s')
  {
    hide Placed, Moved, Stayed;
    if Stayed(s, s') {
      StayedPlaced(s, s');
    } else {
      var w :| Moved(s, s', w, from, Ready);
      MovedPlaced(s, s', w, from, Ready);
    }
  }

  lemma UnlockWakes(s: State, m: nat)
    requires s.sched.current.Some? && m < |s.mutexes|
    ensures Woke(s, UnlockStep(s, m), MutexQueue(m)) && UnlockStep(s, m).sched.current == s.sched.current
  {
    var s' := UnlockStep(s, m);
    if s.mutexes[m].Blocking? && s.mutexes[m].queue != [] {
      assert Moved(s, s', s.mutexes[m].queue[0], MutexQueue(m), Ready);
    } else {
      assert Stayed(s, s');
    }
  }

  lemma SignalWakes(s: State, c: nat)
    requires Enabled(s, SignalIt(c))
    ensures Woke(s, Next(s, SignalIt(c)), CondQueue(c))
  {
    var s' := Next(s, SignalIt(c));
    if s.conds[c] != [] {
      assert Moved(s, s', s.conds[c][0], CondQueue(c), Ready);
    } else {
      assert Stayed(s, s');
    }
  }

  lemma UpWakes(s: State, k: nat)
    requires Enabled(s, UpIt(k))
    ensures Woke(s, Next(s, UpIt(k)), SemQueue(k))
  {
    var s' := Next(s, UpIt(k));
    if s.sems[k].count + 1 <= 0 && s.sems[k].queue != [] {
      assert Moved(s, s', s.sems[k].queue[0], SemQueue(k), Ready);
    } else {
      assert Stayed(s, s');
    }
  }

  /** The running thread goes to `to`, or nothing moves. */
  lemma LeavesPlaced(s: State, s': State, to: Place)
    requires Placed(s) && s.sched.current.Some?
    requires Stayed(s, s') || Moved(s, s', s.sched.current.value, Running, to)
    ensures Placed(s')
  {
    hide Placed, Moved, Stayed;
    if Stayed(s, s') {
      StayedPlaced(s, s');
    } else {
      MovedPlaced(s, s', s.sched.current.value, Running, to);
    }
  }

  lemma EnqueuePlaced(s: State, c: nat, m: nat)
    requires Placed(s) && s.sched.current.Some? && c < |s.conds|
    ensures Placed(EnqueueStep(s, c, m))
  {
    hide Placed, Moved, Stayed, EnqueueStep;
    RunningPlaced(s);
    EnqueueMoves(s, c, m);
    LeavesPlaced(s, EnqueueStep(s, c, m), CondQueue(c));
  }

  lemma EnqueueMoves(s: State, c: nat, m: nat)
    requires s.sched.current.Some? && s.sched.current.value in s.pcs && c < |s.conds|
    ensures Moved(s, EnqueueStep(s, c, m), s.sched.current.value, Running, CondQueue(c))
  {
  }

  lemma DownPlaced(s: State, k: nat)
    requires Placed(s) && Enabled(s, DownIt(k))
    ensures Placed(Next(s, DownIt(k)))
  {
    hide Placed;
    LeavesPlaced(s, Next(s, DownIt(k)), SemQueue(k));
  }

  lemma YieldPlaced(s: State)
    requires Placed(s) && Enabled(s, Yield)
    ensures Placed(Next(s, Yield))
  {
    hide Placed;
    LeavesPlaced(s, Next(s, Yield), Ready);
  }

  lemma SchedulePlaced(s: State)
    requires Placed(s) && Enabled(s, Schedule)
    ensures Placed(Next(s, Schedule))
  {
    hide Placed;
    var s' := Next(s, Schedule);
    if s.sched.ready != [] {
      assert Moved(s, s', s.sched.ready[0], Ready, Running);
      MovedPlaced(s, s', s.sched.ready[0], Ready, Running);
    } else {
      StayedPlaced(s, s');
    }
  }

  lemma ExitPlaced(s: State)
    requires Placed(s) && Enabled(s, Exit)
    ensures Placed(Next(s, Exit))
  {
    var s', t := Next(s, Exit), s.sched.current.value;
    assert forall p :: p != Running ==> QueueOf(s', p) == QueueOf(s, p);
    assert QueueOf(s', Running) == [] && QueueOf(s, Running) == [t];
    assert s'.place == s.place - {t} && s'.pcs == s.pcs - {t};
    hide QueueOf, Next;
    forall p, i | 0 <= i < |QueueOf(s', p)| ensures QueueOf(s', p)[i] in s'.place && s'.place[QueueOf(s', p)[i]] == p {
      assert p != Running && s.place[QueueOf(s, p)[i]] == p && s.place[QueueOf(s, Running)[0]] == Running;
    }
  }

  /** A new thread joins the end of the ready queue. */
  ghost predicate Joined(s: State, s': State, t: Tid) {
    && t !in s.place && s'.place == s.place[t := Ready] && s'.pcs.Keys == s.pcs.Keys + {t}
    && QueueOf(s', Ready) == QueueOf(s, Ready) + [t]
    && forall p :: p != Ready ==> QueueOf(s', p) == QueueOf(s, p)
  }

  lemma JoinedPlaced(s: State, s': State, t: Tid)
    requires Placed(s) && Joined(s, s', t)
    ensures Placed(s')
  {
    hide QueueOf;
    forall u | u in s'.place ensures u in QueueOf(s', s'.place[u]) {
      if u != t {
        assert u in QueueOf(s, s.place[u]);
      }
    }
    forall p, i | 0 <= i < |QueueOf(s', p)| ensures QueueOf(s', p)[i] in s'.place && s'.place[QueueOf(s', p)[i]] == p {
      assert QueueOf(s', p)[i] == t || QueueOf(s', p)[i] == QueueOf(s, p)[i];
    }
  }

  lemma SpawnPlaced(s: State, t: Tid)
    requires Placed(s) && Enabled(s, Spawn(t))
    ensures Placed(Next(s, Spawn(t)))
  {
    assert t !in s.place;
    hide Placed;
    assert Joined(s, Next(s, Spawn(t)), t);
    JoinedPlaced(s, Next(s, Spawn(t)), t);
  }

  lemma LockExclusive(s: State, m: nat)
    requires Exclusive(s) && s.sched.current.Some? && s.sched.current.value in s.pcs && m < |s.mutexes|
    ensures Exclusive(LockStep(s, m))
  {
  }

  /** A waiter of a blocking mutex is an unfinished thread other than the running
      one. */
  lemma WaiterFacts(s: State, m: nat)
    requires Placed(s) && m < |s.mutexes| && s.mutexes[m].Blocking? && s.mutexes[m].queue != []
    ensures s.mutexes[m].queue[0] in s.pcs
    ensures s.sched.current.Some? ==> s.mutexes[m].queue[0] != s.sched.current.value
  {
    assert QueueOf(s, MutexQueue(m))[0] == s.mutexes[m].queue[0];
    assert s.sched.current.Some? ==> QueueOf(s, Running)[0] == s.sched.current.value;
  }

  /** A lock passed from `t` to `w`. */
  lemma Passed(mutexes: seq<Mutex>, held: map<Tid, set<nat>>, holder: map<nat, Tid>, m: nat, t: Tid, w: Tid, x: Mutex)
    requires OneHolder(mutexes, held, holder) && t in held && w in held && t != w && m in held[t] && m < |mutexes|
    requires x.locked
    ensures OneHolder(mutexes[m := x], held[t := held[t] - {m}][w := held[w] + {m}], holder[m := w])
  {
    var held', holder' := held[t := held[t] - {m}][w := held[w] + {m}], holder[m := w];
    forall n | n in holder' ensures holder'[n] in held' && n in held'[holder'[n]] {
      if n != m {
        assert n in held[holder[n]];
      }
    }
    assert holder[m] == t;
    assert forall u :: u in held && m in held[u] ==> u == t;
    forall u, n | u in held' && n in held'[u] ensures n in holder' && holder'[n] == u {
      assert n != m ==> n in held[u];
    }
  }

  /** A lock given up by `t`. */
  lemma Freed(mutexes: seq<Mutex>, held: map<Tid, set<nat>>, holder: map<nat, Tid>, m: nat, t: Tid, x: Mutex)
    requires OneHolder(mutexes, held, holder) && t in held && m in held[t] && m < |mutexes|
    requires !x.locked && (x.Blocking? ==> x.queue == [])
    ensures OneHolder(mutexes[m := x], held[t := held[t] - {m}], holder - {m})
  {
    var held', holder' := held[t := held[t] - {m}], holder - {m};
    assert holder[m] == t;
    forall n | n in holder' ensures holder'[n] in held' && n in held'[holder'[n]] {
      assert n != m && n in held[holder[n]];
    }
    forall u, n | u in held' && n in held'[u] ensures n in holder' && holder'[n] == u {
      assert n in held[u] && holder[n] == u;
    }
  }

  /** Unlocking by the holder either hands the lock to the first waiter or frees it;
      the mutex is locked, as the source asserts. */
  lemma UnlockExclusive(s: State, m: nat)
    requires Placed(s) && Exclusive(s) && Holding(s, m)
    ensures Exclusive(UnlockStep(s, m)) && s.mutexes[m].locked
    ensures s.mutexes[m].Blocking? && s.mutexes[m].queue != [] ==>
      m in UnlockStep(s, m).held[s.mutexes[m].queue[0]]
  {
    hide Placed;
    var t := s.sched.current.value;
    assert s.mutexes[m].locked;
    hide OneHolder;
    var x := UnlockStep(s, m).mutexes[m];
    if s.mutexes[m].Blocking? && s.mutexes[m].queue != [] {
      WaiterFacts(s, m);
      Passed(s.mutexes, s.held, s.holder, m, t, s.mutexes[m].queue[0], x);
    } else {
      Freed(s.mutexes, s.held, s.holder, m, t, x);
    }
  }

  lemma OtherExclusive(s: State, s': State)
    requires Exclusive(s) && s'.mutexes == s.mutexes && s'.held == s.held && s'.holder == s.holder
    requires s'.pcs.Keys <= s.pcs.Keys
    ensures Exclusive(s')
  {
  }

  lemma SpawnExclusive(s: State, t: Tid)
    requires Exclusive(s) && Enabled(s, Spawn(t))
    ensures Exclusive(Next(s, Spawn(t)))
  {
  }

  lemma UpCounted(s: State, k: nat)
    requires Counted(s) && Enabled(s, UpIt(k))
    ensures Counted(Next(s, UpIt(k)))
  {
  }

  lemma DownCounted(s: State, k: nat)
    requires Counted(s) && Enabled(s, DownIt(k))
    ensures Counted(Next(s, DownIt(k)))
  {
  }

  lemma OtherCounted(s: State, a: Action)
    requires Enabled(s, a) && !a.UpIt? && !a.DownIt?
    ensures Next(s, a).sems == s.sems && Next(s, a).history == s.history
  {
  }

  lemma NextCounted(s: State, a: Action)
    requires Counted(s) && Enabled(s, a)
    ensures Counted(Next(s, a))
  {
    match a
    case UpIt(k) => hide Counted, Next; UpCounted(s, k);
    case DownIt(k) => hide Counted, Next; DownCounted(s, k);
    case _ => hide Next; OtherCounted(s, a);
  }

  /** Every step keeps all of it. */
  lemma NextInv(s: State, a: Action)
    requires Inv(s) && Enabled(s, a)
    ensures Inv(Next(s, a))
  {
    hide Placed, Exclusive, QueueOf, Counted, LockStep, UnlockStep, EnqueueStep;
    NextCounted(s, a);
    var s' := Next(s, a);
    if s.sched.current.Some? {
      RunningPlaced(s);
    }
    match a
    case LockIt(m) => LockPlaced(s, m); LockExclusive(s, m);
    case GoOn => LockPlaced(s, s.pcs[s.sched.current.value].m); LockExclusive(s, s.pcs[s.sched.current.value].m);
    case UnlockIt(m) =>
      UnlockWakes(s, m); WokePlaced(s, s', MutexQueue(m)); UnlockExclusive(s, m);
    case SignalIt(c) => SignalWakes(s, c); WokePlaced(s, s', CondQueue(c)); OtherExclusive(s, s');
    case WaitOn(c, m) =>
      var u := UnlockStep(s, m);
      UnlockWakes(s, m);
      WokePlaced(s, u, MutexQueue(m));
      UnlockExclusive(s, m);
      WaitKeeps(s, c, m);
    case UpIt(k) => UpWakes(s, k); WokePlaced(s, s', SemQueue(k)); OtherExclusive(s, s');
    case DownIt(k) => DownPlaced(s, k); OtherExclusive(s, s');
    case Yield => YieldPlaced(s); OtherExclusive(s, s');
    case Exit => ExitPlaced(s); OtherExclusive(s, s');
    case Schedule => SchedulePlaced(s); OtherExclusive(s, s');
    case Spawn(t) => SpawnPlaced(s, t); SpawnExclusive(s, t);
  }

  lemma WaitKeeps(s: State, c: nat, m: nat)
    requires s.sched.current.Some? && s.sched.current.value in s.pcs && m < |s.mutexes| && c < |s.conds|
    requires Placed(UnlockStep(s, m)) && Exclusive(UnlockStep(s, m))
    ensures UnlockStep(s, m).sched.current == s.sched.current && UnlockStep(s, m).conds == s.conds
    ensures Placed(EnqueueStep(UnlockStep(s, m), c, m)) && Exclusive(EnqueueStep(UnlockStep(s, m), c, m))
  {
    hide Placed, Exclusive, QueueOf;
    var u := UnlockStep(s, m);
    EnqueuePlaced(u, c, m);
    OtherExclusive(u, EnqueueStep(u, c, m));
  }

  /** A run: each state comes from the one before by an enabled action. */
  ghost predicate IsRun(run: seq<State>, acts: seq<Action>) {
    && |run| == |acts| + 1
    && forall i :: 0 <= i < |acts| ==> Enabled(run[i], acts[i]) && run[i + 1] == Next(run[i], acts[i])
  }

  /** Over every run: mutual exclusion, one place for each unfinished thread, and the
      semaphore counts. */
  lemma {:induction false} RunInv(run: seq<State>, acts: seq<Action>)
    requires IsRun(run, acts) && Inv(run[0])
    ensures forall i :: 0 <= i < |run| ==> Inv(run[i])
  {
    hide Inv, Enabled, Next;
    if acts != [] {
      var n := |acts| - 1;
      RunInv(run[..n + 1], acts[..n]);
      assert Inv(run[..n + 1][n]);
      NextInv(run[n], acts[n]);
      forall i | 0 <= i < |run| ensures Inv(run[i]) {
        if i <= n {
          assert run[i] == run[..n + 1][i];
        }
      }
    }
  }

  /** No two threads hold the same mutex. */
  lemma MutualExclusion(s: State, t: Tid, u: Tid, m: nat)
    requires Inv(s) && t in s.held && u in s.held && m in s.held[t] && m in s.held[u]
    ensures t == u
  {
    hide Placed, Counted;
    assert s.holder[m] == t;
    assert s.holder[m] == u;
  }

  /** Downs that have returned never outnumber the initial count and the ups. */
  lemma CompletedDowns(s: State, k: nat)
    requires Inv(s) && k < |s.sems|
    ensures s.history[k].downs - |s.sems[k].queue| <= s.history[k].init + s.history[k].ups
    ensures s.sems[k].count >= 0 ==> s.sems[k].queue == []
  {
    hide Placed, Exclusive;
  }

  /** The actions that take a thread off the queue `p`. */
  predicate Releases(a: Action, p: Place) {
    match p
    case Running => false
    case Ready => a == Schedule
    case MutexQueue(m) => a == UnlockIt(m) || (a.WaitOn? && a.m == m)
    case CondQueue(c) => a == SignalIt(c)
    case SemQueue(k) => a == UpIt(k)
  }

  /** Where a thread taken off the queue `p` goes. */
  function Woken(p: Place): Place {
    if p == Ready then Running else Ready
  }

  /** The first thread of `p` has left it and is where it should go. */
  ghost predicate Popped(s: State, s': State, p: Place) {
    && QueueOf(s, p) != [] && QueueOf(s', p) == QueueOf(s, p)[1..]
    && QueueOf(s, p)[0] in s'.place && s'.place[QueueOf(s, p)[0]] == Woken(p)
  }

  lemma UnlockPops(s: State, m: nat, p: Place)
    requires s.sched.current.Some? && m < |s.mutexes| && p != Running
    ensures var s' := UnlockStep(s, m);
      if p == MutexQueue(m) && QueueOf(s, p) != [] then Popped(s, s', p) else QueueOf(s, p) <= QueueOf(s', p)
  {
  }

  lemma WaitPops(s: State, c: nat, m: nat, p: Place)
    requires Placed(s) && Enabled(s, WaitOn(c, m)) && p != Running
    ensures var s' := Next(s, WaitOn(c, m));
      if p == MutexQueue(m) && QueueOf(s, p) != [] then Popped(s, s', p) else QueueOf(s, p) <= QueueOf(s', p)
  {
    var u := UnlockStep(s, m);
    UnlockPops(s, m, p);
    UnlockFrame(s, m);
    EnqueueQueues(u, c, m, p);
    if p == MutexQueue(m) && QueueOf(s, p) != [] {
      WaiterFacts(s, m);
    }
    hide UnlockStep, EnqueueStep, Placed;
  }

  lemma EnqueueQueues(s: State, c: nat, m: nat, p: Place)
    requires s.sched.current.Some? && c < |s.conds| && p != Running
    ensures var t, s' := s.sched.current.value, EnqueueStep(s, c, m);
      && QueueOf(s', p) == (if p == CondQueue(c) then QueueOf(s, p) + [t] else QueueOf(s, p))
      && s'.place == s.place[t := CondQueue(c)]
  {
  }

  lemma UnlockFrame(s: State, m: nat)
    requires s.sched.current.Some? && m < |s.mutexes|
    ensures UnlockStep(s, m).sched.current == s.sched.current && UnlockStep(s, m).conds == s.conds
  {
  }

  lemma SemPops(s: State, a: Action, p: Place)
    requires Counted(s) && Enabled(s, a) && (a.UpIt? || a.DownIt?) && p != Running
    ensures var s' := Next(s, a);
      if Releases(a, p) && QueueOf(s, p) != [] then Popped(s, s', p) else QueueOf(s, p) <= QueueOf(s', p)
  {
  }

  lemma LockPops(s: State, m: nat, p: Place)
    requires s.sched.current.Some? && m < |s.mutexes| && p != Running
    ensures QueueOf(s, p) <= QueueOf(LockStep(s, m), p)
  {
  }

  lemma OtherPops(s: State, a: Action, p: Place)
    requires Enabled(s, a) && p != Running && (a.SignalIt? || a.Yield? || a.Exit? || a.Schedule? || a.Spawn?)
    ensures var s' := Next(s, a);
      if Releases(a, p) && QueueOf(s, p) != [] then Popped(s, s', p) else QueueOf(s, p) <= QueueOf(s', p)
  {
  }

  /** Every queue is FIFO, and released by exactly these actions: such a step takes its
      first thread, if it has one, and wakes it; any other step appends to it or leaves it
      alone. */
  lemma QueueFifo(s: State, a: Action, p: Place)
    requires Inv(s) && Enabled(s, a) && p != Running
    ensures var s' := Next(s, a);
      if Releases(a, p) && QueueOf(s, p) != [] then Popped(s, s', p) else QueueOf(s, p) <= QueueOf(s', p)
  {
    hide Placed, Exclusive, Counted, QueueOf, LockStep, UnlockStep, Popped;
    match a
    case LockIt(m) => LockPops(s, m, p);
    case GoOn => LockPops(s, s.pcs[s.sched.current.value].m, p);
    case UnlockIt(m) => UnlockPops(s, m, p);
    case WaitOn(c, m) => WaitPops(s, c, m, p);
    case UpIt(_) => SemPops(s, a, p);
    case DownIt(_) => SemPops(s, a, p);
    case _ => OtherPops(s, a, p);
  }

  /** How many of the actions release the queue `p`. */
  ghost function Count(acts: seq<Action>, p: Place): nat {
    if acts == [] then 0
    else Count(acts[..|acts| - 1], p) + if Releases(acts[|acts| - 1], p) then 1 else 0
  }

  /** Thread `t` was taken off the queue `p` by the release with number `k`. */
  ghost predicate Taken(run: seq<State>, acts: seq<Action>, p: Place, t: Tid, k: nat)
    requires |run| == |acts| + 1
  {
    exists j: nat :: TakenAt(run, acts, p, t, k, j)
  }

  ghost predicate TakenAt(run: seq<State>, acts: seq<Action>, p: Place, t: Tid, k: nat, j: nat)
    requires |run| == |acts| + 1
  {
    && j < |acts| && Releases(acts[j], p) && Count(acts[..j], p) == k
    && Popped(run[j], run[j + 1], p) && QueueOf(run[j], p)[0] == t
  }

  /** Waiter `t` is where it should be: with `k` threads before it at first, after the
      actions `acts` have led to the last state of `run`. */
  ghost predicate ServedTo(run: seq<State>, acts: seq<Action>, p: Place, t: Tid, k: nat)
    requires |run| == |acts| + 1
  {
    var n, q := Count(acts, p), QueueOf(run[|acts|], p);
    if n <= k then k - n < |q| && q[k - n] == t else Taken(run, acts, p, t, k)
  }

  /** Over every run, a waiter with `k` threads before it moves up by one at each release
      of the queue, is overtaken by nobody, and is taken and woken by release number
      `k`, counting from 0. */
  lemma {:induction false} Served(run: seq<State>, acts: seq<Action>, p: Place, t: Tid, k: nat)
    requires IsRun(run, acts) && Inv(run[0])
    requires p != Running && k < |QueueOf(run[0], p)| && QueueOf(run[0], p)[k] == t
    ensures ServedTo(run, acts, p, t, k)
  {
    hide Inv, Enabled, Next, QueueOf, Releases, Popped, Taken;
    if acts != [] {
      var n := |acts| - 1;
      var run', acts' := run[..n + 1], acts[..n];
      assert run'[n] == run[n] && run'[0] == run[0];
      Served(run', acts', p, t, k);
      RunInv(run', acts');
      QueueFifo(run[n], acts[n], p);
      ServedNext(run, acts, p, t, k);
    }
  }

  lemma ServedNext(run: seq<State>, acts: seq<Action>, p: Place, t: Tid, k: nat)
    requires |run| == |acts| + 1 && acts != []
    requires ServedTo(run[..|acts|], acts[..|acts| - 1], p, t, k)
    requires var n := |acts| - 1;
      var q := QueueOf(run[n], p);
      if Releases(acts[n], p) && q != [] then Popped(run[n], run[n + 1], p) else q <= QueueOf(run[n + 1], p)
    ensures ServedTo(run, acts, p, t, k)
  {
    hide QueueOf, Releases, Taken;
    var n := |acts| - 1;
    var c := Count(acts[..n], p);
    assert Count(acts, p) == c + if Releases(acts[n], p) then 1 else 0;
    hide Count;
    assert run[..|acts|][n] == run[n];
    if c > k {
      TakenMore(run, acts, p, t, k);
    } else if c == k && Releases(acts[n], p) {
      TakenNow(run, acts, p, t);
    } else {
      MovesUp(QueueOf(run[n], p), QueueOf(run[n + 1], p), k - c, t, Releases(acts[n], p));
    }
  }

  lemma MovesUp(q: seq<Tid>, q': seq<Tid>, i: nat, t: Tid, released: bool)
    requires i < |q| && q[i] == t
    requires if released then 0 < i && q' == q[1..] else q <= q'
    ensures var j := if released then i - 1 else i; j < |q'| && q'[j] == t
  {
  }

  lemma TakenMore(run: seq<State>, acts: seq<Action>, p: Place, t: Tid, k: nat)
    requires |run| == |acts| + 1 && acts != []
    requires Taken(run[..|acts|], acts[..|acts| - 1], p, t, k)
    ensures Taken(run, acts, p, t, k)
  {
    hide Popped, Releases, QueueOf, Count;
    var n := |acts| - 1;
    var j: nat :| TakenAt(run[..n + 1], acts[..n], p, t, k, j);
    assert acts[..n][..j] == acts[..j];
    assert TakenAt(run, acts, p, t, k, j);
  }

  lemma TakenNow(run: seq<State>, acts: seq<Action>, p: Place, t: Tid)
    requires |run| == |acts| + 1 && acts != []
    requires var n := |acts| - 1;
      Releases(acts[n], p) && Popped(run[n], run[n + 1], p) && QueueOf(run[n], p)[0] == t
    ensures Taken(run, acts, p, t, Count(acts[..|acts| - 1], p))
  {
    hide Popped, Releases, QueueOf, Count;
    assert TakenAt(run, acts, p, t, Count(acts[..|acts| - 1], p), |acts| - 1);
  }

  /** No signal is lost: the signals after a thread began to wait, with `k` others before
      it, move it up one by one, and signal number `k` wakes it. */
  lemma NoLostSignal(run: seq<State>, acts: seq<Action>, c: nat, t: Tid, k: nat)
    requires IsRun(run, acts) && Inv(run[0])
    requires k < |QueueOf(run[0], CondQueue(c))| && QueueOf(run[0], CondQueue(c))[k] == t
    ensures Signals(acts, c) > k ==> Taken(run, acts, CondQueue(c), t, k)
    ensures Signals(acts, c) <= k ==> t in QueueOf(run[|acts|], CondQueue(c))
  {
    assert |run| == |acts| + 1;
    hide QueueOf, Taken, Inv, IsRun;
    Served(run, acts, CondQueue(c), t, k);
    SignalsAre(acts, c);
  }

  ghost function Signals(acts: seq<Action>, c: nat): nat {
    if acts == [] then 0
    else Signals(acts[..|acts| - 1], c) + if acts[|acts| - 1] == SignalIt(c) then 1 else 0
  }

  lemma {:induction false} SignalsAre(acts: seq<Action>, c: nat)
    ensures Signals(acts, c) == Count(acts, CondQueue(c))
  {
    if acts != [] {
      SignalsAre(acts[..|acts| - 1], c);
    }
  }

  /** A mutex that its queue is released from is handed to the thread taken. */
  lemma HandOff(s: State, a: Action, m: nat)
    requires Inv(s) && Enabled(s, a) && Releases(a, MutexQueue(m)) && QueueOf(s, MutexQueue(m)) != []
    ensures var t := QueueOf(s, MutexQueue(m))[0];
      t in Next(s, a).held && m in Next(s, a).held[t] && t in Next(s, a).place && Next(s, a).place[t] == Ready
  {
    QueueFifo(s, a, MutexQueue(m));
    WaiterFacts(s, m);
    hide Placed, Exclusive, Counted;
    assert Next(s, a).held == UnlockStep(s, m).held by { hide UnlockStep; }
  }

  /** The mutex that a thread inside `lock` or `wait` still has to get. */
  function Owes(s: State, t: Tid): Option<nat> {
    if t in s.pcs && s.pcs[t] != User then Some(s.pcs[t].m)
    else if t in s.place && s.place[t].MutexQueue? then Some(s.place[t].m)
    else None
  }

  /** The step of thread `t` itself. */
  lemma LockOwes(s: State, m: nat, t: Tid)
    requires s.sched.current.Some? && m < |s.mutexes|
    requires t == s.sched.current.value ==> Owes(s, t) == Some(m)
    requires Owes(s, t).Some?
    ensures Owes(LockStep(s, m), t) == Owes(s, t)
      || (t in LockStep(s, m).held && Owes(s, t).value in LockStep(s, m).held[t])
  {
  }

  lemma UnlockOwes(s: State, m: nat, t: Tid)
    requires Placed(s) && s.sched.current.Some? && m < |s.mutexes| && t != s.sched.current.value && Owes(s, t).Some?
    ensures Owes(UnlockStep(s, m), t) == Owes(s, t)
      || (t in UnlockStep(s, m).held && Owes(s, t).value in UnlockStep(s, m).held[t])
  {
    if s.mutexes[m].Blocking? && s.mutexes[m].queue != [] {
      var w := QueueOf(s, MutexQueue(m))[0];
      assert s.place[w] == MutexQueue(m);
    }
    hide Placed;
  }

  /** A thread inside `lock` or `Condvar::wait` does not get out without the mutex:
      it still has to get it, or it holds it. */
  lemma ReturnsHolding(s: State, a: Action, t: Tid)
    requires Inv(s) && Enabled(s, a) && Owes(s, t).Some? && (InUser(s) ==> t != s.sched.current.value)
    ensures Owes(Next(s, a), t) == Owes(s, t)
      || (t in Next(s, a).held && Owes(s, t).value in Next(s, a).held[t])
  {
    hide Exclusive, Counted, LockStep, UnlockStep;
    match a
    case LockIt(m) => LockOwes(s, m, t);
    case GoOn => LockOwes(s, s.pcs[s.sched.current.value].m, t);
    case UnlockIt(m) => UnlockOwes(s, m, t);
    case WaitOn(c, m) => UnlockOwes(s, m, t); EnqueueOwes(s, c, m, t);
    case _ => OtherOwes(s, a, t);
  }

  /** The running thread `t` gives the mutex `m` up. */
  predicate GivesUp(s: State, a: Action, t: Tid, m: nat) {
    s.sched.current == Some(t) && (a == UnlockIt(m) || (a.WaitOn? && a.m == m))
  }

  ghost predicate Holds(s: State, t: Tid, m: nat) {
    t in s.held && m in s.held[t]
  }

  /** A mutex is lost by nothing but giving it up. */
  lemma KeepsHolding(s: State, a: Action, t: Tid, m: nat)
    requires Enabled(s, a) && Holds(s, t, m) && !GivesUp(s, a, t, m)
    ensures Holds(Next(s, a), t, m)
  {
    if a.UnlockIt? || a.WaitOn? {
      UnlockKeepsHolding(s, a.m, t, m);
      hide UnlockStep;
    }
  }

  lemma UnlockKeepsHolding(s: State, n: nat, t: Tid, m: nat)
    requires s.sched.current.Some? && n < |s.mutexes| && Holds(s, t, m) && (s.sched.current == Some(t) ==> n != m)
    ensures Holds(UnlockStep(s, n), t, m)
  {
  }

  /** A thread that runs user code owes nothing. */
  lemma UserOwesNothing(s: State)
    requires Inv(s) && InUser(s)
    ensures Owes(s, s.sched.current.value) == None
  {
    FirstPlaced(s, Running);
    hide Placed;
  }

  /** Calling `lock` or `wait` begins it: the thread then holds the mutex or has to get
      it. */
  lemma CallsOwe(s: State, a: Action)
    requires Inv(s) && Enabled(s, a) && (a.LockIt? || a.WaitOn?)
    ensures Owes(Next(s, a), s.sched.current.value) == Some(a.m) || Holds(Next(s, a), s.sched.current.value, a.m)
  {
    hide Placed, Exclusive, Counted;
    if a.WaitOn? {
      UnlockFrame(s, a.m);
      hide UnlockStep;
    }
  }

  /** Thread `t` acts in user code. */
  ghost predicate ActsInUser(s: State, a: Action, t: Tid) {
    InUser(s) && s.sched.current.value == t && !a.Spawn?
  }

  lemma StepsHolding(s: State, a: Action, t: Tid, m: nat)
    requires Inv(s) && Enabled(s, a) && !ActsInUser(s, a, t)
    requires Owes(s, t) == Some(m) || Holds(s, t, m)
    ensures Owes(Next(s, a), t) == Some(m) || Holds(Next(s, a), t, m)
  {
    if InUser(s) {
      UserOwesNothing(s);
    }
    hide Inv, Next, Owes;
    if Holds(s, t, m) {
      KeepsHolding(s, a, t, m);
    } else {
      ReturnsHolding(s, a, t);
    }
  }

  /** Over every run, a thread inside `lock` or `wait` still has to get the mutex or holds
      it, through any hand-off and any time in the ready queue, until it acts in user
      code again; so it is back in user code only with the mutex. */
  lemma {:induction false} RunReturnsHolding(run: seq<State>, acts: seq<Action>, t: Tid, m: nat)
    requires IsRun(run, acts) && Inv(run[0]) && (Owes(run[0], t) == Some(m) || Holds(run[0], t, m))
    requires forall i :: 0 <= i < |acts| ==> !ActsInUser(run[i], acts[i], t)
    ensures var last := run[|acts|];
      && (Owes(last, t) == Some(m) || Holds(last, t, m))
      && (InUser(last) && last.sched.current.value == t ==> Holds(last, t, m))
  {
    hide Inv, Next, Owes, Enabled, InUser, Holds, ActsInUser;
    var n := |acts|;
    if n > 0 {
      var was := run[..n];
      assert was[n - 1] == run[n - 1] && was[0] == run[0];
      RunReturnsHolding(was, acts[..n - 1], t, m);
      RunInv(was, acts[..n - 1]);
      StepsHolding(run[n - 1], acts[n - 1], t, m);
      NextInv(run[n - 1], acts[n - 1]);
    }
    if InUser(run[n]) {
      UserOwesNothing(run[n]);
    }
  }

  lemma EnqueueOwes(s: State, c: nat, m: nat, t: Tid)
    requires s.sched.current.Some? && m < |s.mutexes| && c < |s.conds| && t != s.sched.current.value
    ensures UnlockStep(s, m).sched.current == s.sched.current && UnlockStep(s, m).conds == s.conds
    ensures var u := UnlockStep(s, m);
      Owes(EnqueueStep(u, c, m), t) == Owes(u, t) && EnqueueStep(u, c, m).held == u.held
  {
  }

  /** The first thread of a queue is in its place. */
  lemma FirstPlaced(s: State, p: Place)
    requires Placed(s) && QueueOf(s, p) != []
    ensures QueueOf(s, p)[0] in s.place && s.place[QueueOf(s, p)[0]] == p
  {
    hide QueueOf;
  }

  lemma OtherOwes(s: State, a: Action, t: Tid)
    requires Placed(s) && Enabled(s, a) && Owes(s, t).Some? && (InUser(s) ==> t != s.sched.current.value)
    requires a.SignalIt? || a.UpIt? || a.DownIt? || a.Yield? || a.Exit? || a.Schedule? || a.Spawn?
    ensures Owes(Next(s, a), t) == Owes(s, t)
  {
    hide Placed;
    match a
    case SignalIt(c) =>
      if s.conds[c] != [] {
        FirstPlaced(s, CondQueue(c));
      }
    case UpIt(k) =>
      if s.sems[k].queue != [] {
        FirstPlaced(s, SemQueue(k));
      }
    case Schedule =>
      if s.sched.ready != [] {
        FirstPlaced(s, Ready);
      }
    case Spawn(u) => SpawnFresh(s, u);
    case _ =>
  }

  lemma SpawnFresh(s: State, u: Tid)
    requires Placed(s) && u !in s.pcs
    ensures u !in s.place
  {
  }

  /** The unlocks that do no harm: by the holder, of a spinning mutex that is not locked,
      and where the first waiter is the holder itself, which waits for its own mutex. */
  ghost predicate Harmless(s: State, m: nat)
    requires s.sched.current.Some? && m < |s.mutexes|
  {
    || Holding(s, m) || !s.mutexes[m].locked
    || (s.mutexes[m].Blocking? && s.mutexes[m].queue != [] && Holds(s, s.mutexes[m].queue[0], m))
  }

  /** The source lets every thread unlock, a blocking mutex if it is locked.  The invariant
      survives an unlock exactly when it is one of these. */
  lemma UnlockExact(s: State, m: nat)
    requires Inv(s) && s.sched.current.Some? && m < |s.mutexes| && (s.mutexes[m].Spin? || s.mutexes[m].locked)
    ensures Inv(UnlockStep(s, m)) <==> Harmless(s, m)
  {
    hide Placed, Counted, OneHolder;
    var s' := UnlockStep(s, m);
    RunningPlaced(s);
    UnlockWakes(s, m);
    WokePlaced(s, s', MutexQueue(m));
    assert Counted(s') by { UnlockCounted(s, m); }
    if Holding(s, m) {
      UnlockExclusive(s, m);
    } else if !s.mutexes[m].locked {
      UnlockedFree(s, m);
    } else {
      StrayUnlock(s, m);
    }
  }

  lemma UnlockCounted(s: State, m: nat)
    requires Counted(s) && s.sched.current.Some? && m < |s.mutexes|
    ensures Counted(UnlockStep(s, m))
  {
  }

  lemma UnlockedFree(s: State, m: nat)
    requires Exclusive(s) && s.sched.current.Some? && s.sched.current.value in s.pcs && m < |s.mutexes|
    requires !s.mutexes[m].locked
    ensures Exclusive(UnlockStep(s, m))
  {
    var t, s' := s.sched.current.value, UnlockStep(s, m);
    assert m !in s.holder && m !in s.held[t];
    assert s.held[t] - {m} == s.held[t];
    assert s'.mutexes == s.mutexes && s'.held == s.held && s'.holder == s.holder;
    hide OneHolder;
  }

  /** A locked mutex unlocked by a thread that does not hold it. */
  lemma StrayUnlock(s: State, m: nat)
    requires Placed(s) && Exclusive(s) && s.sched.current.Some? && s.sched.current.value in s.pcs && m < |s.mutexes|
    requires s.mutexes[m].locked && !Holding(s, m)
    ensures Exclusive(UnlockStep(s, m)) <==> Harmless(s, m)
  {
    hide Placed, OneHolder;
    var t := s.sched.current.value;
    var x := UnlockStep(s, m).mutexes[m];
    if s.mutexes[m].Blocking? && s.mutexes[m].queue != [] {
      WaiterFacts(s, m);
      StrayPassed(s.mutexes, s.held, s.holder, m, t, s.mutexes[m].queue[0], x);
    } else {
      StrayFreed(s.mutexes, s.held, s.holder, m, t, x);
    }
  }

  /** A lock passed to `w` by a thread that does not hold it. */
  lemma StrayPassed(mutexes: seq<Mutex>, held: map<Tid, set<nat>>, holder: map<nat, Tid>, m: nat, t: Tid, w: Tid, x: Mutex)
    requires OneHolder(mutexes, held, holder) && t in held && w in held && t != w && m !in held[t] && m < |mutexes|
    requires mutexes[m].locked && x.locked
    ensures OneHolder(mutexes[m := x], held[t := held[t] - {m}][w := held[w] + {m}], holder[m := w]) <==> m in held[w]
  {
    var u, held', holder' := holder[m], held[t := held[t] - {m}][w := held[w] + {m}], holder[m := w];
    if m in held[w] {
      assert held[t] - {m} == held[t] && held[w] + {m} == held[w];
      assert held' == held && holder' == holder;
    } else {
      assert u in held' && m in held'[u] && holder'[m] != u;
    }
  }

  /** A lock freed by a thread that does not hold it. */
  lemma StrayFreed(mutexes: seq<Mutex>, held: map<Tid, set<nat>>, holder: map<nat, Tid>, m: nat, t: Tid, x: Mutex)
    requires OneHolder(mutexes, held, holder) && t in held && m !in held[t] && m < |mutexes| && mutexes[m].locked
    ensures !OneHolder(mutexes[m := x], held[t := held[t] - {m}], holder - {m})
  {
    var u, held', holder' := holder[m], held[t := held[t] - {m}], holder - {m};
    assert u in held' && m in held'[u] && m !in holder';
  }

  /** The running thread does not hold mutex 0; if it unlocks and locks it, two do. */
  ghost predicate BothHold(s: State) {
    && s.sched.current.Some? && 0 < |s.mutexes| && !Holding(s, 0)
    && var s' := LockStep(UnlockStep(s, 0), 0);
    Holds(s', 0, 0) && Holds(s', 1, 0)
  }

  /** A run at the end of which thread 1 unlocks the mutex that thread 0 holds, and locks
      it: both then hold it. */
  lemma TwoHolders()
    ensures exists run, acts :: IsRun(run, acts) && Inv(run[0]) && BothHold(run[|acts|])
  {
    var s0 := Initial([Spin(false)], 0, []);
    InitInv([Spin(false)], 0, []);
    hide Inv;
    var s1, s2, s3 := ThreadZeroRuns(s0);
    var s4, s5, s6 := ThenLock(s3);
    hide Next, Enabled, BothHold;
    var run, acts := Longer([s0], [], Spawn(0));
    hide IsRun;
    run, acts := Longer(run, acts, Spawn(1));
    run, acts := Longer(run, acts, Schedule);
    run, acts := Longer(run, acts, LockIt(0));
    run, acts := Longer(run, acts, Yield);
    run, acts := Longer(run, acts, Schedule);
  }

  lemma Longer(run: seq<State>, acts: seq<Action>, a: Action) returns (run': seq<State>, acts': seq<Action>)
    requires IsRun(run, acts) && Enabled(run[|acts|], a)
    ensures IsRun(run', acts') && run'[0] == run[0] && run'[|acts'|] == Next(run[|acts|], a)
  {
    hide Next, Enabled;
    run', acts' := run + [Next(run[|acts|], a)], acts + [a];
  }

  lemma ThreadZeroRuns(s: State) returns (s1: State, s2: State, s3: State)
    requires s.sched == Sched(None, []) && s.mutexes == [Spin(false)] && s.pcs == map[] && s.held == map[]
    ensures Enabled(s, Spawn(0)) && s1 == Next(s, Spawn(0))
    ensures Enabled(s1, Spawn(1)) && s2 == Next(s1, Spawn(1))
    ensures Enabled(s2, Schedule) && s3 == Next(s2, Schedule)
    ensures s3.sched == Sched(Some(0), [1]) && s3.mutexes == [Spin(false)]
    ensures s3.pcs == map[0 := User, 1 := User] && s3.held == map[0 := {}, 1 := {}]
  {
    s1 := Next(s, Spawn(0));
    s2 := Next(s1, Spawn(1));
    assert s2.sched.ready == [0, 1];
    s3 := Next(s2, Schedule);
  }

  lemma ThenLock(s: State) returns (s1: State, s2: State, s3: State)
    requires s.sched == Sched(Some(0), [1]) && s.mutexes == [Spin(false)]
    requires s.pcs == map[0 := User, 1 := User] && s.held == map[0 := {}, 1 := {}]
    ensures Enabled(s, LockIt(0)) && s1 == Next(s, LockIt(0))
    ensures Enabled(s1, Yield) && s2 == Next(s1, Yield)
    ensures Enabled(s2, Schedule) && s3 == Next(s2, Schedule) && BothHold(s3)
  {
    s1 := Next(s, LockIt(0));
    assert s1.held[0] == {0} && s1.mutexes == [Spin(true)];
    s2 := Next(s1, Yield);
    assert s2.sched.ready == [1, 0];
    s3 := Next(s2, Schedule);
    hide BothHold;
    StrayLock(s3);
  }

  lemma StrayLock(s: State)
    requires s.sched == Sched(Some(1), [0]) && s.mutexes == [Spin(true)] && s.held.Keys == {0, 1}
    requires s.held[0] == {0} && s.held[1] == {}
    ensures BothHold(s)
  {
  }

  /** The state before any thread runs: all mutexes free, all queues empty. */
  function Initial(mutexes: seq<Mutex>, conds: nat, sems: seq<nat>): State {
    State(Sched(None, []), mutexes, seq(conds, _ => []), seq(|sems|, i requires 0 <= i < |sems| => Sem(sems[i], [])),
          map[], map[], map[], map[], seq(|sems|, i requires 0 <= i < |sems| => History(sems[i], 0, 0)))
  }

  lemma InitInv(mutexes: seq<Mutex>, conds: nat, sems: seq<nat>)
    requires forall m :: 0 <= m < |mutexes| ==> mutexes[m] == Spin(false) || mutexes[m] == Blocking(false, [])
    ensures Inv(Initial(mutexes, conds, sems))
  {
  }
}
