/** What each step of the machine does, by the places of the threads, by who holds which
    mutex and by the counts of the semaphores; and the counts over whole runs. */
module SyncSteps {
  import opened Words
  import opened Primitives
  import opened SyncMachine

  /** Only mutex `m` may be locked or held differently. */
  ghost predicate OtherMutexes(s: State, s': State, m: nat) {
    && |s'.mutexes| == |s.mutexes|
    && (forall n :: 0 <= n < |s.mutexes| ==> s'.mutexes[n].Spin? == s.mutexes[n].Spin?)
    && (forall n :: 0 <= n < |s.mutexes| && n != m ==> s'.mutexes[n] == s.mutexes[n])
    && (forall u, n :: n != m ==> (Holds(s', u, n) <==> Holds(s, u, n)))
  }

  /** No other thread than `t` goes on anywhere else. */
  ghost predicate OtherPcs(s: State, s': State, t: Tid) {
    forall u :: u != t ==> (u in s'.pcs <==> u in s.pcs) && (u in s.pcs ==> s'.pcs[u] == s.pcs[u])
  }

  ghost predicate SameSems(s: State, s': State) {
    s'.sems == s.sems && s'.history == s.history
  }

  /** Nothing is locked, held or counted differently, and every thread goes on where it
      was. */
  ghost predicate SameObjects(s: State, s': State) {
    s'.mutexes == s.mutexes && s'.held == s.held && s'.pcs == s.pcs && SameSems(s, s')
  }

  /** The running thread `t` calls `lock` on `m`, or goes on inside it or inside `wait`. */
  ghost predicate Tries(s: State, a: Action, t: Tid, m: nat) {
    && s.sched.current == Some(t) && m < |s.mutexes|
    && (a == LockIt(m) || (a == GoOn && t in s.pcs && s.pcs[t] != User && s.pcs[t].m == m))
  }

  /** A free mutex is got at once, and the thread runs on in user code.  A held one is not
      got: the thread is then the last waiter of a blocking mutex, and for a spinning one
      it is ready, last of all, to try again. */
  ghost predicate Tried(s: State, s': State, t: Tid, m: nat)
    requires m < |s.mutexes| == |s'.mutexes|
  {
    && s'.mutexes[m].locked && t in s'.pcs
    && (!s.mutexes[m].locked ==>
          Stayed(s, s') && s'.pcs[t] == User && forall u :: Holds(s', u, m) <==> u == t)
    && (s.mutexes[m].locked ==> forall u :: Holds(s', u, m) <==> Holds(s, u, m))
    && (s.mutexes[m].locked && s.mutexes[m].Blocking? ==>
          Moved(s, s', t, Running, MutexQueue(m)) && s'.pcs[t] == User)
    && (s.mutexes[m].locked && s.mutexes[m].Spin? ==>
          Moved(s, s', t, Running, Ready) && s'.pcs[t] == Spinning(m))
  }

  lemma LockTried(s: State, m: nat)
    requires Exclusive(s) && s.sched.current.Some? && s.sched.current.value in s.pcs && m < |s.mutexes|
    ensures var s', t := LockStep(s, m), s.sched.current.value;
      OtherMutexes(s, s', m) && OtherPcs(s, s', t) && SameSems(s, s') && Tried(s, s', t, m)
  {
    LockHeld(s, m);
    LockMoved(s, m);
    hide Exclusive, Stayed, Moved, Holds;
  }

  lemma LockMoved(s: State, m: nat)
    requires s.sched.current.Some? && s.sched.current.value in s.pcs && m < |s.mutexes|
    ensures var s', t, x := LockStep(s, m), s.sched.current.value, s.mutexes[m];
      && (!x.locked ==> Stayed(s, s'))
      && (x.locked && x.Blocking? ==> Moved(s, s', t, Running, MutexQueue(m)))
      && (x.locked && x.Spin? ==> Moved(s, s', t, Running, Ready))
  {
  }

  lemma LockHeld(s: State, m: nat)
    requires Exclusive(s) && s.sched.current.Some? && m < |s.mutexes|
    ensures var s', t := LockStep(s, m), s.sched.current.value;
      && (forall u, n :: n != m ==> (Holds(s', u, n) <==> Holds(s, u, n)))
      && (!s.mutexes[m].locked ==> forall u :: Holds(s', u, m) <==> u == t)
      && (s.mutexes[m].locked ==> forall u :: Holds(s', u, m) <==> Holds(s, u, m))
  {
    forall u | !s.mutexes[m].locked ensures !Holds(s, u, m) {
    }
    hide Exclusive;
  }

  /** What a turn of `lock` does. */
  lemma LockIs(s: State, a: Action, t: Tid, m: nat)
    requires Inv(s) && Enabled(s, a) && Tries(s, a, t, m)
    ensures var s' := Next(s, a);
      OtherMutexes(s, s', m) && OtherPcs(s, s', t) && SameSems(s, s') && Tried(s, s', t, m)
  {
    LockTried(s, m);
    hide Inv, LockStep, OtherMutexes, OtherPcs, SameSems, Tried;
  }

  /** Without a waiter the mutex is free, and nobody holds it; otherwise its first waiter
      holds it, and nobody else.  So its holder has given it up. */
  ghost predicate GivenUp(s: State, s': State, m: nat)
    requires m < |s.mutexes| == |s'.mutexes|
  {
    var q := QueueOf(s, MutexQueue(m));
    if q == [] then !s'.mutexes[m].locked && forall u :: !Holds(s', u, m)
    else s'.mutexes[m].locked && forall u :: Holds(s', u, m) <==> u == q[0]
  }

  lemma UnlockGives(s: State, m: nat)
    requires Inv(s) && Holding(s, m)
    ensures OtherMutexes(s, UnlockStep(s, m), m) && GivenUp(s, UnlockStep(s, m), m)
  {
    UnlockExclusive(s, m);
    UnlockOthers(s, m);
    hide Placed, Counted;
    var s' := UnlockStep(s, m);
    if QueueOf(s, MutexQueue(m)) == [] {
      assert m !in s'.holder;
    } else {
      assert s'.holder[m] == s.mutexes[m].queue[0];
    }
    hide UnlockStep, OtherMutexes;
  }

  lemma UnlockOthers(s: State, m: nat)
    requires Holding(s, m)
    ensures OtherMutexes(s, UnlockStep(s, m), m)
  {
  }

  /** What an unlock by the holder does: a waiter, the first one, is ready, last of all;
      no other thread moves, and the thread runs on. */
  lemma UnlockIs(s: State, m: nat)
    requires Inv(s) && Enabled(s, UnlockIt(m))
    ensures var s', q := Next(s, UnlockIt(m)), QueueOf(s, MutexQueue(m));
      && OtherMutexes(s, s', m) && s'.pcs == s.pcs && SameSems(s, s')
      && GivenUp(s, s', m) && !Holds(s', s.sched.current.value, m)
      && if q == [] then Stayed(s, s') else Moved(s, s', q[0], MutexQueue(m), Ready)
  {
    UnlockGives(s, m);
    UnlockMoved(s, m);
    hide Inv, UnlockStep, OtherMutexes, Stayed, Moved, Holds;
    if QueueOf(s, MutexQueue(m)) != [] {
      NotFirst(s, m);
    }
  }

  lemma UnlockMoved(s: State, m: nat)
    requires s.sched.current.Some? && m < |s.mutexes|
    ensures var s', q := UnlockStep(s, m), QueueOf(s, MutexQueue(m));
      && (if q == [] then Stayed(s, s') else Moved(s, s', q[0], MutexQueue(m), Ready))
      && s'.pcs == s.pcs && SameSems(s, s')
  {
  }

  /** The places after a `wait`: the thread is the last waiter of the condition variable
      and nothing runs; the first waiter of the mutex is ready. */
  ghost predicate WaitPlaces(s: State, s': State, t: Tid, c: nat, m: nat) {
    var q := QueueOf(s, MutexQueue(m));
    && QueueOf(s', Running) == []
    && QueueOf(s', CondQueue(c)) == QueueOf(s, CondQueue(c)) + [t]
    && QueueOf(s', MutexQueue(m)) == (if q == [] then [] else q[1..])
    && QueueOf(s', Ready) == QueueOf(s, Ready) + (if q == [] then [] else [q[0]])
    && forall p :: p !in {Running, Ready, CondQueue(c), MutexQueue(m)} ==> QueueOf(s', p) == QueueOf(s, p)
  }

  lemma WaitGives(s: State, c: nat, m: nat)
    requires Inv(s) && Enabled(s, WaitOn(c, m))
    ensures var s', t := Next(s, WaitOn(c, m)), s.sched.current.value;
      && OtherMutexes(s, s', m) && GivenUp(s, s', m)
      && s'.pcs == s.pcs[t := Relock(m)] && SameSems(s, s')
  {
    UnlockGives(s, m);
    UnlockMoved(s, m);
    UnlockFrame(s, m);
    hide Inv, UnlockStep, OtherMutexes, GivenUp, Moved, Stayed, EnqueueStep, QueueOf;
    EnqueueSame(s, UnlockStep(s, m), c, m);
  }

  lemma WaitGoes(s: State, c: nat, m: nat)
    requires Enabled(s, WaitOn(c, m))
    ensures WaitPlaces(s, Next(s, WaitOn(c, m)), s.sched.current.value, c, m)
  {
    UnlockMoved(s, m);
    UnlockFrame(s, m);
    hide UnlockStep, Moved, Stayed, EnqueueStep, QueueOf, WaitPlaces;
    WaitMoved(s, UnlockStep(s, m), s.sched.current.value, c, m);
  }

  /** What `wait` does up to the switch: the mutex is given up as by an unlock, and has to
      be got again. */
  lemma WaitIs(s: State, c: nat, m: nat)
    requires Inv(s) && Enabled(s, WaitOn(c, m))
    ensures var s', t := Next(s, WaitOn(c, m)), s.sched.current.value;
      && OtherMutexes(s, s', m) && GivenUp(s, s', m) && !Holds(s', t, m)
      && OtherPcs(s, s', t) && t in s'.pcs && s'.pcs[t] == Relock(m) && SameSems(s, s')
      && WaitPlaces(s, s', t, c, m)
  {
    hide Inv, Next, OtherMutexes, WaitPlaces, Holds, SameSems;
    WaitGives(s, c, m);
    WaitGoes(s, c, m);
    if QueueOf(s, MutexQueue(m)) != [] {
      NotFirst(s, m);
    }
  }

  /** The running thread is not a waiter. */
  lemma NotFirst(s: State, m: nat)
    requires Inv(s) && s.sched.current.Some? && QueueOf(s, MutexQueue(m)) != []
    ensures QueueOf(s, MutexQueue(m))[0] != s.sched.current.value
  {
    WaiterFacts(s, m);
  }

  lemma EnqueueSame(s: State, u: State, c: nat, m: nat)
    requires u.sched.current.Some? && c < |u.conds| && m < |s.mutexes| == |u.mutexes|
    requires OtherMutexes(s, u, m) && GivenUp(s, u, m)
    ensures var s', t := EnqueueStep(u, c, m), u.sched.current.value;
      && s'.mutexes == u.mutexes && OtherMutexes(s, s', m) && GivenUp(s, s', m)
      && s'.pcs == u.pcs[t := Relock(m)] && SameSems(u, s') && (Holds(s', t, m) <==> Holds(u, t, m))
  {
    var s' := EnqueueStep(u, c, m);
    assert s'.held == u.held && s'.mutexes == u.mutexes;
    assert forall x, n :: Holds(s', x, n) <==> Holds(u, x, n);
    hide Holds, EnqueueStep;
  }

  lemma WaitMoved(s: State, u: State, t: Tid, c: nat, m: nat)
    requires u.sched.current == Some(t) && c < |u.conds|
    requires var q := QueueOf(s, MutexQueue(m));
      if q == [] then Stayed(s, u) else Moved(s, u, q[0], MutexQueue(m), Ready)
    ensures WaitPlaces(s, EnqueueStep(u, c, m), t, c, m)
  {
    var s' := EnqueueStep(u, c, m);
    forall p | p != Running ensures QueueOf(s', p) == (if p == CondQueue(c) then QueueOf(u, p) + [t] else QueueOf(u, p)) {
      EnqueueQueues(u, c, m, p);
    }
    assert QueueOf(s', Running) == [];
    hide QueueOf, EnqueueStep;
  }

  /** A signal makes the first waiter ready, last of all, and does nothing else. */
  lemma SignalIs(s: State, c: nat)
    requires Enabled(s, SignalIt(c))
    ensures var s', q := Next(s, SignalIt(c)), QueueOf(s, CondQueue(c));
      && SameObjects(s, s')
      && if q == [] then Stayed(s, s') else Moved(s, s', q[0], CondQueue(c), Ready)
  {
  }

  /** Only the count of semaphore `k` may differ, by `d`, and the numbers of ups and downs
      done to it. */
  ghost predicate CountMoves(s: State, s': State, k: nat, d: int, ups: nat, downs: nat) {
    && k < |s.sems| == |s'.sems| && |s.history| == |s'.history| == |s.sems|
    && s'.mutexes == s.mutexes && s'.held == s.held && s'.pcs == s.pcs
    && s'.sems[k].count == s.sems[k].count + d
    && s'.history[k].init == s.history[k].init
    && s'.history[k].ups == s.history[k].ups + ups && s'.history[k].downs == s.history[k].downs + downs
    && forall j :: 0 <= j < |s.sems| && j != k ==> s'.sems[j] == s.sems[j] && s'.history[j] == s.history[j]
  }

  /** An up counts one more.  If threads wait, the first one is ready, last of all. */
  lemma UpIs(s: State, k: nat)
    requires Inv(s) && Enabled(s, UpIt(k))
    ensures var s', q := Next(s, UpIt(k)), QueueOf(s, SemQueue(k));
      && CountMoves(s, s', k, 1, 1, 0) && (q == [] <==> s.sems[k].count >= 0)
      && if q == [] then Stayed(s, s') else Moved(s, s', q[0], SemQueue(k), Ready)
  {
    hide Placed, Exclusive;
    var q := QueueOf(s, SemQueue(k));
    assert q == [] <==> s.sems[k].count >= 0;
    hide Counted;
  }

  /** A down counts one less.  With a positive count the thread runs on and nothing moves;
      otherwise it is the last waiter, and nothing runs. */
  lemma DownIs(s: State, k: nat)
    requires Inv(s) && Enabled(s, DownIt(k))
    ensures var s', t := Next(s, DownIt(k)), s.sched.current.value;
      && CountMoves(s, s', k, -1, 0, 1)
      && (if s.sems[k].count > 0 then Stayed(s, s') else Moved(s, s', t, Running, SemQueue(k)))
      && (s.sems[k].count <= 0 ==> s'.sched.current == None)
  {
    hide Placed, Exclusive;
    assert |s.history| == |s.sems|;
    hide Counted;
  }

  /** Giving the processor up, ending, scheduling and starting a thread. */
  lemma SchedIs(s: State, a: Action)
    requires Inv(s) && Enabled(s, a) && (a.Yield? || a.Schedule?)
    ensures SameObjects(s, Next(s, a))
    ensures a == Yield ==> Moved(s, Next(s, a), s.sched.current.value, Running, Ready)
    ensures a == Schedule ==>
      if QueueOf(s, Ready) == [] then Stayed(s, Next(s, a))
      else Moved(s, Next(s, a), QueueOf(s, Ready)[0], Ready, Running)
  {
    hide Placed, Exclusive, Counted;
  }

  /** A thread that ends is nowhere any more, and keeps what it has locked. */
  lemma ExitIs(s: State)
    requires Inv(s) && Enabled(s, Exit)
    ensures var s', t := Next(s, Exit), s.sched.current.value;
      && s'.mutexes == s.mutexes && s'.held == s.held && SameSems(s, s')
      && OtherPcs(s, s', t) && t !in s'.pcs && t !in s'.place
      && QueueOf(s', Running) == [] && forall p :: p != Running ==> QueueOf(s', p) == QueueOf(s, p)
  {
    hide Placed, Exclusive, Counted;
  }

  /** A new thread is ready, last of all, in user code and without a mutex. */
  lemma SpawnIs(s: State, t: Tid)
    requires Inv(s) && Enabled(s, Spawn(t))
    ensures var s' := Next(s, Spawn(t));
      && s'.mutexes == s.mutexes && SameSems(s, s') && Joined(s, s', t)
      && OtherPcs(s, s', t) && t in s'.pcs && s'.pcs[t] == User
      && forall u, m :: Holds(s', u, m) <==> Holds(s, u, m)
  {
    SpawnFresh(s, t);
    hide Placed, Exclusive, Counted;
  }

  /** How many of the actions are ups, or downs, of semaphore `k`. */
  function Ups(acts: seq<Action>, k: nat): nat {
    if acts == [] then 0
    else Ups(acts[..|acts| - 1], k) + if acts[|acts| - 1] == UpIt(k) then 1 else 0
  }

  function Downs(acts: seq<Action>, k: nat): nat {
    if acts == [] then 0
    else Downs(acts[..|acts| - 1], k) + if acts[|acts| - 1] == DownIt(k) then 1 else 0
  }

  lemma NextCounts(s: State, a: Action, k: nat)
    requires Inv(s) && Enabled(s, a) && k < |s.sems|
    ensures CountsTo(s, Next(s, a), k, if a == UpIt(k) then 1 else 0, if a == DownIt(k) then 1 else 0)
  {
    hide Inv, Next, Moved, Stayed, QueueOf;
    HistoryLength(s);
    match a
    case UpIt(j) => UpIs(s, j);
    case DownIt(j) => DownIs(s, j);
    case _ => OtherCounted(s, a);
  }

  /** The count and the history of semaphore `k` have moved by these ups and downs. */
  ghost predicate CountsTo(s: State, s': State, k: nat, ups: nat, downs: nat) {
    && k < |s.sems| == |s'.sems| && |s.history| == |s'.history| == |s.sems|
    && s'.sems[k].count == s.sems[k].count + ups - downs
    && s'.history[k] == History(s.history[k].init, s.history[k].ups + ups, s.history[k].downs + downs)
  }

  /** Over every run, a semaphore counts its ups and downs, all of them and no others. */
  lemma {:induction false} RunCounts(run: seq<State>, acts: seq<Action>, k: nat)
    requires IsRun(run, acts) && Inv(run[0]) && k < |run[0].sems|
    ensures CountsTo(run[0], run[|acts|], k, Ups(acts, k), Downs(acts, k))
  {
    hide Inv, Enabled, Next;
    var n := |acts| - 1;
    if acts == [] {
      assert |run[0].history| == |run[0].sems| by { HistoryLength(run[0]); }
    } else {
      var was := run[..n + 1];
      assert was[n] == run[n] && was[0] == run[0];
      RunCounts(was, acts[..n], k);
      RunInv(was, acts[..n]);
      NextCounts(run[n], acts[n], k);
    }
  }

  lemma HistoryLength(s: State)
    requires Inv(s)
    ensures |s.history| == |s.sems|
  {
  }

  /** From the start, by the actions alone: the count is what it was made with, with the
      ups and less the downs; the downs that have returned do not outnumber the first two;
      and as many threads wait as the count is below zero. */
  lemma CountedFromStart(run: seq<State>, acts: seq<Action>, mutexes: seq<Mutex>, conds: nat, sems: seq<nat>, k: nat)
    requires forall m :: 0 <= m < |mutexes| ==> mutexes[m] == Spin(false) || mutexes[m] == Blocking(false, [])
    requires IsRun(run, acts) && run[0] == Initial(mutexes, conds, sems) && k < |sems|
    ensures var s := run[|acts|];
      && k < |s.sems| && s.sems[k].count == sems[k] + Ups(acts, k) - Downs(acts, k)
      && Downs(acts, k) - |s.sems[k].queue| <= sems[k] + Ups(acts, k)
      && |s.sems[k].queue| == if s.sems[k].count < 0 then -s.sems[k].count else 0
  {
    InitInv(mutexes, conds, sems);
    RunCounts(run, acts, k);
    RunInv(run, acts);
    assert Inv(run[|acts|]);
    hide Placed, Exclusive, IsRun;
  }

  /** Where a thread goes on there is a mutex. */
  ghost predicate PcsInside(s: State) {
    forall t :: t in s.pcs && s.pcs[t] != User ==> s.pcs[t].m < |s.mutexes|
  }

  lemma NextInside(s: State, a: Action)
    requires Inv(s) && Enabled(s, a) && PcsInside(s)
    ensures PcsInside(Next(s, a))
  {
    hide Inv, Next, Moved, Stayed, Joined, QueueOf, GivenUp, WaitPlaces, Holds, SameSems;
    match a
    case LockIt(m) => LockIs(s, a, s.sched.current.value, m);
    case GoOn => LockIs(s, a, s.sched.current.value, s.pcs[s.sched.current.value].m);
    case UnlockIt(m) => UnlockIs(s, m);
    case WaitOn(c, m) => WaitIs(s, c, m);
    case _ => OtherInside(s, a);
  }

  lemma OtherInside(s: State, a: Action)
    requires Inv(s) && Enabled(s, a) && PcsInside(s)
    requires !a.LockIt? && !a.GoOn? && !a.UnlockIt? && !a.WaitOn?
    ensures PcsInside(Next(s, a))
  {
    hide Inv, Next, Moved, Stayed, Joined, QueueOf, Holds, SameSems;
    match a
    case SignalIt(c) => SignalIs(s, c);
    case UpIt(k) => UpIs(s, k);
    case DownIt(k) => DownIs(s, k);
    case Exit => ExitIs(s);
    case Spawn(t) => SpawnIs(s, t);
    case _ => SchedIs(s, a);
  }

  /** In user code a thread may call anything on any object that is there, except that it
      unlocks, and waits with, what it holds. */
  ghost predicate MayCall(s: State) {
    && Enabled(s, Yield) && Enabled(s, Exit)
    && (forall m :: 0 <= m < |s.mutexes| ==>
          Enabled(s, LockIt(m)) && (Holds(s, s.sched.current.value, m) ==> Enabled(s, UnlockIt(m))))
    && (forall c :: 0 <= c < |s.conds| ==> Enabled(s, SignalIt(c)))
    && (forall c, m :: 0 <= c < |s.conds| && 0 <= m < |s.mutexes| && Holds(s, s.sched.current.value, m) ==>
          Enabled(s, WaitOn(c, m)))
    && (forall k :: 0 <= k < |s.sems| ==> Enabled(s, UpIt(k)) && Enabled(s, DownIt(k)))
  }

  /** What can happen next: if no thread runs, a step of the scheduler; otherwise the thread
      goes on inside `lock` or `wait`, or is in user code and may call anything. */
  ghost predicate CanGoOn(s: State) {
    match s.sched.current
    case None => Enabled(s, Schedule)
    case Some(t) => t in s.pcs && if s.pcs[t] == User then MayCall(s) else Enabled(s, GoOn)
  }

  /** Over every run from a state in which no thread is inside a call on a mutex that is not
      there, as at the start: no state is stuck. */
  lemma {:induction false} Progress(run: seq<State>, acts: seq<Action>)
    requires IsRun(run, acts) && Inv(run[0]) && PcsInside(run[0])
    ensures PcsInside(run[|acts|]) && CanGoOn(run[|acts|])
  {
    hide Inv, Next, PcsInside, Enabled, CanGoOn;
    var n := |acts| - 1;
    RunInv(run, acts);
    if n >= 0 {
      var was := run[..n + 1];
      assert was[n] == run[n] && was[0] == run[0];
      Progress(was, acts[..n]);
      NextInside(run[n], acts[n]);
    }
    HasStep(run[|acts|]);
  }

  lemma HasStep(s: State)
    requires Inv(s) && PcsInside(s)
    ensures CanGoOn(s)
  {
    if s.sched.current.Some? {
      RunningPlaced(s);
    }
    HistoryLength(s);
    hide Inv;
  }
}
