/** The threads of a process on the kernel's own objects: the processor, the mutexes, the
    condition variables and the semaphores.  Whatever the threads do, the objects go
    through the states of the machine. */
module Threads {
  import opened Words
  import opened Primitives
  import opened SyncMachine

  /** A mutex of either kind. */
  datatype MutexRef = SpinRef(spin: MutexSpin) | BlockingRef(blocking: MutexBlocking)

  function ObjectOf(r: MutexRef): object {
    match r
    case SpinRef(x) => x
    case BlockingRef(x) => x
  }

  ghost function MutexOf(r: MutexRef): Mutex
    reads ObjectOf(r)
  {
    match r
    case SpinRef(x) => Spin(x.locked)
    case BlockingRef(x) => Blocking(x.locked, x.queue)
  }

  /** What the steps do to the objects. */
  lemma LockObjects(s: State, m: nat)
    requires s.sched.current.Some? && m < |s.mutexes|
    ensures var (x, sched', r) := Lock(s.mutexes[m], s.sched);
      var s' := LockStep(s, m);
      && s'.mutexes == s.mutexes[m := x] && s'.sched == sched' && s'.conds == s.conds && s'.sems == s.sems
      && s'.pcs == s.pcs[s.sched.current.value := if r == Suspended then Spinning(m) else User]
  {
  }

  lemma UnlockObjects(s: State, m: nat)
    requires s.sched.current.Some? && m < |s.mutexes|
    ensures var (x, sched', _) := Unlock(s.mutexes[m], s.sched);
      var s' := UnlockStep(s, m);
      && s'.mutexes == s.mutexes[m := x] && s'.sched == sched' && s'.conds == s.conds && s'.sems == s.sems
      && s'.pcs == s.pcs
  {
  }

  lemma WaitObjects(s: State, c: nat, m: nat)
    requires Enabled(s, WaitOn(c, m))
    ensures var (x, sched', _) := Unlock(s.mutexes[m], s.sched);
      var t, s' := s.sched.current.value, Next(s, WaitOn(c, m));
      && s'.mutexes == s.mutexes[m := x] && s'.sched == BlockCurrent(sched') && s'.sems == s.sems
      && s'.conds == s.conds[c := s.conds[c] + [t]] && s'.pcs == s.pcs[t := Relock(m)]
  {
    UnlockObjects(s, m);
    UnlockFrame(s, m);
    hide UnlockStep, Unlock;
  }

  lemma SchedObjects(s: State, a: Action)
    requires Enabled(s, a) && (a.Yield? || a.Exit? || a.Schedule? || a.Spawn?)
    ensures var s' := Next(s, a);
      && s'.mutexes == s.mutexes && s'.conds == s.conds && s'.sems == s.sems
      && (a == Yield ==> s'.sched == SuspendCurrent(s.sched) && s'.pcs == s.pcs)
      && (a == Exit ==> s'.sched == BlockCurrent(s.sched) && s'.pcs == s.pcs - {s.sched.current.value})
      && (a == Schedule ==> s'.sched == Dispatch(s.sched) && s'.pcs == s.pcs)
      && (a.Spawn? ==> s'.sched == AddTask(s.sched, a.t) && s'.pcs == s.pcs[a.t := User])
  {
  }

  class ThreadTable {
    const p: Processor
    const mutexes: seq<MutexRef>
    const conds: seq<Condvar>
    const sems: seq<Semaphore>
    var pcs: map<Tid, Pc>
    ghost var value: State

    ghost function Objects(): set<object> {
      {p} + (set i | 0 <= i < |mutexes| :: ObjectOf(mutexes[i])) + (set c | c in conds) + (set k | k in sems)
    }

    /** No object stands for two. */
    ghost predicate Distinct() {
      && (forall i, j :: 0 <= i < j < |mutexes| ==> ObjectOf(mutexes[i]) != ObjectOf(mutexes[j]))
      && (forall i, j :: 0 <= i < j < |conds| ==> conds[i] != conds[j])
      && (forall i, j :: 0 <= i < j < |sems| ==> sems[i] != sems[j])
    }

    /** The objects are in the state `value`. */
    ghost predicate Agrees()
      reads this, Objects()
    {
      && value.sched == p.Val() && value.pcs == pcs
      && |value.mutexes| == |mutexes| && |value.conds| == |conds| && |value.sems| == |sems|
      && (forall i :: 0 <= i < |mutexes| ==> MutexOf(mutexes[i]) == value.mutexes[i])
      && (forall i :: 0 <= i < |conds| ==> conds[i].queue == value.conds[i])
      && (forall i :: 0 <= i < |sems| ==> Sem(sems[i].count, sems[i].queue) == value.sems[i])
    }

    ghost predicate Valid()
      reads this, Objects()
    {
      Distinct() && Agrees() && Inv(value)
    }

    /** All mutexes free, all queues empty, no thread. */
    constructor (p: Processor, mutexes: seq<MutexRef>, conds: seq<Condvar>, sems: seq<Semaphore>,
                 ghost ms: seq<Mutex>, ghost counts: seq<nat>)
      requires p.Val() == Sched(None, []) && |ms| == |mutexes| && |counts| == |sems|
      requires forall i :: 0 <= i < |ms| ==> ms[i] == MutexOf(mutexes[i]) && (ms[i] == Spin(false) || ms[i] == Blocking(false, []))
      requires forall i :: 0 <= i < |conds| ==> conds[i].queue == []
      requires forall i :: 0 <= i < |sems| ==> sems[i].count == counts[i] && sems[i].queue == []
      requires forall i, j :: 0 <= i < j < |mutexes| ==> ObjectOf(mutexes[i]) != ObjectOf(mutexes[j])
      requires forall i, j :: 0 <= i < j < |conds| ==> conds[i] != conds[j]
      requires forall i, j :: 0 <= i < j < |sems| ==> sems[i] != sems[j]
      ensures Valid() && value == Initial(ms, |conds|, counts)
    {
      this.p, this.mutexes, this.conds, this.sems := p, mutexes, conds, sems;
      pcs, value := map[], Initial(ms, |conds|, counts);
      InitInv(ms, |conds|, counts);
      hide Inv;
    }

    /** `lock` by the running thread, up to success or the switch. */
    method DoLock(m: nat)
      requires Distinct() && Agrees() && m < |mutexes| && p.current.Some?
      modifies this`pcs, this`value, p, ObjectOf(mutexes[m])
      ensures Agrees() && value == LockStep(old(value), m)
    {
      LockObjects(value, m);
      hide LockStep, Lock;
      var t := p.current.value;
      var r := TakeLock(m);
      assert forall i :: 0 <= i < |mutexes| && i != m ==> MutexOf(mutexes[i]) == value.mutexes[i];
      pcs := pcs[t := if r == Suspended then Spinning(m) else User];
      value := LockStep(value, m);
    }

    /** The lock attempt on a mutex of either kind. */
    method TakeLock(m: nat) returns (r: Attempt)
      requires m < |mutexes| && p.current.Some?
      modifies p, ObjectOf(mutexes[m])
      ensures (MutexOf(mutexes[m]), p.Val(), r) == Lock(old(MutexOf(mutexes[m])), old(p.Val()))
    {
      match mutexes[m] {
        case SpinRef(x) => r := x.TryLock(p);
        case BlockingRef(x) => r := x.Acquire(p);
      }
    }

    /** `unlock`; a blocking mutex must be locked. */
    method DoUnlock(m: nat)
      requires Distinct() && Agrees() && m < |mutexes| && p.current.Some? && value.mutexes[m].locked
      modifies this`value, p, ObjectOf(mutexes[m])
      ensures Agrees() && value == UnlockStep(old(value), m)
    {
      UnlockObjects(value, m);
      hide UnlockStep, Unlock;
      match mutexes[m] {
        case SpinRef(x) => x.Release(p);
        case BlockingRef(x) => x.Release(p);
      }
      assert forall i :: 0 <= i < |mutexes| && i != m ==> MutexOf(mutexes[i]) == value.mutexes[i];
      value := UnlockStep(value, m);
    }

    method DoSignal(c: nat)
      requires Distinct() && Agrees() && Enabled(value, SignalIt(c))
      modifies this`value, p, conds[c]
      ensures Agrees() && value == Next(old(value), SignalIt(c))
    {
      conds[c].Notify(p);
      value := Next(value, SignalIt(c));
    }

    /** `wait` up to the switch. */
    method DoWait(c: nat, m: nat)
      requires Distinct() && Agrees() && Enabled(value, WaitOn(c, m)) && value.mutexes[m].locked
      modifies this`pcs, this`value, p, conds[c], ObjectOf(mutexes[m])
      ensures Agrees() && value == Next(old(value), WaitOn(c, m))
    {
      WaitObjects(value, c, m);
      hide Next, Unlock;
      var t := p.current.value;
      match mutexes[m] {
        case SpinRef(x) => conds[c].WaitSpin(x, p);
        case BlockingRef(x) => conds[c].WaitBlocking(x, p);
      }
      assert forall i :: 0 <= i < |mutexes| && i != m ==> MutexOf(mutexes[i]) == value.mutexes[i];
      pcs := pcs[t := Relock(m)];
      value := Next(value, WaitOn(c, m));
    }

    method DoUp(k: nat)
      requires Distinct() && Agrees() && Enabled(value, UpIt(k))
      modifies this`value, p, sems[k]
      ensures Agrees() && value == Next(old(value), UpIt(k))
    {
      sems[k].Release(p);
      value := Next(value, UpIt(k));
    }

    method DoDown(k: nat)
      requires Distinct() && Agrees() && Enabled(value, DownIt(k))
      modifies this`value, p, sems[k]
      ensures Agrees() && value == Next(old(value), DownIt(k))
    {
      sems[k].Acquire(p);
      value := Next(value, DownIt(k));
    }

    method DoYield()
      requires Distinct() && Agrees() && Enabled(value, Yield)
      modifies this`value, p
      ensures Agrees() && value == Next(old(value), Yield)
    {
      SchedObjects(value, Yield);
      hide Next;
      p.Suspend();
      value := Next(value, Yield);
    }

    method DoExit()
      requires Distinct() && Agrees() && Enabled(value, Exit)
      modifies this`pcs, this`value, p
      ensures Agrees() && value == Next(old(value), Exit)
    {
      SchedObjects(value, Exit);
      hide Next;
      pcs := pcs - {p.current.value};
      p.Block();
      value := Next(value, Exit);
    }

    method DoSchedule()
      requires Distinct() && Agrees() && Enabled(value, Schedule)
      modifies this`value, p
      ensures Agrees() && value == Next(old(value), Schedule)
    {
      SchedObjects(value, Schedule);
      hide Next;
      var _ := p.RunTask();
      value := Next(value, Schedule);
    }

    method DoSpawn(t: Tid)
      requires Distinct() && Agrees() && Enabled(value, Spawn(t))
      modifies this`pcs, this`value, p
      ensures Agrees() && value == Next(old(value), Spawn(t))
    {
      SchedObjects(value, Spawn(t));
      hide Next;
      p.Add(t);
      pcs := pcs[t := User];
      value := Next(value, Spawn(t));
    }

    /** One step of one thread, or of the scheduler. */
    method Exec(a: Action)
      requires Valid() && Enabled(value, a)
      modifies this, Objects()
      ensures Valid() && value == Next(old(value), a)
    {
      hide Placed, Exclusive, Counted, LockStep, UnlockStep;
      NextInv(value, a);
      if a.UnlockIt? || a.WaitOn? {
        UnlockExclusive(value, a.m);
      }
      hide Inv;
      match a {
        case LockIt(m) => DoLock(m);
        case GoOn => DoLock(pcs[p.current.value].m);
        case UnlockIt(m) => DoUnlock(m);
        case SignalIt(c) => DoSignal(c);
        case WaitOn(c, m) => DoWait(c, m);
        case UpIt(k) => DoUp(k);
        case DownIt(k) => DoDown(k);
        case Yield => DoYield();
        case Exit => DoExit();
        case Schedule => DoSchedule();
        case Spawn(t) => DoSpawn(t);
      }
    }

    /** Along every run of the machine the objects are in its states, so that all that is
        proved of the machine holds of them. */
    method ExecAll(acts: seq<Action>, ghost run: seq<State>)
      requires Valid() && IsRun(run, acts) && run[0] == value
      modifies this, Objects()
      ensures Valid() && value == run[|acts|]
    {
      hide Inv, Next, Enabled;
      var n := 0;
      while n < |acts|
        invariant 0 <= n <= |acts| && Valid() && value == run[n]
      {
        Exec(acts[n]);
        n := n + 1;
      }
    }
  }
}
