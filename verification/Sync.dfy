/** The blocking primitives of os8-ref (src/sync, src/task): one processor, a FIFO
    ready queue, mutexes, condition variables and semaphores.  Code between two
    context switches is atomic, so each call up to a switch is one function. */
module Primitives {
  import opened Words

  type Tid = nat

  /** The processor and the task manager. */
  datatype Sched = Sched(current: Option<Tid>, ready: seq<Tid>)

  function AddTask(s: Sched, t: Tid): Sched {
    s.(ready := s.ready + [t])
  }

  /** `block_current_and_run_next`, up to the switch to the idle flow. */
  function BlockCurrent(s: Sched): Sched {
    s.(current := None)
  }

  /** `suspend_current_and_run_next`, up to the switch. */
  function SuspendCurrent(s: Sched): Sched {
    if s.current.Some? then Sched(None, s.ready + [s.current.value]) else s
  }

  /** One turn of `run_tasks`. */
  function Dispatch(s: Sched): Sched {
    if s.current.None? && s.ready != [] then Sched(Some(s.ready[0]), s.ready[1..]) else s
  }

  datatype Mutex = Spin(locked: bool) | Blocking(locked: bool, queue: seq<Tid>)

  /** What became of an attempt to lock. */
  datatype Attempt = Got | Queued | Suspended

  /** `lock` by the current task, up to success or to the switch. */
  function Lock(m: Mutex, s: Sched): (Mutex, Sched, Attempt)
    requires s.current.Some?
  {
    if !m.locked then (m.(locked := true), s, Got)
    else match m
      case Spin(_) => (m, SuspendCurrent(s), Suspended)
      case Blocking(_, q) => (Blocking(true, q + [s.current.value]), BlockCurrent(s), Queued)
  }

  /** `unlock`: the first waiter of a blocking mutex is given the lock. */
  function Unlock(m: Mutex, s: Sched): (Mutex, Sched, Option<Tid>) {
    match m
    case Spin(_) => (Spin(false), s, None)
    case Blocking(l, q) =>
      if q != [] then (Blocking(l, q[1..]), AddTask(s, q[0]), Some(q[0])) else (Blocking(false, q), s, None)
  }

  function Signal(q: seq<Tid>, s: Sched): (seq<Tid>, Sched) {
    if q != [] then (q[1..], AddTask(s, q[0])) else (q, s)
  }

  datatype Sem = Sem(count: int, queue: seq<Tid>)

  function Up(m: Sem, s: Sched): (Sem, Sched) {
    if m.count + 1 <= 0 && m.queue != [] then (Sem(m.count + 1, m.queue[1..]), AddTask(s, m.queue[0]))
    else (m.(count := m.count + 1), s)
  }

  function Down(m: Sem, s: Sched): (Sem, Sched)
    requires s.current.Some?
  {
    if m.count - 1 < 0 then (Sem(m.count - 1, m.queue + [s.current.value]), BlockCurrent(s))
    else (m.(count := m.count - 1), s)
  }

  class Processor {
    var current: Option<Tid>
    var ready: seq<Tid>

    function Val(): Sched
      reads this
    {
      Sched(current, ready)
    }

    constructor ()
      ensures Val() == Sched(None, [])
    {
      current, ready := None, [];
    }

    method Add(t: Tid)
      modifies this
      ensures Val() == AddTask(old(Val()), t)
    {
      ready := ready + [t];
    }

    method Block()
      requires current.Some?
      modifies this
      ensures Val() == BlockCurrent(old(Val()))
    {
      current := None;
    }

    method Suspend()
      requires current.Some?
      modifies this
      ensures Val() == SuspendCurrent(old(Val()))
    {
      var t := current.value;
      current := None;
      Add(t);
    }

    /** One turn of the scheduling loop; true if a task was dispatched. */
    method RunTask() returns (found: bool)
      requires current.None?
      modifies this
      ensures Val() == Dispatch(old(Val())) && found == (old(ready) != [])
    {
      if ready == [] {
        return false;
      }
      current := Some(ready[0]);
      ready := ready[1..];
      found := true;
    }
  }

  class MutexSpin {
    var locked: bool

    constructor ()
      ensures !locked
    {
      locked := false;
    }

    /** One turn of the spinning loop, up to the suspension. */
    method TryLock(p: Processor) returns (r: Attempt)
      requires p.current.Some?
      modifies this, p
      ensures (Spin(locked), p.Val(), r) == Lock(Spin(old(locked)), old(p.Val()))
    {
      if locked {
        p.Suspend();
        r := Suspended;
      } else {
        locked := true;
        r := Got;
      }
    }

    method Release(p: Processor)
      modifies this
      ensures (Spin(locked), p.Val(), None) == Unlock(Spin(old(locked)), old(p.Val()))
    {
      locked := false;
    }
  }

  class MutexBlocking {
    var locked: bool
    var queue: seq<Tid>

    constructor ()
      ensures !locked && queue == []
    {
      locked, queue := false, [];
    }

    method Acquire(p: Processor) returns (r: Attempt)
      requires p.current.Some?
      modifies this, p
      ensures (Blocking(locked, queue), p.Val(), r) == Lock(Blocking(old(locked), old(queue)), old(p.Val()))
    {
      if locked {
        queue := queue + [p.current.value];
        p.Block();
        r := Queued;
      } else {
        locked := true;
        r := Got;
      }
    }

    /** The mutex must be locked (the source asserts it). */
    method Release(p: Processor)
      requires locked
      modifies this, p
      ensures (Blocking(locked, queue), p.Val(), if old(queue) != [] then Some(old(queue)[0]) else None) ==
        Unlock(Blocking(old(locked), old(queue)), old(p.Val()))
    {
      if queue != [] {
        var t := queue[0];
        queue := queue[1..];
        p.Add(t);
      } else {
        locked := false;
      }
    }
  }

  class Condvar {
    var queue: seq<Tid>

    constructor ()
      ensures queue == []
    {
      queue := [];
    }

    method Notify(p: Processor)
      modifies this, p
      ensures (queue, p.Val()) == Signal(old(queue), old(p.Val()))
    {
      if queue != [] {
        var t := queue[0];
        queue := queue[1..];
        p.Add(t);
      }
    }

    /** `wait` up to the switch: release the mutex, queue up, block. */
    method WaitBlocking(m: MutexBlocking, p: Processor)
      requires p.current.Some? && m.locked
      modifies this, m, p
      ensures var (m', s, w) := Unlock(Blocking(old(m.locked), old(m.queue)), old(p.Val()));
        Blocking(m.locked, m.queue) == m' && p.Val() == BlockCurrent(s) && queue == old(queue) + [old(p.current).value]
    {
      m.Release(p);
      queue := queue + [p.current.value];
      p.Block();
    }

    /** The same with a spinning mutex. */
    method WaitSpin(m: MutexSpin, p: Processor)
      requires p.current.Some?
      modifies this, m, p
      ensures var (m', s, w) := Unlock(Spin(old(m.locked)), old(p.Val()));
        Spin(m.locked) == m' && p.Val() == BlockCurrent(s) && queue == old(queue) + [old(p.current).value]
    {
      m.Release(p);
      queue := queue + [p.current.value];
      p.Block();
    }
  }

  class Semaphore {
    var count: int
    var queue: seq<Tid>

    constructor (res: nat)
      ensures count == res && queue == []
    {
      count, queue := res, [];
    }

    method Release(p: Processor)
      modifies this, p
      ensures (Sem(count, queue), p.Val()) == Up(Sem(old(count), old(queue)), old(p.Val()))
    {
      count := count + 1;
      if count <= 0 {
        if queue != [] {
          var t := queue[0];
          queue := queue[1..];
          p.Add(t);
        }
      }
    }

    method Acquire(p: Processor)
      requires p.current.Some?
      modifies this, p
      ensures (Sem(count, queue), p.Val()) == Down(Sem(old(count), old(queue)), old(p.Val()))
    {
      count := count - 1;
      if count < 0 {
        queue := queue + [p.current.value];
        p.Block();
      }
    }
  }
}
