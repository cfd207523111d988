/** The round-robin scheduler of the third chapter's kernel (os3/src/task/mod.rs). */
module RoundRobin {
  import opened Words

  const MAX_APP_NUM: nat := 16

  datatype TaskStatus = UnInit | Ready | Running | Exited

  /** The tasks and the current one; the first `n` of the tasks are applications. */
  datatype State = State(n: nat, tasks: seq<TaskStatus>, current: nat)

  ghost predicate Shape(s: State) {
    0 < s.n <= |s.tasks| && s.current < s.n
  }

  /** Between switches: exactly the current task is running, and the other applications
      are ready or have exited. */
  ghost predicate Inv(s: State) {
    && Shape(s) && s.tasks[s.current] == Running
    && forall i :: 0 <= i < s.n && i != s.current ==> s.tasks[i] in {Ready, Exited}
  }

  /** How many tasks come before `id` in the cyclic order from the one after `c`. */
  function Distance(n: nat, c: nat, id: nat): (d: nat)
    requires c < n && id < n
    ensures d < n
  {
    if id > c then id - c - 1 else id + n - c - 1
  }

  lemma Multiples(q: int, n: nat)
    ensures (q <= 0 ==> q * n <= 0) && (q >= 2 ==> q * n >= 2 * n)
  {
  }

  lemma Cyclic(n: nat, k: nat)
    requires 0 < n <= k < 2 * n
    ensures k % n == k - n
  {
    var q, r := k / n, k % n;
    assert k == q * n + r && 0 <= r < n;
    Multiples(q, n);
    assert q == 1;
  }

  /** `id` is the ready task that comes first after the current one. */
  ghost predicate IsNext(s: State, id: nat)
    requires Shape(s)
  {
    && id < s.n && s.tasks[id] == Ready
    && forall j :: 0 <= j < s.n && s.tasks[j] == Ready ==> Distance(s.n, s.current, id) <= Distance(s.n, s.current, j)
  }

  /** The result of `find_next_task`. */
  ghost predicate Found(s: State, r: Option<nat>)
    requires Shape(s)
  {
    match r
    case Some(id) => IsNext(s, id)
    case None => forall j :: 0 <= j < s.n ==> s.tasks[j] != Ready
  }

  /** What the current task does at a switch: give the processor up or exit. */
  datatype Switch = Suspend | Exit

  /** The tasks once the current one has been marked. */
  function Marked(s: State, w: Switch): (r: State)
    requires Shape(s)
    ensures Shape(r)
  {
    s.(tasks := s.tasks[s.current := if w == Suspend then Ready else Exited])
  }

  /** The search from the task after the current one round to it. */
  function Search(s: State, k: nat): (r: Option<nat>)
    requires Shape(s) && k <= s.n
    decreases s.n - k
  {
    if k == s.n then None
    else
      var id := (s.current + 1 + k) % s.n;
      if s.tasks[id] == Ready then Some(id) else Search(s, k + 1)
  }

  function Dispatch(s: State, id: nat): State
    requires Shape(s) && id < s.n
  {
    s.(tasks := s.tasks[id := Running], current := id)
  }

  /** A switch; without a ready task the kernel panics. */
  function Next(s: State, w: Switch): (r: Option<State>)
    requires Shape(s)
    ensures r.Some? ==> Shape(r.value) && r.value.n == s.n && |r.value.tasks| == |s.tasks|
  {
    var m := Marked(s, w);
    SearchFinds(m, 0);
    var r := Search(m, 0);
    if r == None then None else Some(Dispatch(m, r.value))
  }

  lemma CyclicIs(s: State, k: nat)
    requires Shape(s) && k < s.n
    ensures var id := (s.current + 1 + k) % s.n; id < s.n && Distance(s.n, s.current, id) == k
  {
    if s.current + 1 + k >= s.n {
      Cyclic(s.n, s.current + 1 + k);
    }
  }

  lemma {:induction false} SearchFinds(s: State, k: nat)
    requires Shape(s) && k <= s.n
    requires forall j :: 0 <= j < s.n && Distance(s.n, s.current, j) < k ==> s.tasks[j] != Ready
    ensures Found(s, Search(s, k))
    decreases s.n - k
  {
    if k < s.n {
      CyclicIs(s, k);
      var id := (s.current + 1 + k) % s.n;
      forall j | 0 <= j < s.n && Distance(s.n, s.current, j) == k ensures j == id {
      }
      if s.tasks[id] != Ready {
        SearchFinds(s, k + 1);
      }
    }
  }

  /** The current task is exiting, and all others have. */
  ghost predicate AllDone(s: State, w: Switch)
    requires Shape(s)
  {
    w == Exit && forall i :: 0 <= i < s.n && i != s.current ==> s.tasks[i] == Exited
  }

  /** One switch keeps the invariant, and panics exactly when every application has exited.
      A task that suspends is ready afterwards, or runs again at once; one that exits has
      exited; exited tasks stay so and are not current; and only the old and the new
      current task change. */
  lemma NextKeeps(s: State, w: Switch)
    requires Inv(s)
    ensures match Next(s, w)
      case None => AllDone(s, w)
      case Some(t) =>
        && Inv(t) && !AllDone(s, w)
        && (forall i :: 0 <= i < s.n && s.tasks[i] == Exited ==> t.tasks[i] == Exited && t.current != i)
        && (w == Exit ==> t.tasks[s.current] == Exited && t.current != s.current)
        && (w == Suspend ==> t.current == s.current || t.tasks[s.current] == Ready)
        && forall i :: 0 <= i < |s.tasks| && i != s.current && i != t.current ==> t.tasks[i] == s.tasks[i]
  {
    var m := Marked(s, w);
    SearchFinds(m, 0);
    var r := Search(m, 0);
    hide Search, Distance;
    if r == None {
      assert m.tasks[s.current] != Ready;
      assert forall i :: 0 <= i < s.n && i != s.current ==> m.tasks[i] == s.tasks[i];
    } else {
      assert m.tasks[r.value] == Ready;
    }
  }

  /** What is dispatched: the task that comes first in the cyclic order among those that
      were ready and, last of all, the one that suspends. */
  lemma NextIs(s: State, w: Switch)
    requires Inv(s) && Next(s, w).Some?
    ensures var c := Next(s, w).value.current;
      && (if c == s.current then w == Suspend else s.tasks[c] == Ready)
      && forall j :: 0 <= j < s.n && s.tasks[j] == Ready ==>
           c != s.current && Distance(s.n, s.current, c) <= Distance(s.n, s.current, j)
  {
    var m := Marked(s, w);
    SearchFinds(m, 0);
    hide Search;
    forall j | 0 <= j < s.n && s.tasks[j] == Ready ensures m.tasks[j] == Ready {
    }
  }

  /** A ready task is dispatched by a switch, or gets closer and stays ready. */
  lemma NextCloser(s: State, w: Switch, id: nat)
    requires Inv(s) && id < s.n && s.tasks[id] == Ready
    ensures Next(s, w).Some?
    ensures var t := Next(s, w).value;
      t.current == id
      || (t.tasks[id] == Ready && Distance(s.n, t.current, id) < Distance(s.n, s.current, id))
  {
    var m := Marked(s, w);
    SearchFinds(m, 0);
    assert m.tasks[id] == Ready;
    hide Search;
  }

  /** The state after a sequence of switches. */
  function Run(s: State, ws: seq<Switch>): (r: Option<State>)
    requires Shape(s)
    ensures r.Some? ==> Shape(r.value) && r.value.n == s.n && |r.value.tasks| == |s.tasks|
  {
    if ws == [] then Some(s)
    else
      var t := Run(s, ws[..|ws| - 1]);
      if t == None then None else Next(t.value, ws[|ws| - 1])
  }

  /** Over every run: the invariant holds, and an exited task stays exited and never
      runs. */
  lemma {:induction false} RunKeeps(s: State, ws: seq<Switch>)
    requires Inv(s) && Run(s, ws).Some?
    ensures var t := Run(s, ws).value;
      && Inv(t)
      && forall i :: 0 <= i < s.n && s.tasks[i] == Exited ==> t.tasks[i] == Exited && t.current != i
  {
    hide Next;
    if ws != [] {
      var was := ws[..|ws| - 1];
      RunKeeps(s, was);
      NextKeeps(Run(s, was).value, ws[|ws| - 1]);
    }
  }

  /** `id` has been dispatched by one of the first `k` switches. */
  ghost predicate Dispatched(s: State, ws: seq<Switch>, id: nat, k: nat)
    requires Shape(s) && k <= |ws|
  {
    exists j :: 1 <= j <= k && Run(s, ws[..j]).Some? && Run(s, ws[..j]).value.current == id
  }

  /** Until a ready task is dispatched, every switch brings it closer. */
  lemma {:induction false} Waits(s: State, ws: seq<Switch>, id: nat, k: nat)
    requires Inv(s) && id < s.n && s.tasks[id] == Ready && k <= |ws|
    ensures Dispatched(s, ws, id, k)
      || (Run(s, ws[..k]).Some?
          && Run(s, ws[..k]).value.tasks[id] == Ready
          && Distance(s.n, Run(s, ws[..k]).value.current, id) + k <= Distance(s.n, s.current, id))
  {
    if k != 0 {
      Waits(s, ws, id, k - 1);
      if !Dispatched(s, ws, id, k - 1) {
        hide Next;
        assert ws[..k][..k - 1] == ws[..k - 1];
        var t := Run(s, ws[..k - 1]).value;
        RunKeeps(s, ws[..k - 1]);
        NextCloser(t, ws[k - 1], id);
        assert Run(s, ws[..k]) == Next(t, ws[k - 1]);
      }
    }
  }

  /** Fairness: a ready task runs within as many switches as there are applications,
      whatever the running tasks do. */
  lemma Fair(s: State, ws: seq<Switch>, id: nat)
    requires Inv(s) && id < s.n && s.tasks[id] == Ready && |ws| >= s.n
    ensures Dispatched(s, ws, id, s.n)
  {
    Waits(s, ws, id, s.n);
  }

  /** Whenever `id` runs, it gives the processor up and does not exit. */
  ghost predicate OnlySuspends(s: State, ws: seq<Switch>, id: nat)
    requires Shape(s)
  {
    forall j :: 0 <= j < |ws| && Run(s, ws[..j]).Some? && Run(s, ws[..j]).value.current == id ==> ws[j] == Suspend
  }

  lemma NextAlive(s: State, w: Switch, id: nat)
    requires Inv(s) && id < s.n && s.tasks[id] != Exited && (s.current == id ==> w == Suspend)
    ensures Next(s, w).Some? && Next(s, w).value.tasks[id] != Exited
  {
    NextKeeps(s, w);
    hide Next;
  }

  /** Over every run: such a task never exits, and as long as it has not, nothing panics. */
  lemma {:induction false} RunAlive(s: State, ws: seq<Switch>, id: nat)
    requires Inv(s) && id < s.n && s.tasks[id] != Exited && OnlySuspends(s, ws, id)
    ensures Run(s, ws).Some? && Run(s, ws).value.tasks[id] != Exited
  {
    hide Next;
    if ws != [] {
      var n := |ws| - 1;
      assert forall j :: 0 <= j < n ==> ws[..n][..j] == ws[..j] && ws[..n][j] == ws[j];
      RunAlive(s, ws[..n], id);
      RunKeeps(s, ws[..n]);
      NextAlive(Run(s, ws[..n]).value, ws[n], id);
    }
  }

  /** `id` has been dispatched by one of the `m` switches after the first `k`. */
  ghost predicate DispatchedAfter(s: State, ws: seq<Switch>, id: nat, k: nat, m: nat)
    requires Shape(s) && k + m <= |ws|
  {
    exists j :: k < j <= k + m && Run(s, ws[..j]).Some? && Run(s, ws[..j]).value.current == id
  }

  lemma RunNextSwitch(s: State, ws: seq<Switch>, k: nat)
    requires Shape(s) && k < |ws| && Run(s, ws[..k]).Some?
    ensures Run(s, ws[..k + 1]) == Next(Run(s, ws[..k]).value, ws[k])
  {
    assert ws[..k + 1][..k] == ws[..k];
  }

  /** A task that has just suspended runs again, or is ready and as close as any. */
  lemma SuspendedClose(s: State)
    requires Inv(s)
    ensures Next(s, Suspend).Some?
    ensures var t := Next(s, Suspend).value;
      t.current == s.current || (t.tasks[s.current] == Ready && Distance(s.n, t.current, s.current) + 1 < s.n)
  {
    NextKeeps(s, Suspend);
    hide Next;
  }

  ghost predicate WaitsAt(s: State, ws: seq<Switch>, id: nat, k: nat, m: nat)
    requires Shape(s) && k + m <= |ws| && id < s.n
  {
    && Run(s, ws[..k + m]).Some?
    && Run(s, ws[..k + m]).value.tasks[id] == Ready
    && Distance(s.n, Run(s, ws[..k + m]).value.current, id) + m < s.n
  }

  lemma {:induction false} WaitsAgain(s: State, ws: seq<Switch>, id: nat, k: nat, m: nat)
    requires Inv(s) && id < s.n && k + m <= |ws| && 0 < m
    requires Run(s, ws[..k]).Some? && Run(s, ws[..k]).value.current == id && ws[k] == Suspend
    ensures DispatchedAfter(s, ws, id, k, m) || WaitsAt(s, ws, id, k, m)
    decreases m
  {
    hide Next, Run, Distance;
    if m == 1 {
      RunKeeps(s, ws[..k]);
      SuspendedClose(Run(s, ws[..k]).value);
      RunNextSwitch(s, ws, k);
    } else {
      WaitsAgain(s, ws, id, k, m - 1);
      if !DispatchedAfter(s, ws, id, k, m - 1) {
        var n := k + m - 1;
        RunKeeps(s, ws[..n]);
        NextCloser(Run(s, ws[..n]).value, ws[n], id);
        RunNextSwitch(s, ws, n);
      }
    }
  }

  /** After each of its suspensions a task runs again within as many switches as there are
      applications. */
  lemma FairAgain(s: State, ws: seq<Switch>, id: nat, k: nat)
    requires Inv(s) && id < s.n && k + s.n <= |ws|
    requires Run(s, ws[..k]).Some? && Run(s, ws[..k]).value.current == id && ws[k] == Suspend
    ensures DispatchedAfter(s, ws, id, k, s.n)
  {
    hide Run;
    WaitsAgain(s, ws, id, k, s.n);
  }

  class TaskManager {
    const numApp: nat
    var tasks: array<TaskStatus>
    var current: nat

    ghost predicate Valid()
      reads this, tasks
    {
      Shape(Abs())
    }

    ghost function Abs(): State
      reads this, tasks
    {
      State(numApp, tasks[..], current)
    }

    /** The applications are ready, and the first is the current one. */
    constructor (n: nat)
      requires 0 < n <= MAX_APP_NUM
      ensures Valid() && fresh(tasks)
      ensures Abs() == State(n, seq(16, i => if i < n then Ready else UnInit), 0)
    {
      numApp, current := n, 0;
      var ts := new TaskStatus[16](_ => UnInit);
      var i := 0;
      while i < n
        invariant 0 <= i <= n
        invariant forall k :: 0 <= k < 16 ==> ts[k] == if k < i then Ready else UnInit
      {
        ts[i] := Ready;
        i := i + 1;
      }
      tasks := ts;
    }

    /** From here on exactly one task is running between switches. */
    method RunFirstTask()
      requires Valid() && current == 0 && forall i :: 0 <= i < numApp ==> tasks[i] == Ready
      modifies tasks
      ensures Inv(Abs()) && tasks[..] == old(tasks[..])[0 := Running]
    {
      tasks[0] := Running;
    }

    method MarkCurrentSuspended()
      requires Valid()
      modifies tasks
      ensures Abs() == Marked(old(Abs()), Suspend)
    {
      tasks[current] := Ready;
    }

    method MarkCurrentExited()
      requires Valid()
      modifies tasks
      ensures Abs() == Marked(old(Abs()), Exit)
    {
      tasks[current] := Exited;
    }

    method FindNextTask() returns (r: Option<nat>)
      requires Valid()
      ensures r == Search(Abs(), 0)
    {
      var id := current + 1;
      while id < current + numApp + 1
        invariant current + 1 <= id <= current + numApp + 1
        invariant Search(Abs(), 0) == Search(Abs(), id - current - 1)
      {
        if tasks[id % numApp] == Ready {
          return Some(id % numApp);
        }
        id := id + 1;
      }
      r := None;
    }

    /** False for the panic. */
    method RunNextTask() returns (ok: bool)
      requires Valid()
      modifies this, tasks
      ensures Valid() && tasks == old(tasks)
      ensures match Search(old(Abs()), 0)
        case None => !ok && Abs() == old(Abs())
        case Some(id) => ok && id < numApp && Abs() == Dispatch(old(Abs()), id)
    {
      SearchFinds(Abs(), 0);
      var next := FindNextTask();
      if next == None {
        return false;
      }
      tasks[next.value] := Running;
      current := next.value;
      ok := true;
    }

    method SuspendCurrentAndRunNext() returns (ok: bool)
      requires Inv(Abs())
      modifies this, tasks
      ensures ok && Next(old(Abs()), Suspend) == Some(Abs()) && Inv(Abs()) && tasks == old(tasks)
    {
      NextKeeps(Abs(), Suspend);
      MarkCurrentSuspended();
      ok := RunNextTask();
    }

    method ExitCurrentAndRunNext() returns (ok: bool)
      requires Inv(Abs())
      modifies this, tasks
      ensures Valid() && tasks == old(tasks) && (ok <==> !AllDone(old(Abs()), Exit))
      ensures ok ==> Next(old(Abs()), Exit) == Some(Abs()) && Inv(Abs())
      ensures !ok ==> forall i :: 0 <= i < numApp ==> tasks[i] == Exited
    {
      NextKeeps(Abs(), Exit);
      MarkCurrentExited();
      ok := RunNextTask();
    }

    method Exec(w: Switch) returns (ok: bool)
      requires Inv(Abs())
      modifies this, tasks
      ensures Valid() && tasks == old(tasks)
      ensures match Next(old(Abs()), w)
        case None => !ok && forall i :: 0 <= i < numApp ==> tasks[i] == Exited
        case Some(s) => ok && Abs() == s && Inv(s)
    {
      NextKeeps(Abs(), w);
      if w == Suspend {
        ok := SuspendCurrentAndRunNext();
      } else {
        ok := ExitCurrentAndRunNext();
      }
    }

    /** Any sequence of switches: the tasks go through the run, so that all that is proved of
        runs, fairness too, holds of them.  The panic comes exactly where the run ends, and
        then every application has exited. */
    method ExecAll(ws: seq<Switch>) returns (n: nat, ok: bool)
      requires Inv(Abs())
      modifies this, tasks
      ensures n <= |ws| && (ok <==> Run(old(Abs()), ws).Some?)
      ensures ok ==> n == |ws| && Run(old(Abs()), ws) == Some(Abs()) && Inv(Abs())
      ensures !ok ==> n < |ws| && Run(old(Abs()), ws[..n]).Some? && Run(old(Abs()), ws[..n + 1]) == None
      ensures !ok ==> numApp <= tasks.Length && forall i :: 0 <= i < numApp ==> tasks[i] == Exited
    {
      hide Next, Search;
      n := 0;
      while n < |ws|
        invariant 0 <= n <= |ws| && tasks == old(tasks)
        invariant Run(old(Abs()), ws[..n]) == Some(Abs()) && Inv(Abs())
      {
        assert ws[..n + 1][..n] == ws[..n];
        ok := Exec(ws[n]);
        if !ok {
          RunStops(old(Abs()), ws, n + 1);
          return;
        }
        n := n + 1;
      }
      assert ws[..n] == ws;
      ok := true;
    }
  }

  /** A run that has ended stays ended. */
  lemma {:induction false} RunStops(s: State, ws: seq<Switch>, n: nat)
    requires Shape(s) && n <= |ws| && Run(s, ws[..n]) == None
    ensures Run(s, ws) == None
  {
    if n == |ws| {
      assert ws[..n] == ws;
    } else {
      assert ws[..|ws| - 1][..n] == ws[..n];
      RunStops(s, ws[..|ws| - 1], n);
    }
  }
}
