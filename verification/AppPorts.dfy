/** The app manager as a state machine at the granularity of its two locks: who holds each
    port in every interleaving of starts, stops and crash restarts, and how many crash
    restarts an app can get. */
module AppPorts {
  import opened Options

  /** The ports `lo` up to but not including `hi`, and the limit on crash restarts. */
  datatype Config = Config(lo: nat, hi: nat, maxRestarts: nat)

  datatype Process = Process(port: nat, restarts: nat)

  /** A call in flight, between two of its lock sections. */
  datatype Task =
    | Starting(app: string, port: nat)                  // a start that has its port
    | Counted(app: string, count: nat, runs: bool)      // a crash restart, counted; `runs`: there is a command
    | Cleared(app: string, count: nat, runs: bool)      // its old process is stopped
    | Restarting(app: string, count: nat, port: nat)    // it has its new port
    | Placed(app: string, count: nat)                   // the new process is in, its count not yet restored

  /** The stop that holds the process lock, and the restart it belongs to, if any. */
  datatype Stop = Stop(port: nat, restart: Option<nat>)

  datatype Holder = App(app: string) | Call(id: nat) | Stopper
  datatype Owner = By(holder: Holder) | Nobody

  /** `owner` and `attempts` record history for the proofs: whom each allocated port serves, and
      the crash restarts counted since an app's last explicit start. */
  datatype State = State(
    processes: map<string, Process>,
    allocatedPorts: set<nat>,
    tasks: map<nat, Task>,
    stopping: Option<Stop>,
    owner: map<nat, Owner>,
    attempts: map<string, nat>)

  const INITIAL := State(map[], {}, map[], None, map[], map[])

  datatype Action =
    | StartAllocate(id: nat, app: string)
    | SpawnFails(id: nat)
    | Insert(id: nat)
    | Take(app: string)                                          // stop_app and remove_process
    | Free
    | CountCrash(id: nat, app: string, due: bool, runs: bool)    // `due`: the policy asks for a restart
    | CrashTake(id: nat)
    | CrashAllocate(id: nat)
    | Restore(id: nat)

  /** The least port of the range that is not allocated. */
  function FirstFree(lo: nat, hi: nat, allocatedPorts: set<nat>): (r: Option<nat>)
    ensures r.Some? ==> lo <= r.value < hi && r.value !in allocatedPorts
    ensures r.Some? ==> forall q :: lo <= q < r.value ==> q in allocatedPorts
    ensures r.None? ==> forall q :: lo <= q < hi ==> q in allocatedPorts
    decreases hi - lo
  {
    if lo >= hi then None
    else if lo !in allocatedPorts then Some(lo)
    else FirstFree(lo + 1, hi, allocatedPorts)
  }

  function Attempts(s: State, app: string): nat { if app in s.attempts then s.attempts[app] else 0 }

  // ---- Steps --------------------------------------------------------------

  function Allocated(s: State, id: nat, task: Task, port: nat): State {
    s.(tasks := s.tasks[id := task],
       allocatedPorts := s.allocatedPorts + {port},
       owner := s.owner[port := By(Call(id))])
  }

  /** The call ends and its port stays marked. */
  function Leaked(s: State, id: nat, port: nat): State {
    s.(tasks := s.tasks - {id}, owner := s.owner[port := Nobody])
  }

  /** A process replaces whatever the app had; a replaced process keeps its port marked. */
  function Put(s: State, app: string, port: nat): State {
    var owner := if app in s.processes then s.owner[s.processes[app].port := Nobody] else s.owner;
    s.(processes := s.processes[app := Process(port, 0)], owner := owner[port := By(App(app))])
  }

  function Taken(s: State, app: string, restart: Option<nat>): State
    requires app in s.processes
  {
    var port := s.processes[app].port;
    s.(processes := s.processes - {app}, stopping := Some(Stop(port, restart)), owner := s.owner[port := By(Stopper)])
  }

  function MarkCleared(s: State, id: nat): State {
    if id in s.tasks && s.tasks[id].Counted?
    then s.(tasks := s.tasks[id := Cleared(s.tasks[id].app, s.tasks[id].count, s.tasks[id].runs)])
    else s
  }

  function Freed(s: State, stop: Stop): State {
    var t := s.(stopping := None, allocatedPorts := s.allocatedPorts - {stop.port}, owner := s.owner - {stop.port});
    if stop.restart.Some? then MarkCleared(t, stop.restart.value) else t
  }

  function Counts(c: Config, s: State, id: nat, app: string, due: bool, runs: bool): State {
    if app in s.processes && s.processes[app].restarts < c.maxRestarts && due then
      var p := s.processes[app].(restarts := s.processes[app].restarts + 1);
      s.(processes := s.processes[app := p],
         tasks := s.tasks[id := Counted(app, p.restarts, runs)],
         attempts := s.attempts[app := Attempts(s, app) + 1])
    else s
  }

  function CrashAllocates(c: Config, s: State, id: nat, task: Task): State
    requires task.Cleared?
  {
    var port := FirstFree(c.lo, c.hi, s.allocatedPorts);
    if task.runs && port.Some? then Allocated(s, id, Restarting(task.app, task.count, port.value), port.value)
    else s.(tasks := s.tasks - {id})
  }

  function Restores(s: State, id: nat, task: Task): State
    requires task.Placed?
  {
    var t := s.(tasks := s.tasks - {id});
    if task.app in t.processes
    then t.(processes := t.processes[task.app := t.processes[task.app].(restarts := task.count)])
    else t
  }

  function Inserts(s: State, id: nat, task: Task): State {
    match task
    case Starting(app, port) =>
      var t := Put(s, app, port);
      t.(tasks := t.tasks - {id}, attempts := t.attempts[app := 0])
    case Restarting(app, count, port) =>
      var t := Put(s, app, port);
      t.(tasks := t.tasks[id := Placed(app, count)])
    case _ => s
  }

  /** One lock section; an action that is not due, or whose lock is taken, does nothing. */
  function Step(c: Config, s: State, a: Action): State {
    match a
    case StartAllocate(id, app) =>
      var port := FirstFree(c.lo, c.hi, s.allocatedPorts);
      if id !in s.tasks && port.Some? then Allocated(s, id, Starting(app, port.value), port.value) else s
    case SpawnFails(id) =>
      if id in s.tasks && (s.tasks[id].Starting? || s.tasks[id].Restarting?) then Leaked(s, id, s.tasks[id].port) else s
    case Insert(id) =>
      if s.stopping.None? && id in s.tasks then Inserts(s, id, s.tasks[id]) else s
    case Take(app) =>
      if s.stopping.None? && app in s.processes then Taken(s, app, None) else s
    case Free =>
      if s.stopping.Some? then Freed(s, s.stopping.value) else s
    case CountCrash(id, app, due, runs) =>
      if s.stopping.None? && id !in s.tasks then Counts(c, s, id, app, due, runs) else s
    case CrashTake(id) =>
      if s.stopping.None? && id in s.tasks && s.tasks[id].Counted? then
        if s.tasks[id].app in s.processes then Taken(s, s.tasks[id].app, Some(id)) else MarkCleared(s, id)
      else s
    case CrashAllocate(id) =>
      if id in s.tasks && s.tasks[id].Cleared? then CrashAllocates(c, s, id, s.tasks[id]) else s
    case Restore(id) =>
      if s.stopping.None? && id in s.tasks && s.tasks[id].Placed? then Restores(s, id, s.tasks[id]) else s
  }

  function Run(c: Config, s: State, actions: seq<Action>): State {
    if actions == [] then s else Step(c, Run(c, s, actions[..|actions| - 1]), actions[|actions| - 1])
  }

  // ---- Ports --------------------------------------------------------------

  /** The port a holder has: a managed process, a start or restart in flight, a stop in progress. */
  function PortOf(s: State, h: Holder): Option<nat> {
    match h
    case App(app) => if app in s.processes then Some(s.processes[app].port) else None
    case Call(id) =>
      if id in s.tasks && (s.tasks[id].Starting? || s.tasks[id].Restarting?) then Some(s.tasks[id].port) else None
    case Stopper => if s.stopping.Some? then Some(s.stopping.value.port) else None
  }

  predicate OwnedBy(s: State, p: nat, h: Holder) { p in s.owner && s.owner[p] == By(h) }

  /** Allocated ports lie in the range, and `owner` says exactly who holds each. */
  ghost predicate PortInv(c: Config, s: State) {
    && s.owner.Keys == s.allocatedPorts
    && (forall p :: p in s.allocatedPorts ==> c.lo <= p < c.hi)
    && (forall h :: PortOf(s, h).Some? ==> OwnedBy(s, PortOf(s, h).value, h))
    && (forall p: nat, h :: OwnedBy(s, p, h) ==> PortOf(s, h) == Some(p))
  }

  lemma {:induction false} AllocatedKeeps(c: Config, s: State, id: nat, task: Task, port: nat)
    requires PortInv(c, s) && c.lo <= port < c.hi && port !in s.allocatedPorts
    requires (task.Starting? || task.Restarting?) && task.port == port && PortOf(s, Call(id)).None?
    ensures PortInv(c, Allocated(s, id, task, port))
  {
    var t := Allocated(s, id, task, port);
    forall h ensures PortOf(t, h) == if h == Call(id) then Some(port) else PortOf(s, h) {}
    forall p: nat, h | OwnedBy(t, p, h) ensures PortOf(t, h) == Some(p) {
      assert p != port ==> OwnedBy(s, p, h);
    }
  }

  /** A port passes to another holder, or to nobody. */
  lemma {:induction false} Reassigned(c: Config, s: State, t: State, p: nat, to: Owner)
    requires PortInv(c, s) && p in s.allocatedPorts
    requires t.allocatedPorts == s.allocatedPorts && t.owner == s.owner[p := to]
    requires to.By? ==> PortOf(s, to.holder).None?
    requires forall h ::
      PortOf(t, h) == if to == By(h) then Some(p) else if OwnedBy(s, p, h) then None else PortOf(s, h)
    ensures PortInv(c, t)
  {
    forall q: nat, h | OwnedBy(t, q, h) ensures PortOf(t, h) == Some(q) {
      assert q != p ==> OwnedBy(s, q, h);
    }
    forall h | PortOf(t, h).Some? ensures OwnedBy(t, PortOf(t, h).value, h) {
      assert to != By(h) ==> OwnedBy(s, PortOf(t, h).value, h);
    }
  }

  /** No port changes hands. */
  lemma {:induction false} Unmoved(c: Config, s: State, t: State)
    requires PortInv(c, s) && t.allocatedPorts == s.allocatedPorts && t.owner == s.owner
    requires forall h :: PortOf(t, h) == PortOf(s, h)
    ensures PortInv(c, t)
  {
    forall q: nat, h | OwnedBy(t, q, h) ensures PortOf(t, h) == Some(q) {
      assert OwnedBy(s, q, h);
    }
  }

  lemma {:induction false} LeakedKeeps(c: Config, s: State, id: nat)
    requires PortInv(c, s) && id in s.tasks && (s.tasks[id].Starting? || s.tasks[id].Restarting?)
    ensures PortInv(c, Leaked(s, id, s.tasks[id].port))
  {
    var p := s.tasks[id].port;
    assert PortOf(s, Call(id)) == Some(p);
    Reassigned(c, s, Leaked(s, id, p), p, Nobody);
  }

  lemma {:induction false} TakenKeeps(c: Config, s: State, app: string, restart: Option<nat>)
    requires PortInv(c, s) && app in s.processes && s.stopping.None?
    ensures PortInv(c, Taken(s, app, restart))
  {
    var p := s.processes[app].port;
    assert PortOf(s, App(app)) == Some(p);
    assert PortOf(s, Stopper).None?;
    Reassigned(c, s, Taken(s, app, restart), p, By(Stopper));
  }

  /** The replaced process first loses its port, then the new one brings its own. */
  lemma {:induction false} InsertsKeeps(c: Config, s: State, id: nat)
    requires PortInv(c, s) && id in s.tasks
    ensures PortInv(c, Inserts(s, id, s.tasks[id]))
  {
    var task := s.tasks[id];
    if task.Starting? || task.Restarting? {
      var app, p := task.app, task.port;
      assert PortOf(s, Call(id)) == Some(p);
      var vacant := s;
      if app in s.processes {
        var q := s.processes[app].port;
        assert PortOf(s, App(app)) == Some(q);
        vacant := s.(processes := s.processes - {app}, owner := s.owner[q := Nobody]);
        Reassigned(c, s, vacant, q, Nobody);
      }
      assert PortOf(vacant, App(app)).None? && PortOf(vacant, Call(id)) == Some(p);
      Reassigned(c, vacant, Inserts(s, id, task), p, By(App(app)));
    }
  }

  lemma {:induction false} FreedKeeps(c: Config, s: State)
    requires PortInv(c, s) && s.stopping.Some?
    ensures PortInv(c, Freed(s, s.stopping.value))
  {
    var t := Freed(s, s.stopping.value);
    var p := s.stopping.value.port;
    assert PortOf(s, Stopper) == Some(p);
    forall h ensures PortOf(t, h) == if h == Stopper then None else PortOf(s, h) {}
    forall q: nat, h | OwnedBy(t, q, h) ensures PortOf(t, h) == Some(q) {
      assert OwnedBy(s, q, h);
    }
    forall h | PortOf(t, h).Some? ensures OwnedBy(t, PortOf(t, h).value, h) {
      assert OwnedBy(s, PortOf(s, h).value, h);
    }
  }

  lemma {:induction false} StartKeepsPorts(c: Config, s: State, a: Action)
    requires PortInv(c, s) && (a.StartAllocate? || a.SpawnFails? || a.Insert? || a.Take? || a.Free?)
    ensures PortInv(c, Step(c, s, a))
  {
    match a
    case StartAllocate(id, app) =>
      var port := FirstFree(c.lo, c.hi, s.allocatedPorts);
      if id !in s.tasks && port.Some? {
        AllocatedKeeps(c, s, id, Starting(app, port.value), port.value);
      }
    case SpawnFails(id) =>
      if id in s.tasks && (s.tasks[id].Starting? || s.tasks[id].Restarting?) {
        LeakedKeeps(c, s, id);
      }
    case Insert(id) =>
      if id in s.tasks {
        InsertsKeeps(c, s, id);
      }
    case Take(app) =>
      if s.stopping.None? && app in s.processes {
        TakenKeeps(c, s, app, None);
      }
    case Free =>
      if s.stopping.Some? {
        FreedKeeps(c, s);
      }
  }

  lemma {:induction false} CrashKeepsPorts(c: Config, s: State, a: Action)
    requires PortInv(c, s) && (a.CountCrash? || a.CrashTake? || a.CrashAllocate? || a.Restore?)
    ensures PortInv(c, Step(c, s, a))
  {
    match a
    case CountCrash(id, app, due, runs) =>
      Unmoved(c, s, Step(c, s, a));
    case CrashTake(id) =>
      if s.stopping.None? && id in s.tasks && s.tasks[id].Counted? {
        if s.tasks[id].app in s.processes {
          TakenKeeps(c, s, s.tasks[id].app, Some(id));
        } else {
          Unmoved(c, s, Step(c, s, a));
        }
      }
    case CrashAllocate(id) =>
      if id in s.tasks && s.tasks[id].Cleared? {
        var port := FirstFree(c.lo, c.hi, s.allocatedPorts);
        if s.tasks[id].runs && port.Some? {
          AllocatedKeeps(c, s, id, Restarting(s.tasks[id].app, s.tasks[id].count, port.value), port.value);
        } else {
          Unmoved(c, s, Step(c, s, a));
        }
      }
    case Restore(id) =>
      Unmoved(c, s, Step(c, s, a));
  }

  lemma {:induction false} StepKeepsPorts(c: Config, s: State, a: Action)
    requires PortInv(c, s)
    ensures PortInv(c, Step(c, s, a))
  {
    if a.CountCrash? || a.CrashTake? || a.CrashAllocate? || a.Restore? {
      CrashKeepsPorts(c, s, a);
    } else {
      StartKeepsPorts(c, s, a);
    }
  }

  lemma {:induction false} RunKeepsPorts(c: Config, actions: seq<Action>)
    ensures PortInv(c, Run(c, INITIAL, actions))
  {
    if actions != [] {
      RunKeepsPorts(c, actions[..|actions| - 1]);
      StepKeepsPorts(c, Run(c, INITIAL, actions[..|actions| - 1]), actions[|actions| - 1]);
    }
  }

  /** In every interleaving, holders have distinct ports of the range, all marked allocated. */
  lemma {:induction false} PortSafety(c: Config, actions: seq<Action>, h: Holder, k: Holder)
    ensures var s := Run(c, INITIAL, actions);
            && (PortOf(s, h).Some? ==> c.lo <= PortOf(s, h).value < c.hi && PortOf(s, h).value in s.allocatedPorts)
            && (PortOf(s, h).Some? && PortOf(s, h) == PortOf(s, k) ==> h == k)
  {
    RunKeepsPorts(c, actions);
    var s := Run(c, INITIAL, actions);
    assert PortOf(s, h).Some? ==> OwnedBy(s, PortOf(s, h).value, h);
    assert PortOf(s, k).Some? ==> OwnedBy(s, PortOf(s, k).value, k);
  }

  /** A port that leaves the allocated set is held by nobody afterwards. */
  lemma {:induction false} FreedIsUnheld(c: Config, actions: seq<Action>, a: Action, p: nat, h: Holder)
    requires p in Run(c, INITIAL, actions).allocatedPorts && p !in Step(c, Run(c, INITIAL, actions), a).allocatedPorts
    ensures PortOf(Step(c, Run(c, INITIAL, actions), a), h) != Some(p)
  {
    var s := Run(c, INITIAL, actions);
    RunKeepsPorts(c, actions);
    StepKeepsPorts(c, s, a);
    assert PortOf(Step(c, s, a), h).Some? ==> OwnedBy(Step(c, s, a), PortOf(Step(c, s, a), h).value, h);
  }

  // ---- Leaks --------------------------------------------------------------

  predicate IsLeaked(s: State, p: nat) { p in s.owner && s.owner[p] == Nobody }

  /** The allocated set is the held ports and the leaked ones, never both. */
  lemma {:induction false} AllocatedIsHeldOrLeaked(c: Config, actions: seq<Action>, p: nat)
    ensures var s := Run(c, INITIAL, actions);
            && (p in s.allocatedPorts <==> IsLeaked(s, p) || exists h :: PortOf(s, h) == Some(p))
            && (IsLeaked(s, p) ==> forall h :: PortOf(s, h) != Some(p))
  {
    var s := Run(c, INITIAL, actions);
    RunKeepsPorts(c, actions);
    if p in s.owner && s.owner[p].By? {
      assert OwnedBy(s, p, s.owner[p].holder);
    }
  }

  /** The call `id` puts a process in now, where `app` still has the one on port `p`. */
  predicate Replaces(s: State, id: nat, p: nat) {
    && s.stopping.None? && id in s.tasks && (s.tasks[id].Starting? || s.tasks[id].Restarting?)
    && PortOf(s, App(s.tasks[id].app)) == Some(p)
  }

  /** A step leaks a port exactly when its spawn failed, or its app's process is replaced. */
  predicate Leaks(s: State, a: Action, p: nat) {
    (a.SpawnFails? && PortOf(s, Call(a.id)) == Some(p)) || (a.Insert? && Replaces(s, a.id, p))
  }

  lemma {:induction false} StepLeaks(c: Config, s: State, a: Action, p: nat)
    requires PortInv(c, s)
    ensures IsLeaked(Step(c, s, a), p) <==> IsLeaked(s, p) || Leaks(s, a, p)
  {
    if a.SpawnFails? {
      SpawnLeaks(c, s, a, p);
    } else if a.Insert? {
      InsertLeaks(c, s, a, p);
    } else {
      OthersLeakNothing(c, s, a, p);
    }
  }

  lemma {:induction false} Holds(c: Config, s: State, h: Holder)
    requires PortInv(c, s)
    ensures PortOf(s, h).Some? ==> PortOf(s, h).value in s.owner && s.owner[PortOf(s, h).value] == By(h)
  {
    assert PortOf(s, h).Some? ==> OwnedBy(s, PortOf(s, h).value, h);
  }

  lemma {:induction false} SpawnLeaks(c: Config, s: State, a: Action, p: nat)
    requires PortInv(c, s) && a.SpawnFails?
    ensures IsLeaked(Step(c, s, a), p) <==> IsLeaked(s, p) || Leaks(s, a, p)
  {
    Holds(c, s, Call(a.id));
  }

  lemma {:induction false} InsertLeaks(c: Config, s: State, a: Action, p: nat)
    requires PortInv(c, s) && a.Insert?
    ensures IsLeaked(Step(c, s, a), p) <==> IsLeaked(s, p) || Leaks(s, a, p)
  {
    Holds(c, s, Call(a.id));
    if a.id in s.tasks { Holds(c, s, App(s.tasks[a.id].app)); }
  }

  lemma {:induction false} OthersLeakNothing(c: Config, s: State, a: Action, p: nat)
    requires PortInv(c, s) && !a.SpawnFails? && !a.Insert?
    ensures IsLeaked(Step(c, s, a), p) <==> IsLeaked(s, p)
  {
    Holds(c, s, Stopper);
    if a.Take? {
      Holds(c, s, App(a.app));
    } else if a.CrashTake? && a.id in s.tasks {
      Holds(c, s, App(s.tasks[a.id].app));
    }
  }

  /** A leaked port is lost for the life of the manager. */
  lemma {:induction false} LeakIsForever(c: Config, s: State, actions: seq<Action>, p: nat)
    requires PortInv(c, s) && IsLeaked(s, p)
    ensures PortInv(c, Run(c, s, actions)) && IsLeaked(Run(c, s, actions), p)
  {
    if actions != [] {
      var t := Run(c, s, actions[..|actions| - 1]);
      LeakIsForever(c, s, actions[..|actions| - 1], p);
      StepKeepsPorts(c, t, actions[|actions| - 1]);
      StepLeaks(c, t, actions[|actions| - 1], p);
    }
  }

  lemma {:induction false} StartAllocates(c: Config, app: string)
    requires c.lo < c.hi
    ensures Step(c, INITIAL, StartAllocate(0, app))
            == State(map[], {c.lo}, map[0 := Starting(app, c.lo)], None, map[c.lo := By(Call(0))], map[])
  {
    assert FirstFree(c.lo, c.hi, {}) == Some(c.lo);
  }

  /** From the very first start: when its spawn fails, no run after it gets that port back. */
  lemma {:induction false} FailedSpawnLeaks(c: Config, app: string, actions: seq<Action>)
    requires c.lo < c.hi
    ensures var s := Step(c, Step(c, INITIAL, StartAllocate(0, app)), SpawnFails(0));
      IsLeaked(Run(c, s, actions), c.lo) && c.lo in Run(c, s, actions).allocatedPorts
  {
    var started := Step(c, INITIAL, StartAllocate(0, app));
    var s := Step(c, started, SpawnFails(0));
    StartAllocates(c, app);
    StepKeepsPorts(c, INITIAL, StartAllocate(0, app));
    StepKeepsPorts(c, started, SpawnFails(0));
    StepLeaks(c, started, SpawnFails(0), c.lo);
    LeakIsForever(c, s, actions, c.lo);
  }
}
