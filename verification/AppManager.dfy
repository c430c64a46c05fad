/** The app manager object; each call, undisturbed, is its lock sections in order. */
module AppManagers {
  import opened Options
  import opened AppPorts

  /** A start: a port, then the process or a failed spawn. */
  function StartSteps(c: Config, s: State, app: string, spawned: bool): State {
    Step(c, Step(c, s, StartAllocate(0, app)), if spawned then Insert(0) else SpawnFails(0))
  }

  function StopSteps(c: Config, s: State, app: string): State { Step(c, Step(c, s, Take(app)), Free) }

  /** A crash restart up to its stop. */
  function ClearSteps(c: Config, s: State, app: string, due: bool, runs: bool): State {
    Step(c, Step(c, Step(c, s, CountCrash(0, app, due, runs)), CrashTake(0)), Free)
  }

  function RestartSteps(c: Config, s: State, app: string, due: bool, runs: bool, spawned: bool): State {
    PlaceSteps(c, ClearSteps(c, s, app, due, runs), spawned)
  }

  predicate Quiet(s: State) { s.tasks == map[] && s.stopping.None? }

  // ---- Whole calls --------------------------------------------------------

  function Stopped(s: State, app: string): State {
    if app in s.processes then
      var port := s.processes[app].port;
      s.(processes := s.processes - {app}, allocatedPorts := s.allocatedPorts - {port}, owner := s.owner - {port})
    else s
  }

  function Started(c: Config, s: State, app: string, spawned: bool): State {
    var port := FirstFree(c.lo, c.hi, s.allocatedPorts);
    if port.None? then s
    else
      var marked := s.(allocatedPorts := s.allocatedPorts + {port.value});
      if spawned then Put(marked, app, port.value).(attempts := s.attempts[app := 0])
      else marked.(owner := s.owner[port.value := Nobody])
  }

  predicate Due(c: Config, s: State, app: string, due: bool) {
    app in s.processes && s.processes[app].restarts < c.maxRestarts && due
  }

  /** What a restart makes of a start: the count carries over and the attempts are not reset. */
  function Recounted(s: State, app: string, count: nat, attempts: map<string, nat>): State {
    if app in s.processes
    then s.(processes := s.processes[app := s.processes[app].(restarts := count)], attempts := attempts)
    else s
  }

  /** A crash restart: nothing unless it is due; otherwise a stop, then a start that keeps the
      count, or no start when there is no command. */
  function Restarted(c: Config, s: State, app: string, due: bool, runs: bool, spawned: bool): State {
    if !Due(c, s, app, due) then s
    else
      var stopped := Stopped(s, app).(attempts := s.attempts[app := Attempts(s, app) + 1]);
      if !runs then stopped
      else Recounted(Started(c, stopped, app, spawned), app, s.processes[app].restarts + 1, stopped.attempts)
  }

  lemma {:induction false} StopIs(c: Config, s: State, app: string)
    requires Quiet(s)
    ensures StopSteps(c, s, app) == Stopped(s, app)
  {
    if app in s.processes {
      var port := s.processes[app].port;
      assert s.owner[port := By(Stopper)] - {port} == s.owner - {port};
    }
  }

  lemma {:induction false} StartIs(c: Config, s: State, app: string, spawned: bool)
    requires PortInv(c, s) && Quiet(s)
    ensures StartSteps(c, s, app, spawned) == Started(c, s, app, spawned)
  {
    var port := FirstFree(c.lo, c.hi, s.allocatedPorts);
    if port.Some? {
      var p := port.value;
      var found := Allocated(s, 0, Starting(app, p), p);
      assert Step(c, s, StartAllocate(0, app)) == found;
      assert found.tasks - {0} == s.tasks;
      assert s.owner[p := By(Call(0))][p := Nobody] == s.owner[p := Nobody];
      PutRelabels(c, s, app, p, 0);
    }
  }

  /** Putting a process in overwrites the note that its call held the port. */
  lemma {:induction false} PutRelabels(c: Config, s: State, app: string, p: nat, id: nat)
    requires PortInv(c, s) && p !in s.allocatedPorts
    ensures Put(s.(owner := s.owner[p := By(Call(id))]), app, p) == Put(s, app, p)
  {
    if app in s.processes {
      assert PortOf(s, App(app)).Some?;
      var q := s.processes[app].port;
      assert s.owner[p := By(Call(id))][q := Nobody][p := By(App(app))] == s.owner[q := Nobody][p := By(App(app))];
    } else {
      assert s.owner[p := By(Call(id))][p := By(App(app))] == s.owner[p := By(App(app))];
    }
  }

  /** The state in which a due restart has counted itself and stopped the old process. */
  lemma {:induction false} ClearIs(c: Config, s: State, app: string, due: bool, runs: bool)
    requires Quiet(s)
    ensures ClearSteps(c, s, app, due, runs)
            == if !Due(c, s, app, due) then s
               else Stopped(s, app).(
                 tasks := map[0 := Cleared(app, s.processes[app].restarts + 1, runs)],
                 attempts := s.attempts[app := Attempts(s, app) + 1])
  {
    if Due(c, s, app, due) {
      var t := Step(c, s, CountCrash(0, app, due, runs));
      var port := s.processes[app].port;
      assert t.processes - {app} == s.processes - {app};
      assert s.owner[port := By(Stopper)] - {port} == s.owner - {port};
    }
  }

  function PlaceSteps(c: Config, s: State, spawned: bool): State {
    Step(c, Step(c, Step(c, s, CrashAllocate(0)), if spawned then Insert(0) else SpawnFails(0)), Restore(0))
  }

  lemma {:induction false} PlaceIs(c: Config, s: State, app: string, count: nat, p: nat)
    requires Quiet(s) && app !in s.processes && FirstFree(c.lo, c.hi, s.allocatedPorts) == Some(p)
    ensures var found := Allocated(s, 0, Restarting(app, count, p), p);
            && Step(c, Step(c, found, Insert(0)), Restore(0)) ==
                Recounted(Started(c, s, app, true), app, count, s.attempts)
            && Step(c, Step(c, found, SpawnFails(0)), Restore(0)) == Started(c, s, app, false)
  {
    assert s.owner[p := By(Call(0))][p := By(App(app))] == s.owner[p := By(App(app))];
    assert s.owner[p := By(Call(0))][p := Nobody] == s.owner[p := Nobody];
    var found := Allocated(s, 0, Restarting(app, count, p), p);
    assert Step(c, found, SpawnFails(0)) == Started(c, s, app, false);
    var placed := Step(c, found, Insert(0));
    assert placed.tasks == map[0 := Placed(app, count)];
    assert placed.processes[app := Process(p, count)] == s.processes[app := Process(p, 0)][app := Process(p, count)];
  }

  lemma {:induction false} WaitIs(c: Config, s: State, app: string, count: nat, runs: bool, spawned: bool)
    requires Quiet(s) && app !in s.processes
    ensures PlaceSteps(c, s.(tasks := map[0 := Cleared(app, count, runs)]), spawned)
            == if runs then Recounted(Started(c, s, app, spawned), app, count, s.attempts) else s
  {
    var port := FirstFree(c.lo, c.hi, s.allocatedPorts);
    var found := Step(c, s.(tasks := map[0 := Cleared(app, count, runs)]), CrashAllocate(0));
    if runs && port.Some? {
      assert found == Allocated(s, 0, Restarting(app, count, port.value), port.value);
      PlaceIs(c, s, app, count, port.value);
    } else {
      assert found == s;
    }
  }

  /** With no call in flight there is nothing to place. */
  lemma {:induction false} IdlePlaces(c: Config, s: State, spawned: bool)
    requires Quiet(s)
    ensures PlaceSteps(c, s, spawned) == s
  {
    assert Step(c, s, CrashAllocate(0)) == s;
  }

  lemma {:induction false} RestartDue(c: Config, s: State, app: string, due: bool, runs: bool, spawned: bool)
    requires Quiet(s) && Due(c, s, app, due)
    ensures RestartSteps(c, s, app, due, runs, spawned) == Restarted(c, s, app, due, runs, spawned)
  {
    ClearIs(c, s, app, due, runs);
    var stopped := Stopped(s, app).(attempts := s.attempts[app := Attempts(s, app) + 1]);
    var count := s.processes[app].restarts + 1;
    var cleared := stopped.(tasks := map[0 := Cleared(app, count, runs)]);
    assert ClearSteps(c, s, app, due, runs) == cleared;
    WaitIs(c, stopped, app, count, runs, spawned);
  }

  /** The lock sections of a whole crash restart, undisturbed, make exactly `Restarted`. */
  lemma {:induction false} RestartIs(c: Config, s: State, app: string, due: bool, runs: bool, spawned: bool)
    requires Quiet(s)
    ensures RestartSteps(c, s, app, due, runs, spawned) == Restarted(c, s, app, due, runs, spawned)
  {
    if Due(c, s, app, due) {
      RestartDue(c, s, app, due, runs, spawned);
    } else {
      ClearIs(c, s, app, due, runs);
      IdlePlaces(c, s, spawned);
    }
  }

  /** Every whole call keeps the port invariant. */
  lemma {:induction false} CallsKeepPorts(c: Config, s: State, app: string, spawned: bool)
    requires PortInv(c, s) && Quiet(s)
    ensures PortInv(c, Started(c, s, app, spawned)) && PortInv(c, Stopped(s, app))
  {
    StartIs(c, s, app, spawned);
    StopIs(c, s, app);
    StepKeepsPorts(c, s, StartAllocate(0, app));
    StepKeepsPorts(c, Step(c, s, StartAllocate(0, app)), if spawned then Insert(0) else SpawnFails(0));
    StepKeepsPorts(c, s, Take(app));
    StepKeepsPorts(c, Step(c, s, Take(app)), Free);
  }

  /** Restart counts and attempts have no part in the port invariant. */
  lemma {:induction false} RecountKeepsPorts(c: Config, s: State, app: string, count: nat, attempts: map<string, nat>)
    requires PortInv(c, s)
    ensures PortInv(c, Recounted(s, app, count, attempts)) && PortInv(c, s.(attempts := attempts))
  {
    Unmoved(c, s, Recounted(s, app, count, attempts));
    Unmoved(c, s, s.(attempts := attempts));
  }

  datatype Result = Ok(port: nat) | NoPort | SpawnFailed

  /** What a due restart leaves: the old process is gone and its port free; a new process has a port
      that was not taken by others, and has been restarted once more. */
  predicate RestartOutcome(
    before: map<string, Process>, taken: set<nat>, after: map<string, Process>, taken': set<nat>,
    app: string, r: Option<Result>)
    requires app in before
  {
    var freed := taken - {before[app].port};
    if r.Some? && r.value.Ok? then
      && after == before[app := Process(r.value.port, before[app].restarts + 1)]
      && r.value.port !in freed && taken' == freed + {r.value.port}
    else after == before - {app} && freed <= taken'
  }

  lemma {:induction false} StopThenStart(
    before: map<string, Process>, taken: set<nat>, after: map<string, Process>, taken': set<nat>,
    app: string, r: Result)
    requires app in before
    requires var stopped, freed := before - {app}, taken - {before[app].port};
      if r.Ok? then after == stopped[app := Process(r.port, before[app].restarts + 1)]
                    && r.port !in freed && taken' == freed + {r.port}
      else after == stopped && freed <= taken'
    ensures RestartOutcome(before, taken, after, taken', app, Some(r))
  {
    if r.Ok? {
      assert after == before[app := Process(r.port, before[app].restarts + 1)];
    }
  }

  class AppManager {
    const c: Config
    var processes: map<string, Process>
    var allocatedPorts: set<nat>
    ghost var owner: map<nat, Owner>
    ghost var attempts: map<string, nat>

    ghost function Value(): State
      reads this
    {
      State(processes, allocatedPorts, map[], None, owner, attempts)
    }

    constructor (c: Config)
      ensures this.c == c && Value() == INITIAL && PortInv(c, Value())
    {
      this.c := c;
      processes, allocatedPorts, owner, attempts := map[], {}, map[], map[];
    }

    /** The least free port of the range, now marked. */
    method AllocatePort() returns (port: Option<nat>)
      modifies this`allocatedPorts
      ensures port == FirstFree(c.lo, c.hi, old(allocatedPorts))
      ensures allocatedPorts == old(allocatedPorts) + if port.Some? then {port.value} else {}
    {
      var p := c.lo;
      while p < c.hi
        invariant c.lo <= p && FirstFree(c.lo, c.hi, allocatedPorts) == FirstFree(p, c.hi, allocatedPorts)
        invariant allocatedPorts == old(allocatedPorts)
      {
        if p !in allocatedPorts {
          allocatedPorts := allocatedPorts + {p};
          return Some(p);
        }
        p := p + 1;
      }
      return None;
    }

    method StartApp(app: string, spawned: bool) returns (r: Result)
      requires PortInv(c, Value())
      modifies this
      ensures PortInv(c, Value())
      ensures Value() == Started(c, old(Value()), app, spawned)
      ensures r.NoPort? <==> forall p :: c.lo <= p < c.hi ==> p in old(allocatedPorts)
      ensures !r.NoPort? ==> (r.Ok? <==> spawned)
      ensures r.Ok? ==> processes == old(processes)[app := Process(r.port, 0)]
      ensures r.Ok? ==> c.lo <= r.port < c.hi && r.port !in old(allocatedPorts)
                        && allocatedPorts == old(allocatedPorts) + {r.port}
      ensures !r.Ok? ==> processes == old(processes)
    {
      CallsKeepPorts(c, Value(), app, spawned);
      var port := AllocatePort();
      if port.None? {
        return NoPort;
      }
      if !spawned {
        owner := owner[port.value := Nobody];
        return SpawnFailed;
      }
      if app in processes {
        owner := owner[processes[app].port := Nobody];
      }
      owner := owner[port.value := By(App(app))];
      processes := processes[app := Process(port.value, 0)];
      attempts := attempts[app := 0];
      return Ok(port.value);
    }

    /** Also what removing a dead process does, which has nothing left to kill. */
    method StopApp(app: string)
      requires PortInv(c, Value())
      modifies this
      ensures PortInv(c, Value())
      ensures Value() == Stopped(old(Value()), app)
      ensures app !in processes && processes == old(processes) - {app}
      ensures allocatedPorts == old(allocatedPorts - if app in processes then {processes[app].port} else {})
    {
      CallsKeepPorts(c, Value(), app, true);
      if app in processes {
        var port := processes[app].port;
        processes := processes - {app};
        allocatedPorts := allocatedPorts - {port};
        owner := owner - {port};
      }
    }

    /** Restarts a crashed app unless it has used up its restarts or its policy says no. */
    method TryRestartCrashed(app: string, due: bool, runs: bool, spawned: bool) returns (r: Option<Result>)
      requires PortInv(c, Value())
      modifies this
      ensures PortInv(c, Value())
      ensures Value() == Restarted(c, old(Value()), app, due, runs, spawned)
      ensures r.None? <==> !(Due(c, old(Value()), app, due) && runs)
      ensures old(app in processes && processes[app].restarts < c.maxRestarts) && due
              ==> RestartOutcome(old(processes), old(allocatedPorts), processes, allocatedPorts, app, r)
      ensures !(old(app in processes && processes[app].restarts < c.maxRestarts) && due)
              ==> processes == old(processes) && allocatedPorts == old(allocatedPorts)
    {
      if app !in processes || processes[app].restarts >= c.maxRestarts || !due {
        return None;
      }
      var count := processes[app].restarts + 1;
      StopApp(app);
      RecountKeepsPorts(c, Value(), app, count, attempts[app := Attempts(Value(), app) + 1]);
      attempts := attempts[app := Attempts(Value(), app) + 1];
      if !runs {
        return None;
      }
      var started := StartCounted(app, count, spawned);
      StopThenStart(old(processes), old(allocatedPorts), processes, allocatedPorts, app, started);
      return Some(started);
    }

    /** The start of a restart: the new process takes over the count. */
    method StartCounted(app: string, count: nat, spawned: bool) returns (r: Result)
      requires app !in processes && PortInv(c, Value())
      modifies this
      ensures PortInv(c, Value())
      ensures Value() == Recounted(Started(c, old(Value()), app, spawned), app, count, old(attempts))
      ensures if r.Ok? then processes == old(processes)[app := Process(r.port, count)]
                            && r.port !in old(allocatedPorts) && allocatedPorts == old(allocatedPorts) + {r.port}
              else processes == old(processes) && old(allocatedPorts) <= allocatedPorts
    {
      r := StartApp(app, spawned);
      RecountKeepsPorts(c, Value(), app, count, old(attempts));
      if r.Ok? {
        processes := processes[app := processes[app].(restarts := count)];
        attempts := old(attempts);
      }
    }
  }
}
