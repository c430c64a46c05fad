/** Crash restarts in every interleaving: how many an app can get, and whether a restart still
    finds the process it put in when it comes to restore the count. */
module AppRestarts {
  import opened Options
  import opened AppPorts

  /** Call `id` is a crash restart of `app`. */
  predicate RestartOf(s: State, id: nat, app: string) {
    id in s.tasks && !s.tasks[id].Starting? && s.tasks[id].app == app
  }

  /** ... that has put its new process in, with its count still to be restored. */
  predicate PlacedFor(s: State, id: nat, app: string) { id in s.tasks && s.tasks[id].Placed? && s.tasks[id].app == app }

  /** Nothing is counted while a restart of the app has its count still to restore, and only
      the restart counted last restores one. */
  ghost predicate Orderly(s: State, a: Action) {
    && (a.CountCrash? ==> forall id :: !PlacedFor(s, id, a.app))
    && (a.Restore? && a.id in s.tasks && s.tasks[a.id].Placed? ==>
        Attempts(s, s.tasks[a.id].app) <= s.tasks[a.id].count)
  }

  ghost predicate BoundInv(c: Config, s: State) {
    && (forall app :: Attempts(s, app) <= c.maxRestarts)
    && (forall app :: app in s.processes ==>
          Attempts(s, app) <= s.processes[app].restarts || exists id :: PlacedFor(s, id, app))
  }

  lemma {:induction false} QuietStep(c: Config, s: State, a: Action)
    requires !a.CountCrash? && !a.Insert? && !a.Restore?
    ensures var t := Step(c, s, a);
            && t.attempts == s.attempts
            && (forall app :: app in t.processes ==> app in s.processes && t.processes[app] == s.processes[app])
            && (forall id, app :: RestartOf(t, id, app) ==>
                RestartOf(s, id, app) && t.tasks[id].count == s.tasks[id].count)
            && (forall id, app :: PlacedFor(s, id, app) ==> PlacedFor(t, id, app))
  {
  }

  lemma {:induction false} CountCrashKeepsBound(c: Config, s: State, a: Action)
    requires BoundInv(c, s) && a.CountCrash? && Orderly(s, a)
    ensures BoundInv(c, Step(c, s, a))
  {
    var t := Step(c, s, a);
    if t != s {
      forall app ensures Attempts(t, app) == Attempts(s, app) + if app == a.app then 1 else 0 {}
      forall app | app in t.processes
        ensures Attempts(t, app) <= t.processes[app].restarts || exists id :: PlacedFor(t, id, app)
      {
        if id :| PlacedFor(s, id, app) {
          assert PlacedFor(t, id, app);
        }
      }
    }
  }

  lemma {:induction false} InsertKeepsBound(c: Config, s: State, id: nat)
    requires BoundInv(c, s) && id in s.tasks
    ensures BoundInv(c, Inserts(s, id, s.tasks[id]))
  {
    var task, t := s.tasks[id], Inserts(s, id, s.tasks[id]);
    if task.Starting? || task.Restarting? {
      forall app ensures Attempts(t, app) <= Attempts(s, app) {}
      forall app | app in t.processes
        ensures Attempts(t, app) <= t.processes[app].restarts || exists k :: PlacedFor(t, k, app)
      {
        if app == task.app {
          assert task.Restarting? ==> PlacedFor(t, id, app);
        } else if k :| PlacedFor(s, k, app) {
          assert PlacedFor(t, k, app);
        }
      }
    }
  }

  lemma {:induction false} RestoreKeepsBound(c: Config, s: State, id: nat)
    requires BoundInv(c, s) && id in s.tasks && s.tasks[id].Placed? && Orderly(s, Restore(id))
    ensures BoundInv(c, Restores(s, id, s.tasks[id]))
  {
    var task, t := s.tasks[id], Restores(s, id, s.tasks[id]);
    forall app ensures Attempts(t, app) == Attempts(s, app) {}
    forall app | app in t.processes
      ensures Attempts(t, app) <= t.processes[app].restarts || exists k :: PlacedFor(t, k, app)
    {
      if app != task.app {
        if k :| PlacedFor(s, k, app) {
          assert PlacedFor(t, k, app);
        }
      }
    }
  }

  lemma {:induction false} QuietKeepsBound(c: Config, s: State, a: Action)
    requires BoundInv(c, s) && !a.CountCrash? && !a.Insert? && !a.Restore?
    ensures BoundInv(c, Step(c, s, a))
  {
    var t := Step(c, s, a);
    QuietStep(c, s, a);
    forall app ensures Attempts(t, app) == Attempts(s, app) {}
    forall app | app in t.processes
      ensures Attempts(t, app) <= t.processes[app].restarts || exists id :: PlacedFor(t, id, app)
    {
      if id :| PlacedFor(s, id, app) {
        assert PlacedFor(t, id, app);
      }
    }
  }

  ghost predicate OrderlyRun(c: Config, actions: seq<Action>) {
    forall k :: 0 <= k < |actions| ==> Orderly(Run(c, INITIAL, actions[..k]), actions[k])
  }

  lemma {:induction false} RunKeepsBound(c: Config, actions: seq<Action>)
    requires OrderlyRun(c, actions)
    ensures BoundInv(c, Run(c, INITIAL, actions))
  {
    if actions != [] {
      var n := |actions| - 1;
      assert forall k :: 0 <= k < n ==> actions[..n][..k] == actions[..k];
      RunKeepsBound(c, actions[..n]);
      assert Orderly(Run(c, INITIAL, actions[..n]), actions[n]);
      StepKeepsBound(c, Run(c, INITIAL, actions[..n]), actions[n]);
    }
  }

  lemma {:induction false} StepKeepsBound(c: Config, s: State, a: Action)
    requires BoundInv(c, s) && Orderly(s, a)
    ensures BoundInv(c, Step(c, s, a))
  {
    if a.CountCrash? {
      CountCrashKeepsBound(c, s, a);
    } else if a.Insert? {
      if a.id in s.tasks { InsertKeepsBound(c, s, a.id); }
    } else if a.Restore? {
      if a.id in s.tasks && s.tasks[a.id].Placed? { RestoreKeepsBound(c, s, a.id); }
    } else {
      QuietKeepsBound(c, s, a);
    }
  }

  /** Crash restarts since an app's last explicit start never exceed the maximum, in every
      orderly run, restarts of one app overlapping or not. */
  lemma {:induction false} OrderlyBounded(c: Config, actions: seq<Action>, app: string)
    requires OrderlyRun(c, actions)
    ensures Attempts(Run(c, INITIAL, actions), app) <= c.maxRestarts
  {
    RunKeepsBound(c, actions);
  }

  // ---- One restart at a time ----------------------------------------------

  /** A crash restart is begun only when no other one of that app is in flight. */
  ghost predicate Alone(s: State, a: Action) { a.CountCrash? ==> forall id :: !RestartOf(s, id, a.app) }

  /** Every restart in flight has counted all attempts so far. */
  ghost predicate AllCounted(s: State) {
    forall id, app :: RestartOf(s, id, app) ==> Attempts(s, app) <= s.tasks[id].count
  }

  lemma {:induction false} AloneIsOrderly(s: State, a: Action)
    requires AllCounted(s) && Alone(s, a)
    ensures Orderly(s, a)
  {
    assert forall id, app :: PlacedFor(s, id, app) ==> RestartOf(s, id, app);
    if a.Restore? && a.id in s.tasks && s.tasks[a.id].Placed? { assert RestartOf(s, a.id, s.tasks[a.id].app); }
  }

  lemma {:induction false} CountCrashCounts(c: Config, s: State, a: Action)
    requires BoundInv(c, s) && AllCounted(s) && a.CountCrash? && Alone(s, a)
    ensures AllCounted(Step(c, s, a))
  {
    var t := Step(c, s, a);
    AloneIsOrderly(s, a);
    if t != s {
      forall app ensures Attempts(t, app) == Attempts(s, app) + if app == a.app then 1 else 0 {}
      forall id, app | RestartOf(t, id, app) ensures Attempts(t, app) <= t.tasks[id].count {
        assert id != a.id ==> RestartOf(s, id, app);
      }
    }
  }

  /** Where no attempt is added, restarts already in flight stay counted. */
  lemma {:induction false} OthersCount(c: Config, s: State, a: Action)
    requires AllCounted(s) && !a.CountCrash?
    ensures AllCounted(Step(c, s, a))
  {
    var t := Step(c, s, a);
    SameRestarts(c, s, a);
    forall id, app | RestartOf(t, id, app) ensures Attempts(t, app) <= t.tasks[id].count {
      assert RestartOf(s, id, app);
    }
  }

  lemma {:induction false} SameRestarts(c: Config, s: State, a: Action)
    requires !a.CountCrash?
    ensures var t := Step(c, s, a);
            && (forall app :: Attempts(t, app) <= Attempts(s, app))
            && (forall id, app :: RestartOf(t, id, app) ==>
                RestartOf(s, id, app) && t.tasks[id].count == s.tasks[id].count)
  {
    if !a.Insert? && !a.Restore? { QuietStep(c, s, a); }
  }

  lemma {:induction false} AloneKeepsCounts(c: Config, s: State, a: Action)
    requires BoundInv(c, s) && AllCounted(s) && Alone(s, a)
    ensures BoundInv(c, Step(c, s, a)) && AllCounted(Step(c, s, a))
  {
    AloneIsOrderly(s, a);
    StepKeepsBound(c, s, a);
    if a.CountCrash? { CountCrashCounts(c, s, a); } else { OthersCount(c, s, a); }
  }

  ghost predicate OneRestartAtATime(c: Config, actions: seq<Action>) {
    forall k :: 0 <= k < |actions| ==> Alone(Run(c, INITIAL, actions[..k]), actions[k])
  }

  lemma {:induction false} RunKeepsCounts(c: Config, actions: seq<Action>)
    requires OneRestartAtATime(c, actions)
    ensures BoundInv(c, Run(c, INITIAL, actions)) && AllCounted(Run(c, INITIAL, actions))
  {
    if actions != [] {
      var n := |actions| - 1;
      assert forall k :: 0 <= k < n ==> actions[..n][..k] == actions[..k];
      RunKeepsCounts(c, actions[..n]);
      assert Alone(Run(c, INITIAL, actions[..n]), actions[n]);
      AloneKeepsCounts(c, Run(c, INITIAL, actions[..n]), actions[n]);
    }
  }

  /** Runs without overlap are orderly. */
  lemma {:induction false} OneAtATimeIsOrderly(c: Config, actions: seq<Action>)
    requires OneRestartAtATime(c, actions)
    ensures OrderlyRun(c, actions)
  {
    forall k | 0 <= k < |actions| ensures Orderly(Run(c, INITIAL, actions[..k]), actions[k]) {
      assert forall j :: 0 <= j < k ==> actions[..k][..j] == actions[..j];
      RunKeepsCounts(c, actions[..k]);
      assert Alone(Run(c, INITIAL, actions[..k]), actions[k]);
      AloneIsOrderly(Run(c, INITIAL, actions[..k]), actions[k]);
    }
  }

  /** So the bound holds in every run where each restart of an app ends before its next one
      begins. */
  lemma {:induction false} RestartsBounded(c: Config, actions: seq<Action>, app: string)
    requires OneRestartAtATime(c, actions)
    ensures Attempts(Run(c, INITIAL, actions), app) <= c.maxRestarts
  {
    OneAtATimeIsOrderly(c, actions);
    OrderlyBounded(c, actions, app);
  }

  // ---- The process to restore the count to --------------------------------

  /** The step takes the process of `app` away. */
  predicate Stops(s: State, a: Action, app: string) {
    && s.stopping.None? && app in s.processes
    && (a == Take(app) || (a.CrashTake? && a.id in s.tasks && s.tasks[a.id].Counted? && s.tasks[a.id].app == app))
  }

  /** The step puts a process of `app` in. */
  predicate Brings(s: State, a: Action, app: string) {
    && s.stopping.None? && a.Insert? && a.id in s.tasks
    && (s.tasks[a.id].Starting? || s.tasks[a.id].Restarting?) && s.tasks[a.id].app == app
  }

  /** Only those steps change whether an app has a process. */
  lemma {:induction false} StepProcess(c: Config, s: State, a: Action, app: string)
    ensures app in Step(c, s, a).processes <==> Brings(s, a, app) || (app in s.processes && !Stops(s, a, app))
  {
  }

  lemma {:induction false} StepPlaced(c: Config, s: State, a: Action, id: nat, app: string)
    requires PlacedFor(s, id, app) && a != Restore(id)
    ensures PlacedFor(Step(c, s, a), id, app)
  {
  }

  /** Since the start of the run (`j` is 0) or since its step `j - 1` the app has a process: it
      was there, or that step brought it, and no later step stops it. */
  ghost predicate LastsFrom(c: Config, s: State, actions: seq<Action>, app: string, j: nat) {
    && j <= |actions|
    && (if j == 0 then app in s.processes else Brings(Run(c, s, actions[..j - 1]), actions[j - 1], app))
    && forall k :: j <= k < |actions| ==> !Stops(Run(c, s, actions[..k]), actions[k], app)
  }

  lemma {:induction false} LastsSnoc(c: Config, s: State, init: seq<Action>, a: Action, app: string, j: nat)
    requires j <= |init|
    ensures LastsFrom(c, s, init + [a], app, j) <==> LastsFrom(c, s, init, app, j) && !Stops(Run(c, s, init), a, app)
  {
    var all := init + [a];
    assert forall k :: 0 <= k <= |init| ==> all[..k] == init[..k];
    assert init[..|init|] == init;
    if LastsFrom(c, s, all, app, j) {
      assert !Stops(Run(c, s, all[..|init|]), all[|init|], app);
      forall k | j <= k < |init| ensures !Stops(Run(c, s, init[..k]), init[k], app) {
        assert !Stops(Run(c, s, all[..k]), all[k], app);
      }
    }
    if LastsFrom(c, s, init, app, j) && !Stops(Run(c, s, init), a, app) {
      forall k | j <= k < |all| ensures !Stops(Run(c, s, all[..k]), all[k], app) {
        assert k < |init| ==> !Stops(Run(c, s, init[..k]), init[k], app);
      }
    }
  }

  /** After every run the app has a process exactly if it had one at the start, or some step
      brought one, that no later step of the run stops. */
  lemma {:induction false} ProcessThereIff(c: Config, s: State, actions: seq<Action>, app: string)
    ensures app in Run(c, s, actions).processes <==> exists j: nat :: LastsFrom(c, s, actions, app, j)
  {
    if actions == [] {
      assert app in s.processes ==> LastsFrom(c, s, actions, app, 0);
    } else {
      var n := |actions| - 1;
      var init, a := actions[..n], actions[n];
      assert actions == init + [a];
      ProcessThereIff(c, s, init, app);
      StepProcess(c, Run(c, s, init), a, app);
      forall j: nat | j <= n
        ensures LastsFrom(c, s, actions, app, j) <==> LastsFrom(c, s, init, app, j) && !Stops(Run(c, s, init), a, app)
      {
        LastsSnoc(c, s, init, a, app, j);
      }
      assert LastsFrom(c, s, actions, app, n + 1) <==> Brings(Run(c, s, init), a, app);
    }
  }

  lemma {:induction false} PlacedStays(c: Config, s: State, actions: seq<Action>, id: nat, app: string)
    requires PlacedFor(s, id, app) && Restore(id) !in actions
    ensures PlacedFor(Run(c, s, actions), id, app)
  {
    if actions != [] {
      var n := |actions| - 1;
      PlacedStays(c, s, actions[..n], id, app);
      assert actions[n] in actions;
      StepPlaced(c, Run(c, s, actions[..n]), actions[n], id, app);
    }
  }

  /** From where a restart has put its process in: whatever runs before it restores the count, it
      finds a process exactly if none was stopped since, or one was brought in after the last stop. */
  lemma {:induction false} RestoreFindsProcess(c: Config, s: State, actions: seq<Action>, id: nat, app: string)
    requires PlacedFor(s, id, app) && app in s.processes && Restore(id) !in actions
    ensures PlacedFor(Run(c, s, actions), id, app)
    ensures app in Run(c, s, actions).processes <==> exists j: nat :: LastsFrom(c, s, actions, app, j)
  {
    PlacedStays(c, s, actions, id, app);
    ProcessThereIff(c, s, actions, app);
  }

  lemma {:induction false} StopBeforeRestore(c: Config, s: State, a: Action, id: nat, app: string)
    requires PlacedFor(s, id, app) && Stops(s, a, app)
    ensures var t := Step(c, Step(c, s, a), Free);
      PlacedFor(t, id, app) && app !in t.processes && t.stopping.None?
  {
  }

  /** Counting raises the count of the process by one, below the maximum only, and hands it to the
      restart; no other step makes one. */
  lemma {:induction false} CountsOnce(c: Config, s: State, a: Action, id: nat, app: string)
    requires RestartOf(Step(c, s, a), id, app) && !RestartOf(s, id, app)
    ensures a.CountCrash? && a.id == id && a.app == app && a.due && app in s.processes
    ensures s.processes[app].restarts < c.maxRestarts
    ensures Step(c, s, a).processes[app] == s.processes[app].(restarts := s.processes[app].restarts + 1)
    ensures Step(c, s, a).tasks[id].count == s.processes[app].restarts + 1
  {
    if !a.CountCrash? && !a.Insert? && !a.Restore? { QuietStep(c, s, a); }
  }

  /** The restart keeps that count until it restores it to the process it finds. */
  lemma {:induction false} CountCarried(c: Config, s: State, a: Action, id: nat, app: string)
    requires RestartOf(s, id, app) && (a.CountCrash? ==> a.id != id)
    ensures var t := Step(c, s, a);
      && (RestartOf(t, id, app) ==> t.tasks[id].count == s.tasks[id].count)
      && (a == Restore(id) && s.stopping.None? && s.tasks[id].Placed? && app in s.processes ==>
            t.processes[app] == s.processes[app].(restarts := s.tasks[id].count))
  {
    if !a.CountCrash? { SameRestarts(c, s, a); }
  }

  // ---- Two runs -----------------------------------------------------------

  lemma {:induction false} RunThen(c: Config, actions: seq<Action>, a: Action)
    ensures Run(c, INITIAL, actions + [a]) == Step(c, Run(c, INITIAL, actions), a)
  {
    assert (actions + [a])[..|actions|] == actions;
  }

  function Start(app: string): seq<Action> { [StartAllocate(0, app)] + [Insert(0)] }

  /** A crash restart as far as its stop, and as far as its new process; the count is still to be restored. */
  function Crash(app: string): seq<Action> { Start(app) + [CountCrash(1, app, true, true)] + [CrashTake(1)] + [Free] }
  function FirstRestart(app: string): seq<Action> { Crash(app) + [CrashAllocate(1)] + [Insert(1)] }

  lemma {:induction false} InsertsFirst(s: State, app: string, p: nat)
    requires s == State(map[], {p}, map[0 := Starting(app, p)], None, map[p := By(Call(0))], map[])
    ensures Inserts(s, 0, Starting(app, p)) ==
        State(map[app := Process(p, 0)], {p}, map[], None, map[p := By(App(app))], map[app := 0])
  {
    var t := Inserts(s, 0, Starting(app, p));
    assert t.processes == map[app := Process(p, 0)];
    assert t.tasks == map[];
    assert t.owner == map[p := By(App(app))];
    assert t.attempts == map[app := 0];
  }

  lemma {:induction false} StartRuns(c: Config, app: string)
    requires c.lo < c.hi
    ensures Run(c, INITIAL, Start(app))
            == State(map[app := Process(c.lo, 0)], {c.lo}, map[], None, map[c.lo := By(App(app))], map[app := 0])
  {
    var a := [StartAllocate(0, app)];
    assert Run(c, INITIAL, a) == Step(c, INITIAL, StartAllocate(0, app)) by { assert a[..0] == []; }
    var s := State(map[], {c.lo}, map[0 := Starting(app, c.lo)], None, map[c.lo := By(Call(0))], map[]);
    StartAllocates(c, app);
    RunThen(c, a, Insert(0));
    InsertsFirst(s, app, c.lo);
  }

  lemma {:induction false} FreesLast(s: State, app: string, p: nat)
    requires s == State(map[], {p}, map[1 := Counted(app, 1, true)], Some(Stop(p, Some(1))),
        map[p := By(Stopper)], map[app := 1])
    ensures Freed(s, Stop(p, Some(1))) == State(map[], {}, map[1 := Cleared(app, 1, true)], None, map[], map[app := 1])
  {
  }

  lemma {:induction false} CrashRuns(c: Config, app: string)
    requires c.lo < c.hi && 1 <= c.maxRestarts
    ensures Run(c, INITIAL, Crash(app)) == State(map[], {}, map[1 := Cleared(app, 1, true)], None, map[], map[app := 1])
  {
    StartRuns(c, app);
    var a := Start(app);
    RunThen(c, a, CountCrash(1, app, true, true));
    a := a + [CountCrash(1, app, true, true)];
    assert Run(c, INITIAL, a) == State(map[app := Process(c.lo, 1)], {c.lo}, map[1 := Counted(app, 1, true)], None,
                                       map[c.lo := By(App(app))], map[app := 1]);
    RunThen(c, a, CrashTake(1));
    a := a + [CrashTake(1)];
    var s := State(map[], {c.lo}, map[1 := Counted(app, 1, true)], Some(Stop(c.lo, Some(1))),
        map[c.lo := By(Stopper)], map[app := 1]);
    assert Run(c, INITIAL, a) == s;
    RunThen(c, a, Free);
    FreesLast(s, app, c.lo);
  }

  /** The app, restarted once, shows a count of zero again. */
  lemma {:induction false} FirstRestartForgets(c: Config, app: string)
    requires c.lo < c.hi && 1 <= c.maxRestarts
    ensures var s := Run(c, INITIAL, FirstRestart(app));
            && s.stopping.None? && 2 !in s.tasks && PlacedFor(s, 1, app) && Attempts(s, app) == 1
            && app in s.processes && s.processes[app].restarts == 0
  {
    CrashRuns(c, app);
    RunThen(c, Crash(app), CrashAllocate(1));
    RunThen(c, Crash(app) + [CrashAllocate(1)], Insert(1));
  }

  /** Without that, the bound fails: with a maximum of one, the app gets a second restart. */
  lemma {:induction false} OverlapExceeds(c: Config, app: string)
    requires c.lo < c.hi && c.maxRestarts == 1
    ensures Attempts(Run(c, INITIAL, FirstRestart(app) + [CountCrash(2, app, true, true)]), app) == 2
  {
    FirstRestartForgets(c, app);
    RunThen(c, FirstRestart(app), CountCrash(2, app, true, true));
  }

  /** The app stopped before the first restart has restored its count: the restart comes to a
      process that is not there, which the original takes for impossible. */
  lemma {:induction false} RestoreFindsNone(c: Config, app: string)
    requires c.lo < c.hi && 1 <= c.maxRestarts
    ensures var s := Run(c, INITIAL, FirstRestart(app) + [Take(app)] + [Free]);
            PlacedFor(s, 1, app) && app !in s.processes && s.stopping.None?
  {
    FirstRestartForgets(c, app);
    RunThen(c, FirstRestart(app), Take(app));
    RunThen(c, FirstRestart(app) + [Take(app)], Free);
    StopBeforeRestore(c, Run(c, INITIAL, FirstRestart(app)), Take(app), 1, app);
  }
}
