/** The services and how they start, stop and change together, as a class over Service objects. */
module ServiceManagers {
  import opened ServiceConfigs
  import opened Launching
  import opened ServiceSpec
  import opened ManagerSpec
  import Spec = ManagerSpec
  import opened Services

  class ServiceManager {
    const launcher: Launcher
    var services: seq<Service>
    var removed: seq<string>
    var shuttingDown: bool

    // The fields of each service, entry by entry.
    ghost var views: seq<Svc>

    ghost function View(): Mgr
      reads this, launcher
    {
      Mgr(views, removed, shuttingDown, launcher.log)
    }

    ghost predicate Valid()
      reads this, services, launcher
    {
      && launcher.Valid()
      && |views| == |services| && AllOk(views)
      && (forall i :: 0 <= i < |services| ==> services[i].View() == views[i] && services[i].launcher == launcher)
      && (forall i, j :: 0 <= i < j < |services| ==> services[i] != services[j])
    }

    constructor (launcher: Launcher)
      requires launcher.Valid()
      ensures Valid() && this.launcher == launcher && services == []
      ensures View() == Mgr([], [], false, launcher.log)
    {
      this.launcher := launcher;
      services, removed, shuttingDown, views := [], [], false, [];
    }

    // ----- one call on one service

    method TickOne(i: nat, now: Instant)
      requires Valid() && i < |services|
      modifies this`views, services[i], launcher
      ensures Valid() && View() == Act(old(View()), i, TickOp, launcher.env, now).mgr
    {
      hide SvcInv, CtxFor;
      var ready := DependenciesRunning(i);
      services[i].Tick(now, !shuttingDown, ready, CtxFor(View(), i, launcher.env, now));
      views := views[i := services[i].View()];
    }

    method StartOne(i: nat, now: Instant) returns (result: CommandResult)
      requires Valid() && i < |services|
      modifies this`views, services[i], launcher
      ensures Valid() && Acted(View(), result) == Act(old(View()), i, StartOp, launcher.env, now)
    {
      hide SvcInv, CtxFor;
      var ready := DependenciesRunning(i);
      result := services[i].Start(now, ready, CtxFor(View(), i, launcher.env, now));
      views := views[i := services[i].View()];
    }

    method RestartOne(i: nat, now: Instant) returns (result: CommandResult)
      requires Valid() && i < |services|
      modifies this`views, services[i], launcher
      ensures Valid() && Acted(View(), result) == Act(old(View()), i, RestartOp, launcher.env, now)
    {
      hide SvcInv, CtxFor, ServiceSpec.Restart;
      var ready := DependenciesRunning(i);
      result := services[i].Restart(now, ready, CtxFor(View(), i, launcher.env, now));
      views := views[i := services[i].View()];
    }

    method StopOne(i: nat, now: Instant) returns (result: CommandResult)
      requires Valid() && i < |services|
      modifies this`views, services[i], launcher
      ensures Valid() && Acted(View(), result) == Act(old(View()), i, StopOp, launcher.env, now)
    {
      hide SvcInv, CtxFor, ServiceSpec.Stop;
      result := services[i].Stop(now, CtxFor(View(), i, launcher.env, now));
      views := views[i := services[i].View()];
    }

    method KillOne(i: nat, now: Instant)
      requires Valid() && i < |services|
      modifies this`views, services[i], launcher
      ensures Valid() && View() == Act(old(View()), i, KillOp, launcher.env, now).mgr
    {
      hide SvcInv, CtxFor;
      services[i].Kill(now);
      views := views[i := services[i].View()];
    }

    method HeartbeatOne(i: nat, now: Instant) returns (result: CommandResult)
      requires Valid() && i < |services|
      modifies this`views, services[i], launcher
      ensures Valid() && Acted(View(), result) == Act(old(View()), i, HeartbeatOp, launcher.env, now)
    {
      hide SvcInv, CtxFor;
      result := services[i].Heartbeat(now);
      views := views[i := services[i].View()];
    }

    method AbandonOne(i: nat, now: Instant)
      requires Valid() && i < |services|
      modifies this`views, services[i]
      ensures Valid() && View() == Act(old(View()), i, AbandonOp, launcher.env, now).mgr
    {
      hide SvcInv, CtxFor;
      services[i].Abandon();
      views := views[i := services[i].View()];
    }

    method SampleOne(i: nat, readings: nat -> UsageSample, now: Instant)
      requires Valid() && i < |services|
      modifies this`views, services[i]
      ensures Valid()
      ensures View() == SampleNext(old(View()), i, readings, launcher.env, now)
    {
      hide SvcInv, CtxFor;
      services[i].Sample(if services[i].child.Some? then readings(services[i].child.value.id) else NO_USAGE);
      views := views[i := services[i].View()];
    }

    method Find(name: string) returns (k: nat)
      requires Valid()
      ensures k == FindIndex(views, name)
    {
      k := 0;
      while k < |services|
        invariant k <= |services|
        invariant forall j :: 0 <= j < k ==> services[j].config.name != name
      {
        if services[k].config.name == name {
          return;
        }
        k := k + 1;
      }
    }

    method DependenciesRunning(i: nat) returns (running: bool)
      requires Valid() && i < |services|
      ensures running == Spec.DependenciesRunning(views, services[i].config.dependsOn)
    {
      var dependsOn := services[i].config.dependsOn;
      for j := 0 to |dependsOn|
        invariant forall d :: 0 <= d < j ==>
          var k := FindIndex(views, dependsOn[d]);
          k < |services| && services[k].state.Running?
      {
        var other := Find(dependsOn[j]);
        if other == |services| || !services[other].state.Running? {
          return false;
        }
      }
      return true;
    }

    method DependencyBlocked(i: nat) returns (blocked: bool)
      requires Valid() && i < |services|
      ensures blocked == Spec.DependencyBlocked(views, services[i].config.dependsOn)
    {
      var dependsOn := services[i].config.dependsOn;
      for j := 0 to |dependsOn|
        invariant forall d :: 0 <= d < j ==>
          var k := FindIndex(views, dependsOn[d]);
          k < |services| && !services[k].state.Failed? && !services[k].state.Stopped?
      {
        var other := Find(dependsOn[j]);
        if other == |services| || services[other].state.Failed? || services[other].state.Stopped? {
          return true;
        }
      }
      return false;
    }

    method DependentsStopped(name: string) returns (free: bool)
      requires Valid()
      ensures free == Spec.DependentsStopped(views, name)
    {
      for i := 0 to |services|
        invariant forall j :: 0 <= j < i && name in services[j].config.dependsOn ==> !IsAlive(services[j].state)
      {
        if name in services[i].config.dependsOn && IsAlive(services[i].state) {
          assert name in views[i].config.dependsOn;
          return false;
        }
      }
      return true;
    }

    // ----- starting with dependencies

    method StartWithDependencies(i: nat, now: Instant, restart: bool, started: seq<string>)
      returns (result: CommandResult, nowStarted: seq<string>)
      requires Valid() && i < |services|
      modifies this`views, services, launcher
      ensures Valid()
      ensures Commanded(View(), result, nowStarted) ==
              Spec.StartWithDependencies(old(View()), i, restart, started, launcher.env, now)
    {
      hide Act;
      var visiting;
      ghost var calls;
      visiting, nowStarted, calls :=
        StartDependencies(services[i].config.dependsOn, [services[i].config.name], started, [], now);
      if restart {
        result := RestartOne(i, now);
      } else {
        result := StartOne(i, now);
      }
    }

    method StartDependencies(dependsOn: seq<string>, visiting: seq<string>, started: seq<string>,
                             ghost calls: seq<string>, now: Instant)
      returns (nowVisiting: seq<string>, nowStarted: seq<string>, ghost nowCalls: seq<string>)
      requires Valid()
      modifies this`views, services, launcher
      ensures Valid()
      ensures Traversal(View(), nowVisiting, nowStarted, nowCalls) ==
              Spec.StartDependencies(Traversal(old(View()), visiting, started, calls), dependsOn, launcher.env, now)
      decreases Unvisited(views, visiting), 1
    {
      hide Spec.VisitDependency;
      nowVisiting, nowStarted, nowCalls := visiting, started, calls;
      for j := 0 to |dependsOn|
        invariant Valid()
        invariant Unvisited(views, nowVisiting) <= Unvisited(old(views), visiting)
        invariant Spec.StartDependencies(Traversal(View(), nowVisiting, nowStarted, nowCalls), dependsOn[j..],
                                         launcher.env, now) ==
                  Spec.StartDependencies(Traversal(old(View()), visiting, started, calls), dependsOn, launcher.env, now)
      {
        assert dependsOn[j..][0] == dependsOn[j] && dependsOn[j..][1..] == dependsOn[j + 1..];
        nowVisiting, nowStarted, nowCalls := VisitDependency(dependsOn[j], nowVisiting, nowStarted, nowCalls, now);
      }
    }

    /** One dependency of the traversal: skipped, or visited with everything below it. */
    method VisitDependency(name: string, visiting: seq<string>, started: seq<string>, ghost calls: seq<string>,
                           now: Instant)
      returns (nowVisiting: seq<string>, nowStarted: seq<string>, ghost nowCalls: seq<string>)
      requires Valid()
      modifies this`views, services, launcher
      ensures Valid()
      ensures Traversal(View(), nowVisiting, nowStarted, nowCalls) ==
              Spec.VisitDependency(Traversal(old(View()), visiting, started, calls), name, launcher.env, now)
      decreases Unvisited(views, visiting), 0
    {
      hide Act;
      nowVisiting, nowStarted, nowCalls := visiting, started, calls;
      var k := Find(name);
      if k == |services| || name in visiting {
        return;
      }
      UnvisitedShrinks(views, views, name, visiting, visiting + [name]);
      nowVisiting, nowStarted, nowCalls :=
        StartDependencies(services[k].config.dependsOn, visiting + [name], started, calls, now);
      var before := services[k].state;
      var result := StartOne(k, now);
      nowStarted := if !WasUp(before) && name !in nowStarted then nowStarted + [name] else nowStarted;
      nowCalls := nowCalls + [name];
    }

    method StartAutostart(now: Instant)
      requires Valid()
      modifies this`views, services, launcher
      ensures Valid()
      ensures View() == Spec.StartAutostart(old(View()), 0, launcher.env, now)
    {
      hide Spec.AutostartNext;
      for i := 0 to |services|
        invariant Valid()
        invariant Spec.StartAutostart(View(), i, launcher.env, now) ==
                  Spec.StartAutostart(old(View()), 0, launcher.env, now)
      {
        AutostartNext(i, now);
      }
    }

    method AutostartNext(i: nat, now: Instant)
      requires Valid() && i < |services|
      modifies this`views, services, launcher
      ensures Valid()
      ensures View() == Spec.AutostartNext(old(View()), i, launcher.env, now)
    {
      hide Spec.StartWithDependencies;
      if services[i].config.autostart && services[i].state.Stopped? {
        var result, started := StartWithDependencies(i, now, false, []);
      }
    }

    // ----- commands

    /** The reply carries the result; its texts are not modelled. */
    method Execute(command: int, name: string, now: Instant) returns (result: CommandResult)
      requires Valid()
      modifies this`views, services, launcher
      ensures Valid()
      ensures Acted(View(), result) == Spec.Execute(old(View()), command, name, launcher.env, now)
    {
      hide Spec.ExecuteOne, Spec.ExecuteAll;
      var parsed := CommandCodeFromByte(command);
      if parsed.None? || parsed.value.ReloadCommand? {
        return UnknownCommand;
      }
      var code := parsed.value;
      if shuttingDown && !code.HeartbeatCommand? {
        return CommandResult.ShuttingDown;
      }
      if name == ALL_SERVICES {
        if code.HeartbeatCommand? {
          return Malformed;
        }
        result := ExecuteAll(code, now);
        return;
      }
      var k := Find(name);
      if k == |services| || services[k].removing {
        return UnknownService;
      }
      var started;
      result, started := ExecuteOne(code, k, now, []);
    }

    method ExecuteAll(code: CommandCode, now: Instant) returns (result: CommandResult)
      requires Valid()
      modifies this`views, services, launcher
      ensures Valid()
      ensures var all := Spec.ExecuteAll(Tally(old(View()), [], 0), code, 0, launcher.env, now);
              View() == all.mgr && result == if all.failed > 0 then LaunchFailed else Ok
    {
      hide Spec.ExecuteNext;
      var failed: nat := 0;
      var started := [];
      for i := 0 to |services|
        invariant Valid()
        invariant Spec.ExecuteAll(Tally(View(), started, failed), code, i, launcher.env, now) ==
                  Spec.ExecuteAll(Tally(old(View()), [], 0), code, 0, launcher.env, now)
      {
        started, failed := ExecuteNext(code, i, now, started, failed);
      }
      result := if failed > 0 then LaunchFailed else Ok;
    }

    method ExecuteNext(code: CommandCode, i: nat, now: Instant, started: seq<string>, failed: nat)
      returns (nowStarted: seq<string>, nowFailed: nat)
      requires Valid() && i < |services|
      modifies this`views, services, launcher
      ensures Valid()
      ensures Tally(View(), nowStarted, nowFailed) ==
              Spec.ExecuteNext(Tally(old(View()), started, failed), code, i, launcher.env, now)
    {
      hide Spec.ExecuteOne;
      nowStarted, nowFailed := started, failed;
      if services[i].removing || services[i].config.name in started {
        return;
      }
      var one;
      one, nowStarted := ExecuteOne(code, i, now, started);
      if !IsSuccess(one) {
        nowFailed := failed + 1;
      }
    }

    method ExecuteOne(code: CommandCode, i: nat, now: Instant, started: seq<string>)
      returns (result: CommandResult, nowStarted: seq<string>)
      requires Valid() && i < |services|
      modifies this`views, services, launcher
      ensures Valid()
      ensures Commanded(View(), result, nowStarted) ==
              Spec.ExecuteOne(old(View()), code, i, started, launcher.env, now)
    {
      hide Act, Spec.StartWithDependencies;
      nowStarted := started;
      match code {
        case StartCommand =>
          result, nowStarted := StartWithDependencies(i, now, false, started);
        case RestartCommand =>
          result, nowStarted := StartWithDependencies(i, now, true, started);
        case StopCommand =>
          result := StopOne(i, now);
        case HeartbeatCommand =>
          result := HeartbeatOne(i, now);
        case ReloadCommand =>
          result := UnknownCommand;
      }
    }

    // ----- the clock

    method Tick(now: Instant)
      requires Valid()
      modifies this, services, launcher
      ensures Valid()
      ensures View() == Spec.Tick(old(View()), launcher.env, now)
    {
      hide TickServices, FollowUps, Sweep;
      TickEach(now);
      DoFollowUps(now);
      RemoveFinished();
    }

    method TickEach(now: Instant)
      requires Valid()
      modifies this`views, services, launcher
      ensures Valid()
      ensures View() == TickServices(old(View()), 0, launcher.env, now)
    {
      hide Act;
      for i := 0 to |services|
        invariant Valid()
        invariant TickServices(View(), i, launcher.env, now) == TickServices(old(View()), 0, launcher.env, now)
      {
        TickOne(i, now);
      }
    }

    method DoFollowUps(now: Instant)
      requires Valid()
      modifies this`views, services, launcher
      ensures Valid()
      ensures View() == FollowUps(old(View()), 0, launcher.env, now)
    {
      hide FollowUpNext;
      for i := 0 to |services|
        invariant Valid()
        invariant FollowUps(View(), i, launcher.env, now) == FollowUps(old(View()), 0, launcher.env, now)
      {
        FollowUpOne(i, now);
      }
    }

    method FollowUpOne(i: nat, now: Instant)
      requires Valid() && i < |services|
      modifies this`views, services[i], launcher
      ensures Valid()
      ensures View() == FollowUpNext(old(View()), i, launcher.env, now)
    {
      hide Act;
      if !shuttingDown && services[i].state.Waiting? {
        var ready := DependenciesRunning(i);
        if ready {
          var result := StartOne(i, now);
        } else {
          var blocked := DependencyBlocked(i);
          if blocked {
            AbandonOne(i, now);
          }
        }
      } else if shuttingDown && !services[i].state.Stopping? && !services[i].state.Stopped? {
        var free := DependentsStopped(services[i].config.name);
        if free {
          var result := StopOne(i, now);
        }
      }
    }

    method RemoveFinished()
      requires Valid()
      modifies this`services, this`views, this`removed
      ensures Valid()
      ensures View() == Sweep(old(View()))
    {
      var kept, names;
      ghost var keptViews;
      kept, names, keptViews := Partition();
      services, views, removed := kept, keptViews, removed + names;
    }

    /** The services that stay, in order, and the names of the ones that go. */
    method Partition() returns (kept: seq<Service>, names: seq<string>, ghost keptViews: seq<Svc>)
      requires Valid()
      ensures keptViews == Kept(views) && names == RemovedNames(views)
      ensures |keptViews| == |kept|
      ensures forall k :: 0 <= k < |kept| ==> kept[k].launcher == launcher && kept[k].View() == keptViews[k]
      ensures forall a, b :: 0 <= a < b < |kept| ==> kept[a] != kept[b]
    {
      kept, names, keptViews := [], [], [];
      for i := 0 to |services|
        invariant |keptViews| == |kept| && keptViews == Kept(views[..i])
        invariant forall k :: 0 <= k < |kept| ==> kept[k] in services[..i]
        invariant forall k :: 0 <= k < |kept| ==> kept[k].launcher == launcher && kept[k].View() == keptViews[k]
        invariant forall a, b :: 0 <= a < b < |kept| ==> kept[a] != kept[b]
        invariant names == RemovedNames(views[..i])
      {
        assert views[..i + 1][..i] == views[..i];
        assert services[i] !in services[..i];
        if services[i].removing && !IsAlive(services[i].state) {
          names := names + [services[i].config.name];
        } else {
          kept := kept + [services[i]];
          keptViews := keptViews + [views[i]];
        }
      }
      assert views[..|views|] == views;
    }

    // ----- shutdown

    method StopAll(now: Instant)
      requires Valid()
      modifies this, services, launcher
      ensures Valid()
      ensures View() == Spec.StopAll(old(View()), launcher.env, now)
    {
      shuttingDown := true;
      StopEach(now);
    }

    method StopEach(now: Instant)
      requires Valid()
      modifies this`views, services, launcher
      ensures Valid()
      ensures View() == StopFrom(old(View()), 0, launcher.env, now)
    {
      hide StopNext, Act;
      for i := 0 to |services|
        invariant Valid()
        invariant StopFrom(View(), i, launcher.env, now) == StopFrom(old(View()), 0, launcher.env, now)
      {
        StopIfFree(i, now);
      }
    }

    method StopIfFree(i: nat, now: Instant)
      requires Valid() && i < |services|
      modifies this`views, services[i], launcher
      ensures Valid()
      ensures View() == StopNext(old(View()), i, launcher.env, now)
    {
      hide Act;
      if !services[i].state.Stopping? && !services[i].state.Stopped? {
        var free := DependentsStopped(services[i].config.name);
        if free {
          var result := StopOne(i, now);
        }
      }
    }

    method KillAll(now: Instant)
      requires Valid()
      modifies this, services, launcher
      ensures Valid()
      ensures View() == Spec.KillAll(old(View()), launcher.env, now)
    {
      shuttingDown := true;
      KillEach(now);
    }

    method KillEach(now: Instant)
      requires Valid()
      modifies this`views, services, launcher
      ensures Valid()
      ensures View() == KillFrom(old(View()), 0, launcher.env, now)
    {
      hide Act;
      for i := 0 to |services|
        invariant Valid()
        invariant KillFrom(View(), i, launcher.env, now) == KillFrom(old(View()), 0, launcher.env, now)
      {
        KillOne(i, now);
      }
    }

    method AllStopped() returns (stopped: bool)
      requires Valid()
      ensures stopped == Spec.AllStopped(View())
    {
      for i := 0 to |services|
        invariant forall j :: 0 <= j < i ==> !IsAlive(views[j].state)
      {
        if IsAlive(services[i].state) {
          assert IsAlive(views[i].state);
          return false;
        }
      }
      return true;
    }

    /** `readings` gives what each process reports. */
    method Sample(readings: nat -> UsageSample, now: Instant)
      requires Valid()
      modifies this`views, services, launcher
      ensures Valid()
      ensures View() == SampleFrom(old(View()), 0, readings, launcher.env, now)
    {
      hide SampleNext, Act;
      for i := 0 to |services|
        invariant Valid()
        invariant SampleFrom(View(), i, readings, launcher.env, now) ==
                  SampleFrom(old(View()), 0, readings, launcher.env, now)
      {
        SampleOne(i, readings, now);
      }
    }

    // ----- configuration

    method Load(configs: seq<ServiceConfig>)
      requires Valid()
      modifies this
      ensures Valid() && fresh(services)
      ensures View() == old(View()).(services := NewServices(configs))
    {
      services, views := [], [];
      for i := 0 to |configs|
        invariant Valid() && fresh(services)
        invariant removed == old(removed) && shuttingDown == old(shuttingDown)
        invariant views == NewServices(configs[..i])
      {
        assert configs[..i + 1][..i] == configs[..i];
        AddService(configs[i]);
      }
      assert configs[..|configs|] == configs;
    }

    method AddService(config: ServiceConfig)
      requires Valid()
      modifies this`services, this`views
      ensures Valid() && |services| == |old(services)| + 1 && services[..|services| - 1] == old(services)
      ensures fresh(services[|services| - 1])
      ensures views == old(views) + [NewService(config)]
    {
      var service := new Service(config, launcher);
      services := services + [service];
      views := views + [service.View()];
    }

    method ReplaceOne(i: nat, config: ServiceConfig, now: Instant)
      requires Valid() && i < |services|
      modifies this`views, services[i]
      ensures Valid() && View() == Act(old(View()), i, ReplaceOp(config), launcher.env, now).mgr
    {
      hide SvcInv, CtxFor;
      services[i].Replace(config);
      views := views[i := services[i].View()];
    }

    method ReaddOne(i: nat, now: Instant)
      requires Valid() && i < |services|
      modifies this`views, services[i]
      ensures Valid() && View() == Act(old(View()), i, ReaddOp, launcher.env, now).mgr
    {
      hide SvcInv, CtxFor;
      services[i].SetRemoving(false);
      views := views[i := services[i].View()];
    }

    method RetireOne(i: nat, now: Instant)
      requires Valid() && i < |services|
      modifies this`views, services[i], launcher
      ensures Valid() && View() == Act(old(View()), i, RetireOp, launcher.env, now).mgr
    {
      hide SvcInv, CtxFor, ServiceSpec.Stop, ServiceSpec.Tick, ServiceSpec.Start, ServiceSpec.Restart;
      hide KillNow, ServiceSpec.Heartbeat;
      services[i].Retire(now, CtxFor(View(), i, launcher.env, now));
      views := views[i := services[i].View()];
    }

    method Apply(configs: seq<ServiceConfig>, now: Instant) returns (summary: ReloadSummary)
      requires Valid()
      modifies this, services, launcher
      ensures Valid() && forall i :: 0 <= i < |services| ==> services[i] in old(services) || fresh(services[i])
      ensures Applied(View(), summary) == Spec.Apply(old(View()), configs, launcher.env, now)
    {
      hide Spec.MergeAll, RetireFrom, Spec.StartAdded;
      var added;
      added, summary := MergeAll(configs, now);
      summary := RetireAll(configs, summary, added, now);
      StartAdded(added, now);
    }

    method MergeAll(configs: seq<ServiceConfig>, now: Instant) returns (added: seq<string>, summary: ReloadSummary)
      requires Valid()
      modifies this`services, this`views, services
      ensures Valid() && forall i :: 0 <= i < |services| ==> services[i] in old(services) || fresh(services[i])
      ensures Merge(View(), added, summary) ==
              Spec.MergeAll(Merge(old(View()), [], ReloadSummary(0, 0, 0)), configs, launcher.env, now)
    {
      hide Spec.MergeOne;
      added, summary := [], ReloadSummary(0, 0, 0);
      for c := 0 to |configs|
        invariant Valid() && forall i :: 0 <= i < |services| ==> services[i] in old(services) || fresh(services[i])
        invariant Spec.MergeAll(Merge(View(), added, summary), configs[c..], launcher.env, now) ==
                  Spec.MergeAll(Merge(old(View()), [], ReloadSummary(0, 0, 0)), configs, launcher.env, now)
      {
        assert configs[c..][0] == configs[c] && configs[c..][1..] == configs[c + 1..];
        added, summary := MergeOne(configs[c], added, summary, now);
      }
    }

    method MergeOne(config: ServiceConfig, added: seq<string>, summary: ReloadSummary, now: Instant)
      returns (nowAdded: seq<string>, nowSummary: ReloadSummary)
      requires Valid()
      modifies this`services, this`views, services
      ensures Valid() && forall i :: 0 <= i < |services| ==> services[i] in old(services) || fresh(services[i])
      ensures Merge(View(), nowAdded, nowSummary) ==
              Spec.MergeOne(Merge(old(View()), added, summary), config, launcher.env, now)
    {
      hide Act;
      nowAdded, nowSummary := added, summary;
      var k := Find(config.name);
      if k == |services| {
        AddService(config);
        nowAdded := added + [config.name];
        nowSummary := summary.(added := summary.added + 1);
        return;
      }
      var readded := services[k].removing;
      var changed := services[k].config != config;
      if changed {
        ReplaceOne(k, config, now);
      }
      if readded {
        ReaddOne(k, now);
        nowAdded := added + [config.name];
        nowSummary := summary.(added := summary.added + 1);
      } else if changed {
        nowSummary := summary.(changed := summary.changed + 1);
      }
    }

    method RetireAll(configs: seq<ServiceConfig>, summary: ReloadSummary, ghost added: seq<string>, now: Instant)
      returns (nowSummary: ReloadSummary)
      requires Valid()
      modifies this`views, services, launcher
      ensures Valid()
      ensures Merge(View(), added, nowSummary) ==
              RetireFrom(Merge(old(View()), added, summary), configs, 0, launcher.env, now)
    {
      hide RetireNext;
      nowSummary := summary;
      for i := 0 to |services|
        invariant Valid()
        invariant RetireFrom(Merge(View(), added, nowSummary), configs, i, launcher.env, now) ==
                  RetireFrom(Merge(old(View()), added, summary), configs, 0, launcher.env, now)
      {
        nowSummary := RetireIfDropped(configs, i, nowSummary, added, now);
      }
    }

    method RetireIfDropped(configs: seq<ServiceConfig>, i: nat, summary: ReloadSummary, ghost added: seq<string>,
                           now: Instant)
      returns (nowSummary: ReloadSummary)
      requires Valid() && i < |services|
      modifies this`views, services[i], launcher
      ensures Valid()
      ensures Merge(View(), added, nowSummary) ==
              RetireNext(Merge(old(View()), added, summary), configs, i, launcher.env, now)
    {
      hide Act;
      nowSummary := summary;
      if !Listed(configs, services[i].config.name) && !services[i].removing {
        RetireOne(i, now);
        nowSummary := summary.(removed := summary.removed + 1);
      }
    }

    method StartAdded(added: seq<string>, now: Instant)
      requires Valid()
      modifies this`views, services, launcher
      ensures Valid()
      ensures View() == Spec.StartAdded(old(View()), added, launcher.env, now)
    {
      hide Spec.StartIfAutostart;
      for a := 0 to |added|
        invariant Valid()
        invariant Spec.StartAdded(View(), added[a..], launcher.env, now) ==
                  Spec.StartAdded(old(View()), added, launcher.env, now)
      {
        assert added[a..][0] == added[a] && added[a..][1..] == added[a + 1..];
        StartIfAutostart(added[a], now);
      }
    }

    method StartIfAutostart(name: string, now: Instant)
      requires Valid()
      modifies this`views, services, launcher
      ensures Valid()
      ensures View() == Spec.StartIfAutostart(old(View()), name, launcher.env, now)
    {
      hide Spec.StartWithDependencies;
      var k := Find(name);
      if k < |services| && services[k].config.autostart && !shuttingDown {
        var result, started := StartWithDependencies(k, now, false, []);
      }
    }
  }
}
