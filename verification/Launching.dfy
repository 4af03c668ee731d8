/**
 The operating system as a service sees it: programs are launched, polled, asked to stop
 and killed. What each launch and each poll answers is arbitrary; a ghost log records
 every interaction, and statements about whole runs are statements about that log.
 */
module Launching {
  import opened Wrappers
  import opened ServiceConfigs

  /** The two clocks: steady time in milliseconds for timers, wall time for reports. */
  datatype Instant = Instant(steady: int, wallNs: int)

  datatype ExitStatus = ExitStatus(code: int, signal: int)

  predicate ExitedCleanly(status: ExitStatus) {
    status.code == 0 && status.signal == 0
  }

  function WireExitCode(status: ExitStatus): int {
    if status.signal != 0 then -status.signal else status.code
  }

  /** A running process. The id tells launches apart; the system may reuse a pid. */
  datatype Child = Child(id: nat, pid: int)

  /** What the n-th interaction answers: the pid of a launch, if it worked, or the status of an exited process. */
  datatype Answer = Answer(pid: Option<int>, exit: Option<ExitStatus>)

  type Env = nat -> Answer

  datatype Event =
    | LaunchRefused(name: string)
      // `running` names every service in state Running at the moment of the launch.
    | Launched(id: nat, name: string, dependsOn: seq<string>, running: set<string>)
    | Polled(id: nat)
    | Exited(id: nat)
      // `deadline` is when the stop timeout ends; `kill` says the stop signal itself was KILL;
      // `dependents` names every live service that depended on this one at that moment; `silence`
      // says that lost heartbeats were the reason.
    | StopRequested(id: nat, deadline: int, kill: bool, dependents: set<string>, silence: bool)
    | Escalated(id: nat, at: int)
    | Killed(id: nat)

  type Log = seq<Event>

  class Launcher {
    const env: Env
    var calls: nat
    ghost var log: Log

    ghost predicate Valid()
      reads this
    {
      calls == |log|
    }

    constructor (env: Env)
      ensures Valid() && this.env == env && log == []
    {
      this.env := env;
      calls := 0;
      log := [];
    }

    method Launch(name: string, ghost dependsOn: seq<string>, ghost running: set<string>)
      returns (started: Option<Child>)
      requires Valid()
      modifies this
      ensures Valid()
      ensures match env(|old(log)|).pid
              case Some(pid) =>
                started == Some(Child(|old(log)|, pid)) &&
                log == old(log) + [Launched(|old(log)|, name, dependsOn, running)]
              case None => started.None? && log == old(log) + [LaunchRefused(name)]
    {
      match env(calls).pid {
        case Some(pid) =>
          started := Some(Child(calls, pid));
          log := log + [Launched(|log|, name, dependsOn, running)];
        case None =>
          started := None;
          log := log + [LaunchRefused(name)];
      }
      calls := calls + 1;
    }

    method Poll(child: Child) returns (exit: Option<ExitStatus>)
      requires Valid()
      modifies this
      ensures Valid()
      ensures exit == env(|old(log)|).exit
      ensures log == old(log) + [if exit.Some? then Exited(child.id) else Polled(child.id)]
    {
      exit := env(calls).exit;
      log := log + [if exit.Some? then Exited(child.id) else Polled(child.id)];
      calls := calls + 1;
    }

    method RequestStop(child: Child, signal: StopSignal, ghost deadline: int, ghost dependents: set<string>,
                       ghost silence: bool)
      requires Valid()
      modifies this
      ensures Valid()
      ensures log == old(log) + [StopRequested(child.id, deadline, signal.Kill?, dependents, silence)]
    {
      log := log + [StopRequested(child.id, deadline, signal.Kill?, dependents, silence)];
      calls := calls + 1;
    }

    /** Kill after the stop deadline. */
    method Escalate(child: Child, ghost at: int)
      requires Valid()
      modifies this
      ensures Valid()
      ensures log == old(log) + [Escalated(child.id, at)]
    {
      log := log + [Escalated(child.id, at)];
      calls := calls + 1;
    }

    /** Kill at once, on request. */
    method Kill(child: Child)
      requires Valid()
      modifies this
      ensures Valid()
      ensures log == old(log) + [Killed(child.id)]
    {
      log := log + [Killed(child.id)];
      calls := calls + 1;
    }
  }
}
