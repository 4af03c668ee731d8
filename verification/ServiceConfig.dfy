/** Settings of one service, as the configuration file gives them. */
module ServiceConfigs {
  datatype RestartMode = Never | OnFailure | Always

  datatype OutputMode = Auto | Journal | Inherit | Null | File

  datatype StopSignal = Terminate | Interrupt | Hangup | Quit | Kill | User1 | User2

  datatype UnhealthyAction = LeaveAlone | RestartIt

  datatype EnvironmentVariable = EnvironmentVariable(name: string, value: string)

  // Durations are milliseconds, except restartWindow, which is in seconds. The parser
  // accepts none below zero.
  datatype ServiceConfig = ServiceConfig(
    name: string,
    description: string,
    binary: string,
    arguments: seq<string>,
    workingDirectory: string,
    environment: seq<EnvironmentVariable>,
    autostart: bool,
    restart: RestartMode,
    restartDelay: nat,
    restartDelayMax: nat,
    maxRestarts: nat,
    restartWindow: nat,
    startGrace: nat,
    stopSignal: StopSignal,
    stopTimeout: nat,
    heartbeatInterval: nat,
    heartbeatTolerance: nat,
    unhealthyAction: UnhealthyAction,
    dependsOn: seq<string>,
    output: OutputMode,
    outputPath: string,
    memoryMax: nat,
    cpuMaxPercent: nat)
}
