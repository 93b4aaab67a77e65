/** `executeTask` of the SSH executor: connect, copy the binary, run it, decode what it prints. */
module SshTask {
  import opened Collections
  import opened CheckResults
  import opened CommandTransport

  datatype Step = Ok | StepFailed(message: string)

  datatype OutputReply = Output(text: string) | RunFailed(message: string)

  /** What the remote side will answer; the output depends on the command line. */
  datatype Remote = Remote(connect: Step, copy: Step, session: Step,
                           output: string -> OutputReply, unmarshal: string -> Decoded)

  datatype SshError =
    | ConnectError(message: string)
    | CopyError(message: string)
    | SessionError(message: string)
    | RunError(message: string)
    | UnmarshalError(message: string)

  datatype SshResult = SshResult(machine: string, error: Option<SshError>, checkResults: seq<CheckResult>)

  predicate Reached(remote: Remote) {
    remote.connect.Ok? && remote.copy.Ok? && remote.session.Ok?
  }

  /** The machine is always the task's. Without error exactly when every stage succeeded on the command
      line for these checkers; otherwise the first stage that failed is named with its message, and check
      results are there only if the output was reached. */
  method ExecuteTask(machine: string, checkers: seq<string>, remote: Remote) returns (r: SshResult)
    ensures r.machine == machine
    ensures r.checkResults ==
      if Reached(remote) && remote.output(SshCommand(checkers)).Output?
      then remote.unmarshal(remote.output(SshCommand(checkers)).text).checks else []
    ensures forall m :: r.error == Some(ConnectError(m)) <==> remote.connect == StepFailed(m)
    ensures forall m :: r.error == Some(CopyError(m)) <==> remote.connect.Ok? && remote.copy == StepFailed(m)
    ensures forall m :: r.error == Some(SessionError(m)) <==>
      remote.connect.Ok? && remote.copy.Ok? && remote.session == StepFailed(m)
    ensures forall m :: r.error == Some(RunError(m)) <==>
      Reached(remote) && remote.output(SshCommand(checkers)) == RunFailed(m)
    ensures forall m :: r.error == Some(UnmarshalError(m)) <==>
      && Reached(remote) && remote.output(SshCommand(checkers)).Output?
      && remote.unmarshal(remote.output(SshCommand(checkers)).text).error == Some(m)
    ensures r.error.None? <==>
      && Reached(remote) && remote.output(SshCommand(checkers)).Output?
      && remote.unmarshal(remote.output(SshCommand(checkers)).text).error.None?
  {
    r := SshResult(machine, None, []);
    if remote.connect.StepFailed? {
      r := r.(error := Some(ConnectError(remote.connect.message)));
      return;
    }
    if remote.copy.StepFailed? {
      r := r.(error := Some(CopyError(remote.copy.message)));
      return;
    }
    if remote.session.StepFailed? {
      r := r.(error := Some(SessionError(remote.session.message)));
      return;
    }
    var cmd := BuildSshCommand(checkers);
    var output := remote.output(cmd);
    if output.RunFailed? {
      r := r.(error := Some(RunError(output.message)));
      return;
    }
    var decoded := remote.unmarshal(output.text);
    r := r.(checkResults := decoded.checks);
    if decoded.error.Some? {
      r := r.(error := Some(UnmarshalError(decoded.error.value)));
    }
  }
}
