/**
 `executeTask` of the pod executor: create a job, poll it, list its pods, read and decode the log.
 The API server and the clock are the environment: each reply and each clock reading is given.
 Times are in nanoseconds.
 */
module PodTask {
  import opened Collections
  import opened CheckResults
  import opened CommandTransport

  const SECOND := 1_000_000_000
  const POLL_INTERVAL := 5 * SECOND
  const TIMEOUT := 300 * SECOND

  datatype Condition = Condition(conditionType: string, status: string)

  datatype JobRequest = JobRequest(name: string, machine: string, command: seq<string>)

  datatype CreateReply = Created | Refused(message: string)
  datatype GetReply = Job(conditions: seq<Condition>) | GetFailed(message: string)
  datatype ListReply = Pods(items: seq<string>) | ListFailed(message: string)
  datatype LogReply = Logs(text: string) | LogsFailed(message: string)

  datatype TaskError =
    | CreateError(message: string)
    | GetError(message: string)
    | TimedOut
    | ListError(message: string)
    | LogError(message: string)
    | DecodeError(message: string)

  datatype BatchResult = BatchResult(machine: string, error: Option<TaskError>, checkResults: seq<CheckResult>)

  /** Reading the first of no pods panics, and with it the whole process. */
  datatype Outcome = Returned(result: BatchResult) | Panicked

  /** What the task will see: `get(k)` answers the k-th status read; `clock(0)` is the start time and
      `clock(k + 1)` the time read after it. */
  datatype Cluster = Cluster(
    create: JobRequest -> CreateReply,
    get: nat -> GetReply,
    clock: nat -> int,
    list: ListReply,
    logs: LogReply,
    decode: string -> Decoded)

  /** Each turn of the polling loop sleeps five seconds. */
  ghost predicate ClockAdvances(clock: nat -> int) {
    forall k: nat :: clock(k) + POLL_INTERVAL <= clock(k + 1)
  }

  // ----- isJobCompleted

  predicate IsComplete(c: Condition) {
    c.conditionType == "Complete" && c.status == "True"
  }

  predicate Completed(conditions: seq<Condition>) {
    exists k :: 0 <= k < |conditions| && IsComplete(conditions[k])
  }

  method IsJobCompleted(conditions: seq<Condition>) returns (done: bool)
    ensures done <==>
      exists k :: 0 <= k < |conditions| && conditions[k].conditionType == "Complete" && conditions[k].status == "True"
  {
    for i := 0 to |conditions|
      invariant forall k :: 0 <= k < i ==> !IsComplete(conditions[k])
    {
      if conditions[i].conditionType == "Complete" && conditions[i].status == "True" {
        return true;
      }
    }
    return false;
  }

  // ----- the job

  function JobName(runName: string, machine: string): string {
    runName + "-" + machine
  }

  /** For one run the job name identifies the machine. */
  lemma JobNameInjective(runName: string, m1: string, m2: string)
    ensures JobName(runName, m1) == JobName(runName, m2) <==> m1 == m2
  {
    var n := |runName| + 1;
    assert JobName(runName, m1)[n..] == m1;
    assert JobName(runName, m2)[n..] == m2;
  }

  function JobFor(runName: string, machine: string, checkers: seq<string>, hostMode: bool): JobRequest {
    JobRequest(JobName(runName, machine), machine,
               if hostMode then [RUN_AS_HOST] + PodCommand(checkers) else PodCommand(checkers))
  }

  /** The request names the machine, and what it makes run there collects exactly these checkers: the
      command itself in container mode, and what run-as-host makes of it in host mode. */
  lemma JobRunsCheckers(runName: string, machine: string, checkers: seq<string>, hostMode: bool)
    ensures var job := JobFor(runName, machine, checkers, hostMode);
      && job.machine == machine && job.name == runName + "-" + machine
      && (!hostMode ==>
            (RunsKdebug(job.command, "/kdebug", Options(checkers, "json", "none", "", true)) <==> NoOptions(checkers)))
      && (hostMode ==> job.command != [] && job.command[0] == "/run-as-host")
      && (hostMode && OrdinaryNames(checkers) ==>
            (RunsKdebug(RunByHost(job.command), "/tmp/kdebug", Options(checkers, "json", "none", OUTPUT_FILE, true))
             <==> AllWords(checkers) && NoOptions(checkers)))
  {
    ContainerTransport(checkers);
    if OrdinaryNames(checkers) {
      HostTransport(checkers);
    }
  }

  // ----- polling

  predicate SawComplete(c: Cluster, k: nat) {
    c.get(k).Job? && Completed(c.get(k).conditions)
  }

  predicate TimeIsUp(c: Cluster, k: nat) {
    c.clock(k + 1) - c.clock(0) >= TIMEOUT
  }

  /** After status read k the loop goes round again. */
  predicate KeepsWaiting(c: Cluster, k: nat) {
    c.get(k).Job? && !SawComplete(c, k) && !TimeIsUp(c, k)
  }

  lemma {:induction false} ClockBound(clock: nat -> int, k: nat)
    requires ClockAdvances(clock)
    ensures clock(0) + k * POLL_INTERVAL <= clock(k)
  {
    if k > 0 {
      ClockBound(clock, k - 1);
    }
  }

  /** Sixty sleeps use up the timeout. */
  lemma WaitIsBounded(c: Cluster, k: nat)
    requires ClockAdvances(c.clock) && KeepsWaiting(c, k)
    ensures k < 59
  {
    ClockBound(c.clock, k + 1);
  }

  /** What the steps after the job completed make of it. */
  function AfterCompletion(machine: string, c: Cluster): Outcome {
    match c.list
    case ListFailed(m) => Returned(BatchResult(machine, Some(ListError(m)), []))
    case Pods(items) =>
      if items == [] then Panicked
      else match c.logs
        case LogsFailed(m) => Returned(BatchResult(machine, Some(LogError(m)), []))
        case Logs(text) =>
          var d := c.decode(text);
          Returned(BatchResult(machine, if d.error.Some? then Some(DecodeError(d.error.value)) else None, d.checks))
  }

  /** The status read at which polling stops. */
  ghost predicate StopsAt(c: Cluster, k: nat) {
    !KeepsWaiting(c, k) && forall j: nat :: j < k ==> KeepsWaiting(c, j)
  }

  lemma StopIsUnique(c: Cluster, k1: nat, k2: nat)
    requires StopsAt(c, k1) && StopsAt(c, k2)
    ensures k1 == k2
  {
  }

  /** What `ExecuteTask` does, as a relation between the environment and the outcome. */
  ghost predicate TaskOutcome(job: JobRequest, c: Cluster, outcome: Outcome) {
    match c.create(job)
    case Refused(m) => outcome == Returned(BatchResult(job.machine, Some(CreateError(m)), []))
    case Created => exists k :: StopsAt(c, k) && outcome == Concluded(job.machine, c, k)
  }

  ghost function Concluded(machine: string, c: Cluster, k: nat): Outcome {
    match c.get(k)
    case GetFailed(m) => Returned(BatchResult(machine, Some(GetError(m)), []))
    case Job(_) =>
      if SawComplete(c, k) then AfterCompletion(machine, c)
      else Returned(BatchResult(machine, Some(TimedOut), []))
  }

  /** The polling loop. `polls` counts status reads, the last of which ended it: the job was complete, or
      the read failed, or the time was up. */
  method WaitForJob(c: Cluster) returns (failed: Option<TaskError>, polls: nat)
    requires ClockAdvances(c.clock)
    ensures 1 <= polls <= 60 && StopsAt(c, polls - 1)
    ensures forall k :: 0 <= k < polls - 1 ==> c.get(k).Job? && !Completed(c.get(k).conditions)
    ensures forall k :: 1 <= k < polls ==> c.clock(k) - c.clock(0) < 300 * SECOND
    ensures failed.None? <==> c.get(polls - 1).Job? && Completed(c.get(polls - 1).conditions)
    ensures forall m :: failed == Some(GetError(m)) <==> c.get(polls - 1) == GetFailed(m)
    ensures failed == Some(TimedOut) <==> c.get(polls - 1).Job? && !Completed(c.get(polls - 1).conditions)
    ensures failed == Some(TimedOut) ==> c.clock(polls) - c.clock(0) >= 300 * SECOND
  {
    polls := 0;
    var startTime := c.clock(0);
    while true
      invariant polls < 60
      invariant forall k :: 0 <= k < polls ==> KeepsWaiting(c, k)
      invariant forall k :: 0 <= k < polls ==> c.get(k).Job? && !Completed(c.get(k).conditions)
      invariant forall k :: 1 <= k < polls + 1 ==> c.clock(k) - c.clock(0) < 300 * SECOND
      decreases 60 - polls
    {
      var reply := c.get(polls);
      polls := polls + 1;
      if reply.GetFailed? {
        return Some(GetError(reply.message)), polls;
      }
      var done := IsJobCompleted(reply.conditions);
      if done {
        return None, polls;
      }
      if c.clock(polls) - startTime >= TIMEOUT {
        return Some(TimedOut), polls;
      }
      WaitIsBounded(c, polls - 1);
    }
  }

  /** The task ended with this error in its result. */
  predicate FailedWith(outcome: Outcome, error: TaskError) {
    outcome.Returned? && outcome.result.error == Some(error)
  }

  /** Polling ended, after this many status reads, with the job complete. */
  predicate FoundComplete(c: Cluster, polls: nat) {
    polls > 0 && c.get(polls - 1).Job? && Completed(c.get(polls - 1).conditions)
  }

  /** And then a pod was found and its logs were read. */
  predicate GotLogs(c: Cluster, polls: nat) {
    FoundComplete(c, polls) && c.list.Pods? && c.list.items != [] && c.logs.Logs?
  }

  /** The whole task. Each error is there exactly for its cause, and the check results are those decoded
      exactly when the logs of a completed job were read. */
  method ExecuteTask(runName: string, machine: string, checkers: seq<string>, hostMode: bool, c: Cluster)
    returns (outcome: Outcome, polls: nat)
    requires ClockAdvances(c.clock)
    ensures TaskOutcome(JobFor(runName, machine, checkers, hostMode), c, outcome)
    ensures polls <= 60
    ensures polls == 0 <==> c.create(JobFor(runName, machine, checkers, hostMode)).Refused?
    ensures polls > 0 ==> StopsAt(c, polls - 1)
    ensures forall k :: 0 <= k < polls - 1 ==> c.get(k).Job? && !Completed(c.get(k).conditions)
    ensures forall k :: 1 <= k < polls ==> c.clock(k) - c.clock(0) < 300 * SECOND
    ensures outcome.Panicked? <==> FoundComplete(c, polls) && c.list == Pods([])
    ensures outcome.Returned? ==>
      && outcome.result.machine == machine
      && outcome.result.checkResults == (if GotLogs(c, polls) then c.decode(c.logs.text).checks else [])
      && (outcome.result.error.None? <==> GotLogs(c, polls) && c.decode(c.logs.text).error.None?)
    ensures forall m :: FailedWith(outcome, CreateError(m)) <==>
      c.create(JobFor(runName, machine, checkers, hostMode)) == Refused(m)
    ensures forall m :: FailedWith(outcome, GetError(m)) <==> polls > 0 && c.get(polls - 1) == GetFailed(m)
    ensures FailedWith(outcome, TimedOut) <==> polls > 0 && c.get(polls - 1).Job? && !FoundComplete(c, polls)
    ensures FailedWith(outcome, TimedOut) ==> c.clock(polls) - c.clock(0) >= 300 * SECOND
    ensures forall m :: FailedWith(outcome, ListError(m)) <==> FoundComplete(c, polls) && c.list == ListFailed(m)
    ensures forall m :: FailedWith(outcome, LogError(m)) <==>
      FoundComplete(c, polls) && c.list.Pods? && c.list.items != [] && c.logs == LogsFailed(m)
    ensures forall m :: FailedWith(outcome, DecodeError(m)) <==>
      GotLogs(c, polls) && c.decode(c.logs.text).error == Some(m)
  {
    var cmd := BuildPodCommand(checkers);
    if hostMode {
      cmd := [RUN_AS_HOST] + cmd;
    }
    var created := c.create(JobRequest(JobName(runName, machine), machine, cmd));
    if created.Refused? {
      return Returned(BatchResult(machine, Some(CreateError(created.message)), [])), 0;
    }

    var failed;
    failed, polls := WaitForJob(c);
    if failed.Some? {
      outcome := Returned(BatchResult(machine, failed, []));
      return;
    }

    match c.list
    case ListFailed(m) =>
      outcome := Returned(BatchResult(machine, Some(ListError(m)), []));
    case Pods(items) =>
      if items == [] {
        outcome := Panicked;
        return;
      }
      match c.logs {
        case LogsFailed(m) =>
          outcome := Returned(BatchResult(machine, Some(LogError(m)), []));
        case Logs(text) =>
          var decoded := c.decode(text);
          outcome := Returned(BatchResult(machine, None, decoded.checks));
          if decoded.error.Some? {
            outcome := Returned(BatchResult(machine, Some(DecodeError(decoded.error.value)), decoded.checks));
          }
      }
  }

  /** A result without error: the job was created, some read, with no failed read and no timeout
      before it, showed it complete, and every later stage succeeded. Exactly then. */
  lemma CleanExactly(job: JobRequest, c: Cluster, outcome: Outcome)
    requires ClockAdvances(c.clock) && TaskOutcome(job, c, outcome)
    ensures outcome.Returned? && outcome.result.error.None? <==>
      && c.create(job).Created?
      && (exists k :: StopsAt(c, k) && SawComplete(c, k))
      && c.list.Pods? && c.list.items != [] && c.logs.Logs? && c.decode(c.logs.text).error.None?
    ensures outcome.Panicked? <==>
      && c.create(job).Created?
      && (exists k :: StopsAt(c, k) && SawComplete(c, k))
      && c.list == Pods([])
    ensures outcome.Returned? ==> outcome.result.machine == job.machine
  {
    if c.create(job).Created? {
      var k :| StopsAt(c, k) && outcome == Concluded(job.machine, c, k);
      if j :| StopsAt(c, j) && SawComplete(c, j) {
        StopIsUnique(c, j, k);
      }
    }
  }

  /** A job never seen complete gives an error, for this machine. */
  lemma NeverCompleteIsError(job: JobRequest, c: Cluster, outcome: Outcome)
    requires ClockAdvances(c.clock) && TaskOutcome(job, c, outcome)
    requires forall k: nat :: k < 60 ==> !SawComplete(c, k)
    ensures outcome.Returned? && outcome.result.error.Some? && outcome.result.machine == job.machine
  {
    CleanExactly(job, c, outcome);
    if k :| StopsAt(c, k) && SawComplete(c, k) {
      if k >= 60 {
        assert KeepsWaiting(c, 59);
        WaitIsBounded(c, 59);
      }
    }
  }

  /** The bound of sixty status reads is reached: on time, with a job that never completes. */
  lemma BoundIsReached()
    ensures exists c: Cluster :: ClockAdvances(c.clock) && StopsAt(c, 59)
  {
    var c := Cluster(_ => Created, _ => Job([]), (k: nat) => k * POLL_INTERVAL,
                     Pods([]), Logs(""), _ => Decoded([], None));
    assert ClockAdvances(c.clock);
    assert StopsAt(c, 59);
  }
}
