/**
 `Execute` and its caller `runBatch` in imperative form. The goroutines share one `Batch` object;
 whenever the collector waits for a result, a scheduler lets other goroutines take any steps they
 can, so the contracts below hold for every interleaving the scheduler may choose.
 */
module BatchExecute {
  import opened Collections
  import opened BatchPool
  import opened BatchRuns

  /** What the collector tells about progress: `OnResult` once per result. */
  class Reporter<R> {
    var seen: seq<R>

    constructor ()
      ensures seen == []
    {
      seen := [];
    }

    method OnResult(result: R)
      modifies this
      ensures seen == old(seen) + [result]
    {
      seen := seen + [result];
    }
  }

  lemma RunAhead<R>(cfg: Config, body: TaskBody<R>, steps: seq<Step<R>>, trace: seq<State<R>>, step: Step<R>)
    requires IsRun(cfg, body, steps, trace) && Enabled(cfg, body, trace[|steps|], step)
    ensures step.Send? ==> !trace[|steps|].closed
    ensures StepsLeft(Apply(cfg, body, trace[|steps|], step)) < StepsLeft(trace[|steps|])
  {
    RunKeepsInv(cfg, body, steps, trace, |steps|);
    EveryStepCountsOnce(cfg, body, trace[|steps|], step);
  }

  /** The two channels, the goroutines' positions and the collector's results of one `Execute`. */
  class Batch<R(!new)> {
    const cfg: Config
    const body: TaskBody<R>
    var pending: set<nat>
    var taskChan: seq<nat>
    var workers: seq<Worker<R>>
    var resultChan: seq<Done<R>>
    var collected: seq<Done<R>>
    var closed: bool
    var taken: seq<nat>  // history only: nothing is decided by it
    ghost var steps: seq<Step<R>>
    ghost var trace: seq<State<R>>

    function View(): State<R>
      reads this
    {
      State(pending, taskChan, taken, workers, resultChan, collected, closed, false)
    }

    /** The object is where some run of the pool leads. */
    ghost predicate Valid()
      reads this
    {
      IsRun(cfg, body, steps, trace) && trace[|steps|] == View()
    }

    constructor (machines: seq<string>, concurrency: nat, body: TaskBody<R>)
      ensures Valid() && View() == Init(cfg)
      ensures cfg == Config(machines, concurrency) && this.body == body
      ensures steps == []
    {
      cfg := Config(machines, concurrency);
      this.body := body;
      pending := SetBelow(|machines|);
      taskChan, taken, resultChan, collected, closed := [], [], [], [], false;
      workers := seq(concurrency, _ => Idle);
      steps, trace := [], [Init(Config(machines, concurrency))];
    }

    predicate Can(step: Step<R>)
      reads this
    {
      Enabled(cfg, body, View(), step)
    }

    /** One step of a sender or a worker. */
    method Advance(step: Step<R>)
      requires Valid() && Can(step) && !step.Collect? && !step.Close?
      modifies this
      ensures Valid()
      ensures View() == Apply(cfg, body, old(View()), step)
      ensures steps == old(steps) + [step]
    {
      RunAhead(cfg, body, steps, trace, step);
      RunExtends(cfg, body, steps, trace, step);
      trace := trace + [Apply(cfg, body, View(), step)];
      steps := steps + [step];
      match step
      case Send(i) =>
        pending, taskChan := pending - {i}, taskChan + [i];
      case Recv(w) =>
        var task := taskChan[0];
        taskChan, taken := taskChan[1..], taken + [task];
        workers := workers[w := Executing(task)];
      case Finish(w, r) =>
        workers := workers[w := Holding(Done(workers[w].task, r))];
      case Put(w) =>
        resultChan := resultChan + [workers[w].done];
        workers := workers[w := Idle];
      case Exit(w) =>
        workers := workers[w := Exited];
    }

    predicate GoroutineStep(o: Option<Step<R>>)
      reads this
    {
      o.Some? && !o.value.Collect? && !o.value.Close? && Can(o.value)
    }

    /** Picks a goroutine to run, or, once a result is ready, possibly none. */
    method Schedule() returns (next: Option<Step<R>>)
      requires Valid() && Returns(body) && cfg.concurrency >= 1
      requires |collected| < |cfg.machines| && !closed
      ensures next.Some? ==> GoroutineStep(next)
      ensures next.None? ==> resultChan != []
    {
      RunKeepsInv(cfg, body, steps, trace, |steps|);
      Progress(cfg, body, View());
      if resultChan == [] {
        var step :| Enabled(cfg, body, View(), step);
        next := Some(step);
      } else {
        assert !GoroutineStep(None);
        next :| next.None? || GoroutineStep(next);
      }
    }

    /** The collector's receive: other goroutines run, for as long as the scheduler likes, until a
        result can be taken. */
    method Receive() returns (result: R)
      requires Valid() && Returns(body) && cfg.concurrency >= 1
      requires |collected| < |cfg.machines| && !closed
      modifies this
      ensures Valid() && !closed
      ensures Results(collected) == old(Results(collected)) + [result]
    {
      var next := Schedule();
      while next.Some?
        invariant Valid() && !closed && collected == old(collected)
        invariant next.Some? ==> GoroutineStep(next)
        invariant next.None? ==> resultChan != []
        decreases StepsLeft(View()), next.Some?
      {
        RunAhead(cfg, body, steps, trace, next.value);
        Advance(next.value);
        next := Schedule();
      }
      RunExtends(cfg, body, steps, trace, Collect);
      trace := trace + [Apply(cfg, body, View(), Step<R>.Collect)];
      steps := steps + [Collect];
      result := resultChan[0].result;
      resultChan, collected := resultChan[1..], collected + [resultChan[0]];
      assert Results(collected) == old(Results(collected)) + [result];
    }

    /** close(taskChan) */
    method CloseTasks()
      requires Valid() && !closed && |collected| == |cfg.machines|
      modifies this
      ensures Valid() && closed && collected == old(collected)
    {
      RunExtends(cfg, body, steps, trace, Close);
      trace := trace + [Apply(cfg, body, View(), Step<R>.Close)];
      steps := steps + [Close];
      closed := true;
    }
  }

  /** The results answer the machines one for one, in some order. */
  ghost predicate AnswersAll<R>(machines: seq<string>, body: TaskBody<R>, results: seq<R>) {
    exists order :: AnswersInOrder(machines, body, results, order)
  }

  method Execute<R(!new)>(machines: seq<string>, concurrency: nat, body: TaskBody<R>, reporter: Reporter<R>)
    returns (results: seq<R>, batch: Batch<R>)
    requires Returns(body) && concurrency >= 1
    modifies reporter
    ensures AnswersAll(machines, body, results)
    ensures |results| == |machines|
    ensures reporter.seen == old(reporter.seen) + results
    ensures fresh(batch) && batch.Valid() && batch.closed && results == Results(batch.collected)
    ensures batch.cfg == Config(machines, concurrency) && batch.body == body
  {
    batch := new Batch(machines, concurrency, body);
    results := [];
    for i := 0 to |machines|
      invariant batch.Valid() && !batch.closed && fresh(batch)
      invariant batch.cfg == Config(machines, concurrency) && batch.body == body
      invariant |results| == i && results == Results(batch.collected)
      invariant reporter.seen == old(reporter.seen) + results
    {
      var result := batch.Receive();
      results := results + [result];
      reporter.OnResult(result);
    }
    batch.CloseTasks();
    RunKeepsInv(batch.cfg, body, batch.steps, batch.trace, |batch.steps|);
    ClosedMeansAllAnswered(batch.cfg, body, batch.View());
    assert AnswersInOrder(machines, body, results, Tasks(batch.collected));
  }

  datatype NamespaceReply = NamespaceCreated | NamespaceExists | NamespaceFailed(message: string)

  datatype BatchOutcome<+R> = BatchDone(results: seq<R>) | BatchFailed(message: string)

  /** The pod executor's `Execute`: nothing is run when its namespace cannot be made sure of. */
  method PodExecute<R(!new)>(namespace: NamespaceReply, machines: seq<string>, concurrency: nat,
                             body: TaskBody<R>, reporter: Reporter<R>)
    returns (outcome: BatchOutcome<R>)
    requires Returns(body) && concurrency >= 1
    modifies reporter
    ensures forall m :: outcome == BatchFailed(m) <==> namespace == NamespaceFailed(m)
    ensures outcome.BatchFailed? ==> reporter.seen == old(reporter.seen)
    ensures outcome.BatchDone? ==>
      && AnswersAll(machines, body, outcome.results)
      && reporter.seen == old(reporter.seen) + outcome.results
  {
    if namespace.NamespaceFailed? {
      outcome := BatchFailed(namespace.message);
    } else {
      var results, _ := Execute(machines, concurrency, body, reporter);
      outcome := BatchDone(results);
    }
  }

  /** The caller: whatever number the user gives, at least one worker is started. */
  method RunBatch<R(!new)>(machines: seq<string>, requested: int, body: TaskBody<R>, reporter: Reporter<R>)
    returns (results: seq<R>, batch: Batch<R>)
    requires Returns(body)
    modifies reporter
    ensures AnswersAll(machines, body, results)
    ensures reporter.seen == old(reporter.seen) + results
    ensures batch.Valid() && batch.closed && DeadlockFree(batch.cfg, body)
    ensures batch.cfg.machines == machines
    ensures batch.cfg.concurrency == if requested > 0 then requested else 1
  {
    var concurrency := 1;
    if requested > 0 {
      concurrency := requested;
    }
    results, batch := Execute(machines, concurrency, body, reporter);
    DeadlockFreeIffWorkers(batch.cfg, body);
  }
}
