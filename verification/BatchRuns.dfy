/** What holds over whole runs of the worker pool: progress, exact length, results, order, bounds. */
module BatchRuns {
  import opened Collections
  import opened BatchPool

  // ----- termination

  /** Steps left: five per unsent task, four per queued, three per executing, two per held, one per
      result in the channel, one for the close and one exit per live worker. */
  function StepsLeft<R>(s: State<R>): nat {
    5 * |s.pending| + 4 * |s.taskChan| + WorkersCost(s.workers) + |s.resultChan| + if s.closed then 0 else 1
  }

  lemma StepCost<R>(cfg: Config, body: TaskBody<R>, s: State<R>, step: Step<R>)
    requires Enabled(cfg, body, s, step) && (step.Send? ==> !s.closed)
    ensures StepsLeft(Apply(cfg, body, s, step)) + 1 == StepsLeft(s)
  {
    var t := Apply(cfg, body, s, step);
    if step.Send? {
      assert s.pending == t.pending + {step.task};
    } else if !step.Collect? && !step.Close? {
      WorkersCostUpdate(s.workers, step.worker, t.workers[step.worker]);
    }
  }

  lemma EveryStepCountsOnce<R>(cfg: Config, body: TaskBody<R>, s: State<R>, step: Step<R>)
    requires Inv(cfg, body, s) && Enabled(cfg, body, s, step)
    ensures step.Send? ==> !s.closed
    ensures StepsLeft(Apply(cfg, body, s, step)) + 1 == StepsLeft(s)
  {
    if step.Send? {
      SendKeepsInv(cfg, body, s, step.task);
    }
    StepCost(cfg, body, s, step);
  }

  lemma StepsAtStart<R>(cfg: Config)
    ensures StepsLeft(Init<R>(cfg)) == 5 * |cfg.machines| + cfg.concurrency + 1
  {
    AllIdle<R>(cfg.concurrency);
    SetBelowSize(|cfg.machines|);
  }

  lemma RunStepCounts<R>(cfg: Config, body: TaskBody<R>, steps: seq<Step<R>>, trace: seq<State<R>>, k: nat)
    requires IsRun(cfg, body, steps, trace) && k < |steps|
    ensures StepsLeft(trace[k+1]) + 1 == StepsLeft(trace[k])
  {
    RunKeepsInv(cfg, body, steps, trace, k);
    EveryStepCountsOnce(cfg, body, trace[k], steps[k]);
  }

  lemma {:induction false} StepsLeftAlongRun<R>(
    cfg: Config, body: TaskBody<R>, steps: seq<Step<R>>, trace: seq<State<R>>, k: nat)
    requires IsRun(cfg, body, steps, trace) && k < |trace|
    ensures StepsLeft(trace[k]) + k == 5 * |cfg.machines| + cfg.concurrency + 1
  {
    if k == 0 {
      StepsAtStart<R>(cfg);
    } else {
      StepsLeftAlongRun(cfg, body, steps, trace, k - 1);
      RunStepCounts(cfg, body, steps, trace, k - 1);
    }
  }

  // ----- progress

  /** `executeTask` returns, whatever the machine. */
  ghost predicate Returns<R(!new)>(body: TaskBody<R>) {
    forall m :: HasAnswer(body, m)
  }

  ghost predicate HasAnswer<R(!new)>(body: TaskBody<R>, machine: string) {
    exists r :: body(machine, r)
  }

  ghost predicate CanStep<R(!new)>(cfg: Config, body: TaskBody<R>, s: State<R>) {
    exists step :: Enabled(cfg, body, s, step)
  }

  lemma BusyWorkerCanStep<R(!new)>(cfg: Config, body: TaskBody<R>, s: State<R>, w: nat)
    requires Inv(cfg, body, s) && Returns(body) && cfg.concurrency >= 1
    requires w < |s.workers| && (s.workers[w].Executing? || s.workers[w].Holding?)
    ensures CanStep(cfg, body, s)
  {
    Counts(cfg, s);
    BusyBounded(s.workers);
    var i := if s.workers[w].Executing? then s.workers[w].task else s.workers[w].done.task;
    assert i in WorkerTask(s.workers[w]);
    assert |BusyTasks(s.workers)| >= 1;
    if s.workers[w].Executing? {
      assert i in multiset(s.taken);
      assert i in s.Enqueued();
      assert i in multiset(SetBelow(|cfg.machines|));
      assert HasAnswer(body, cfg.machines[i]);
      var r :| body(cfg.machines[i], r);
      assert Enabled(cfg, body, s, Finish(w, r));
    } else if |s.resultChan| < cfg.concurrency {
      assert Enabled(cfg, body, s, Put(w));
    } else {
      assert Enabled(cfg, body, s, Step<R>.Collect);
    }
  }

  /** No reachable state short of the end is stuck. */
  lemma Progress<R(!new)>(cfg: Config, body: TaskBody<R>, s: State<R>)
    requires Inv(cfg, body, s) && Returns(body)
    requires cfg.concurrency >= 1 || cfg.machines == []
    ensures Final(s) || CanStep(cfg, body, s)
  {
    Counts(cfg, s);
    BusyBounded(s.workers);
    if w: nat :| w < |s.workers| && (s.workers[w].Executing? || s.workers[w].Holding?) {
      BusyWorkerCanStep(cfg, body, s, w);
    } else {
      NobodyBusy(s.workers);
      if s.resultChan != [] {
        assert Enabled(cfg, body, s, Step<R>.Collect);
      } else if s.taskChan != [] {
        assert !s.workers[0].Exited?;
        assert Enabled(cfg, body, s, Step<R>.Recv(0));
      } else if i: nat :| i in s.pending {
        assert Enabled(cfg, body, s, Step<R>.Send(i));
      } else if !s.closed {
        assert Enabled(cfg, body, s, Step<R>.Close);
      } else if w: nat :| w < |s.workers| && !s.workers[w].Exited? {
        assert Enabled(cfg, body, s, Step<R>.Exit(w));
      }
    }
  }

  lemma {:induction false} NobodyBusy<R>(ws: seq<Worker<R>>)
    requires forall w :: 0 <= w < |ws| ==> ws[w].Idle? || ws[w].Exited?
    ensures BusyTasks(ws) == multiset{}
  {
    if ws != [] {
      NobodyBusy(ws[..|ws|-1]);
    }
  }

  ghost predicate DeadlockFree<R(!new)>(cfg: Config, body: TaskBody<R>) {
    forall steps, trace :: IsRun(cfg, body, steps, trace) ==>
      Final(trace[|steps|]) || CanStep(cfg, body, trace[|steps|])
  }

  /** A run can stop early exactly when there is work and no worker: the caller's clamp is needed. */
  lemma DeadlockFreeIffWorkers<R(!new)>(cfg: Config, body: TaskBody<R>)
    requires Returns(body)
    ensures DeadlockFree(cfg, body) <==> cfg.concurrency >= 1 || cfg.machines == []
  {
    if cfg.concurrency >= 1 || cfg.machines == [] {
      forall steps, trace | IsRun(cfg, body, steps, trace)
        ensures Final(trace[|steps|]) || CanStep(cfg, body, trace[|steps|])
      {
        RunKeepsInv(cfg, body, steps, trace, |steps|);
        Progress(cfg, body, trace[|steps|]);
      }
    } else {
      var s := Init<R>(cfg);
      var none: seq<Step<R>> := [];
      assert IsRun(cfg, body, none, [s]);
      assert !Final(s);
      forall step ensures !Enabled(cfg, body, s, step) {
      }
      assert [s][|none|] == s;
    }
  }

  lemma {:induction false} NobodyLeft<R>(ws: seq<Worker<R>>)
    requires forall w :: 0 <= w < |ws| ==> ws[w].Exited?
    ensures WorkersCost(ws) == 0
  {
    if ws != [] {
      NobodyLeft(ws[..|ws|-1]);
    }
  }

  /** A run that cannot go on has taken exactly 5N + C + 1 steps and left no goroutine behind; and
      a run of that length cannot go on. */
  lemma MaximalRunLength<R(!new)>(cfg: Config, body: TaskBody<R>, steps: seq<Step<R>>, trace: seq<State<R>>)
    requires IsRun(cfg, body, steps, trace) && Returns(body)
    requires cfg.concurrency >= 1 || cfg.machines == []
    ensures |steps| <= 5 * |cfg.machines| + cfg.concurrency + 1
    ensures !CanStep(cfg, body, trace[|steps|]) <==> |steps| == 5 * |cfg.machines| + cfg.concurrency + 1
    ensures !CanStep(cfg, body, trace[|steps|]) <==> Final(trace[|steps|])
  {
    var last := trace[|steps|];
    RunKeepsInv(cfg, body, steps, trace, |steps|);
    StepsLeftAlongRun(cfg, body, steps, trace, |steps|);
    Progress(cfg, body, last);
    if Final(last) {
      EmptyOnceAllCollected(cfg, last);
      NobodyLeft(last.workers);
    }
    if step :| Enabled(cfg, body, last, step) {
      EveryStepCountsOnce(cfg, body, last, step);
    }
  }

  // ----- results

  /** Each task is produced, and so collected, at most once. */
  lemma EachTaskOnce<R>(cfg: Config, s: State<R>)
    requires Conserved(cfg, s)
    ensures NoDuplicates(s.Enqueued())
    ensures NoDuplicates(Tasks(s.Produced()))
  {
    forall x: nat
      ensures multiset(s.Enqueued())[x] <= 1 && multiset(Tasks(s.Produced()))[x] <= 1
    {
      assert multiset(SetBelow(|cfg.machines|))[x] <= 1;
      assert multiset(s.Enqueued())[x] == multiset(s.taken)[x] + multiset(s.taskChan)[x];
    }
    NoDuplicatesFromMultiset(s.Enqueued());
    NoDuplicatesFromMultiset(Tasks(s.Produced()));
  }

  /** `results` answers `machines` one for one, in the order given by `order`. */
  ghost predicate AnswersInOrder<R>(machines: seq<string>, body: TaskBody<R>, results: seq<R>, order: seq<nat>) {
    && |order| == |results|
    && multiset(order) == multiset(Indices(|machines|))
    && forall k :: 0 <= k < |results| ==> order[k] < |machines| && body(machines[order[k]], results[k])
  }

  lemma ClosedMeansAllAnswered<R>(cfg: Config, body: TaskBody<R>, s: State<R>)
    requires Inv(cfg, body, s) && s.closed
    ensures AnswersInOrder(cfg.machines, body, Results(s.collected), Tasks(s.collected))
    ensures s.pending == {} && s.taskChan == [] && s.resultChan == []
    ensures forall w :: 0 <= w < |s.workers| ==> s.workers[w].Idle? || s.workers[w].Exited?
  {
    EmptyOnceAllCollected(cfg, s);
    NobodyBusy(s.workers);
    SetBelowSize(|cfg.machines|);
    assert s.Produced() == s.collected;
    assert s.Enqueued() == s.taken;
    assert multiset(Tasks(s.collected)) == multiset(Indices(|cfg.machines|));
    forall k | 0 <= k < |s.collected|
      ensures Tasks(s.collected)[k] < |cfg.machines|
      ensures body(cfg.machines[Tasks(s.collected)[k]], Results(s.collected)[k])
    {
      assert Answers(cfg, body, s.Produced()[k]);
    }
  }

  /** Closing is safe in every run: nobody is left to send on the closed channel and nothing is in
      flight, at the close and at every state after it. */
  lemma CloseIsSafe<R>(cfg: Config, body: TaskBody<R>, steps: seq<Step<R>>, trace: seq<State<R>>, k: nat)
    requires IsRun(cfg, body, steps, trace) && k < |trace|
    ensures !trace[k].panicked
    ensures trace[k].closed ==>
      && trace[k].pending == {} && trace[k].taskChan == [] && trace[k].resultChan == []
      && (forall w :: 0 <= w < |trace[k].workers| ==> trace[k].workers[w].Idle? || trace[k].workers[w].Exited?)
      && AnswersInOrder(cfg.machines, body, Results(trace[k].collected), Tasks(trace[k].collected))
  {
    RunKeepsInv(cfg, body, steps, trace, k);
    if trace[k].closed {
      ClosedMeansAllAnswered(cfg, body, trace[k]);
    }
  }

  /** When the task body is a function, the results are a rearrangement of it mapped over the
      machine list, duplicates included. */
  lemma AnswersAreMap<R>(machines: seq<string>, f: string -> R, body: TaskBody<R>, results: seq<R>, order: seq<nat>)
    requires forall m, r :: body(m, r) ==> r == f(m)
    requires AnswersInOrder(machines, body, results, order)
    ensures multiset(results) == multiset(Map(f, machines))
  {
    var at := (i: nat) => if i < |machines| then f(machines[i]) else f("");
    assert results == Map(at, order);
    assert Map(f, machines) == Map(at, Indices(|machines|));
    MapOfPermutation(at, order, Indices(|machines|));
  }

  /** The pool refines a sequential map, for every interleaving. */
  lemma PoolRefinesMap<R>(cfg: Config, f: string -> R, steps: seq<Step<R>>, trace: seq<State<R>>)
    requires IsRun(cfg, (m, r) => r == f(m), steps, trace) && trace[|steps|].closed
    ensures multiset(Results(trace[|steps|].collected)) == multiset(Map(f, cfg.machines))
  {
    var body := (m, r) => r == f(m);
    RunKeepsInv(cfg, body, steps, trace, |steps|);
    ClosedMeansAllAnswered(cfg, body, trace[|steps|]);
    AnswersAreMap(cfg.machines, f, body, Results(trace[|steps|].collected), Tasks(trace[|steps|].collected));
  }

  /** The main result: a run that cannot go on has taken exactly 5N + C + 1 steps, panicked nowhere,
      left no goroutine and no message behind, and answered every machine in the list once. */
  lemma EveryCompleteRunAnswersAll<R(!new)>(cfg: Config, body: TaskBody<R>, steps: seq<Step<R>>, trace: seq<State<R>>)
    requires IsRun(cfg, body, steps, trace) && Returns(body)
    requires cfg.concurrency >= 1 || cfg.machines == []
    requires !CanStep(cfg, body, trace[|steps|])
    ensures |steps| == 5 * |cfg.machines| + cfg.concurrency + 1
    ensures Final(trace[|steps|]) && !trace[|steps|].panicked
    ensures trace[|steps|].taskChan == [] && trace[|steps|].resultChan == []
    ensures AnswersInOrder(cfg.machines, body, Results(trace[|steps|].collected), Tasks(trace[|steps|].collected))
  {
    MaximalRunLength(cfg, body, steps, trace);
    CloseIsSafe(cfg, body, steps, trace, |steps|);
  }

  /** Whatever has happened so far, the run can be carried on to such an end. */
  lemma {:induction false} EveryRunCanBeCompleted<R(!new)>(
    cfg: Config, body: TaskBody<R>, steps: seq<Step<R>>, trace: seq<State<R>>)
    requires IsRun(cfg, body, steps, trace) && Returns(body)
    requires cfg.concurrency >= 1 || cfg.machines == []
    ensures exists all, states :: IsRun(cfg, body, all, states) && steps <= all && !CanStep(cfg, body, states[|all|])
    decreases 5 * |cfg.machines| + cfg.concurrency + 1 - |steps|
  {
    MaximalRunLength(cfg, body, steps, trace);
    if step :| Enabled(cfg, body, trace[|steps|], step) {
      RunExtends(cfg, body, steps, trace, step);
      var longer := trace + [Apply(cfg, body, trace[|steps|], step)];
      MaximalRunLength(cfg, body, steps + [step], longer);
      EveryRunCanBeCompleted(cfg, body, steps + [step], longer);
      var all, states :| IsRun(cfg, body, all, states) && steps + [step] <= all && !CanStep(cfg, body, states[|all|]);
      assert steps <= all;
    }
  }

  // ----- order

  function InHand<R>(w: Worker<R>): seq<nat> {
    match w
    case Executing(i) => [i]
    case Holding(d) => [d.task]
    case _ => []
  }

  predicate WithinOne(produced: seq<nat>, enqueued: seq<nat>, k: nat)
    requires k < |produced|
  {
    produced[k] in FirstOf(enqueued, k + 1)
  }

  /** With a window of one, near-FIFO is FIFO. */
  lemma {:induction false} WindowOfOne(produced: seq<nat>, enqueued: seq<nat>, n: nat)
    requires n <= |produced| <= |enqueued|
    requires NoDuplicates(produced)
    requires forall k :: 0 <= k < |produced| ==> WithinOne(produced, enqueued, k)
    ensures produced[..n] == enqueued[..n]
  {
    if n > 0 {
      WindowOfOne(produced, enqueued, n - 1);
      assert WithinOne(produced, enqueued, n - 1);
      LastInWindow(produced, enqueued, n - 1);
      assert produced[..n] == produced[..n-1] + [produced[n-1]];
    }
  }

  lemma LastInWindow(produced: seq<nat>, enqueued: seq<nat>, n: nat)
    requires n < |produced| <= |enqueued| && NoDuplicates(produced)
    requires produced[..n] == enqueued[..n] && WithinOne(produced, enqueued, n)
    ensures produced[n] == enqueued[n]
  {
    assert forall i :: 0 <= i < n ==> enqueued[i] == enqueued[..n][i] == produced[i];
    var window := enqueued[..n+1];
    assert produced[n] in window;
    var j :| 0 <= j < |window| && window[j] == produced[n];
  }

  /** With one worker every state keeps enqueue order: produced, then in hand, then queued. */
  lemma OneWorkerKeepsOrder<R>(cfg: Config, body: TaskBody<R>, steps: seq<Step<R>>, trace: seq<State<R>>, k: nat)
    requires IsRun(cfg, body, steps, trace) && k < |trace| && cfg.concurrency == 1
    ensures |trace[k].workers| == 1
    ensures Tasks(trace[k].Produced()) + InHand(trace[k].workers[0]) + trace[k].taskChan == trace[k].Enqueued()
    ensures trace[k].closed ==> Tasks(trace[k].collected) == trace[k].Enqueued()
  {
    RunKeepsInv(cfg, body, steps, trace, k);
    var s := trace[k];
    var produced := Tasks(s.Produced());
    Counts(cfg, s);
    EachTaskOnce(cfg, s);
    assert forall p :: 0 <= p < |produced| ==> WithinOne(produced, s.Enqueued(), p);
    WindowOfOne(produced, s.Enqueued(), |produced|);
    assert produced == s.taken[..|produced|] by {
      assert produced == produced[..|produced|] == s.Enqueued()[..|produced|];
    }
    assert s.workers[..0] == [];
    assert BusyTasks(s.workers) == multiset(InHand(s.workers[0]));
    LastOne(s.taken, |produced|, InHand(s.workers[0]));
    if s.closed {
      ClosedMeansAllAnswered(cfg, body, s);
      assert s.Produced() == s.collected;
    }
  }

  lemma LastOne(taken: seq<nat>, n: nat, hand: seq<nat>)
    requires n <= |taken| && |hand| <= 1 && |taken| == n + |hand|
    requires multiset(taken) == multiset(taken[..n]) + multiset(hand)
    ensures taken == taken[..n] + hand
  {
    assert taken == taken[..n] + taken[n..];
    assert multiset(taken) == multiset(taken[n..]) + multiset(taken[..n]);
    Cancel(multiset(taken[n..]), multiset(hand), multiset(taken[..n]));
    if |hand| == 1 {
      assert taken[n..] == [taken[n]];
      assert taken[n] in multiset(hand);
    }
  }

  /** With any number of workers, no result is collected more than `concurrency - 1` places ahead
      of where its task was enqueued. */
  lemma LimitedOvertaking<R>(cfg: Config, body: TaskBody<R>, steps: seq<Step<R>>, trace: seq<State<R>>, k: nat, p: nat)
    requires IsRun(cfg, body, steps, trace) && k < |trace| && p < |trace[k].collected|
    ensures exists q :: 0 <= q < |trace[k].Enqueued()| && q < p + cfg.concurrency
                     && trace[k].Enqueued()[q] == trace[k].collected[p].task
  {
    RunKeepsInv(cfg, body, steps, trace, k);
    var s := trace[k];
    assert s.Produced()[p] == s.collected[p];
    var window := FirstOf(s.Enqueued(), p + cfg.concurrency);
    var q :| 0 <= q < |window| && window[q] == s.collected[p].task;
    assert s.Enqueued()[q] == s.collected[p].task;
  }

  // ----- back-pressure

  function ExecutingCount<R>(ws: seq<Worker<R>>): nat {
    if ws == [] then 0 else ExecutingCount(ws[..|ws|-1]) + if ws[|ws|-1].Executing? then 1 else 0
  }

  lemma {:induction false} ExecutingAtMostAll<R>(ws: seq<Worker<R>>)
    ensures ExecutingCount(ws) <= |BusyTasks(ws)|
  {
    if ws != [] {
      ExecutingAtMostAll(ws[..|ws|-1]);
    }
  }

  /** At most C tasks execute, at most 2C are received and uncollected, at most 3C sent and uncollected. */
  lemma BackPressure<R>(cfg: Config, body: TaskBody<R>, steps: seq<Step<R>>, trace: seq<State<R>>, k: nat)
    requires IsRun(cfg, body, steps, trace) && k < |trace|
    ensures ExecutingCount(trace[k].workers) <= cfg.concurrency
    ensures |trace[k].taken| - |trace[k].collected| <= 2 * cfg.concurrency
    ensures |trace[k].Enqueued()| - |trace[k].collected| <= 3 * cfg.concurrency
  {
    RunKeepsInv(cfg, body, steps, trace, k);
    Counts(cfg, trace[k]);
    BusyBounded(trace[k].workers);
    ExecutingAtMostAll(trace[k].workers);
  }
}
