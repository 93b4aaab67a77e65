/**
 The worker pool running pod tasks against a shared job store. A task first asks the store to create
 its job; the store refuses a name it holds. Finished jobs carry a time to live, so the store may
 also drop a job; here it may at any time, so what is proved holds whenever that happens to be (module
 PodTiming adds the clock). Everything the pool does alone is a step here, with the task's return tied
 to what became of its creation. A task whose job was accepted may also panic and end the process.
 */
module PodBatch {
  import opened Collections
  import opened BatchPool
  import opened BatchRuns
  import opened PodTask

  /** What the store answered a task. */
  datatype Creation = Accepted | Duplicate | Failed

  datatype World = World(pool: State<BatchResult>, jobs: set<string>, creations: map<nat, Creation>, crashed: bool)

  datatype Move =
    | Create(worker: nat, creation: Creation)
    | Pool(step: Step<BatchResult>)
    | Expire(name: string)
    | Crash(worker: nat)

  /** What a task may return once its creation was answered. */
  predicate MayReturn(creation: Creation, machine: string, r: BatchResult) {
    && r.machine == machine
    && (creation != Accepted ==> r.error.Some? && r.error.value.CreateError?)
    && (r.error.Some? && r.error.value.CreateError? ==> creation != Accepted)
  }

  function KeepsMachine(): TaskBody<BatchResult> {
    (m, r: BatchResult) => r.machine == m
  }

  /** Every way `executeTask` can end is one of these: it returns as allowed, or panics, and then its
      job had been accepted. */
  lemma TaskReturnsAreAllowed(job: JobRequest, c: Cluster, outcome: Outcome, creation: Creation)
    requires TaskOutcome(job, c, outcome)
    requires creation == Accepted <==> c.create(job).Created?
    ensures outcome.Returned? ==> MayReturn(creation, job.machine, outcome.result)
    ensures outcome.Panicked? ==> creation == Accepted
  {
  }

  function NameOf(cfg: Config, run: string, i: nat): string
    requires i < |cfg.machines|
  {
    JobName(run, cfg.machines[i])
  }

  predicate CanMove(cfg: Config, run: string, s: World, m: Move) {
    && !s.crashed
    && match m
       case Create(w, creation) =>
         && !s.pool.panicked
         && w < |s.pool.workers| && s.pool.workers[w].Executing?
         && s.pool.workers[w].task < |cfg.machines|
         && s.pool.workers[w].task !in s.creations
         && var name := NameOf(cfg, run, s.pool.workers[w].task);
            && (creation.Accepted? ==> name !in s.jobs)
            && (creation.Duplicate? ==> name in s.jobs)
       case Pool(step) =>
         && Enabled(cfg, KeepsMachine(), s.pool, step)
         && (step.Finish? ==>
               var i := s.pool.workers[step.worker].task;
               i in s.creations && MayReturn(s.creations[i], cfg.machines[i], step.result))
       case Expire(name) => name in s.jobs
       case Crash(w) =>
         && w < |s.pool.workers| && s.pool.workers[w].Executing?
         && s.pool.workers[w].task in s.creations && s.creations[s.pool.workers[w].task] == Accepted
  }

  function Moved(cfg: Config, run: string, s: World, m: Move): World
    requires CanMove(cfg, run, s, m)
  {
    match m
    case Create(w, creation) =>
      var i := s.pool.workers[w].task;
      s.(creations := s.creations[i := creation],
         jobs := if creation.Accepted? then s.jobs + {NameOf(cfg, run, i)} else s.jobs)
    case Pool(step) => s.(pool := Apply(cfg, KeepsMachine(), s.pool, step))
    case Expire(name) => s.(jobs := s.jobs - {name})
    case Crash(_) => s.(crashed := true)
  }

  /** The store may hold other jobs at the start, but none of this run. */
  ghost predicate FreshRun(cfg: Config, run: string, jobs: set<string>) {
    forall m :: m in cfg.machines ==> JobName(run, m) !in jobs
  }

  ghost predicate IsStart(cfg: Config, run: string, s: World) {
    s.pool == Init(cfg) && FreshRun(cfg, run, s.jobs) && s.creations == map[] && !s.crashed
  }

  ghost predicate IsBatchRun(cfg: Config, run: string, moves: seq<Move>, trace: seq<World>) {
    && |trace| == |moves| + 1
    && IsStart(cfg, run, trace[0])
    && forall k :: 0 <= k < |moves| ==>
         CanMove(cfg, run, trace[k], moves[k]) && trace[k+1] == Moved(cfg, run, trace[k], moves[k])
  }

  // ----- the pool underneath

  /** Forgetting the store leaves a run of the pool, so all that holds of the pool holds here. */
  lemma {:induction false} ProjectsToPool(cfg: Config, run: string, moves: seq<Move>, trace: seq<World>, k: nat)
    requires IsBatchRun(cfg, run, moves, trace) && k < |trace|
    ensures Reaches(cfg, KeepsMachine(), trace[k].pool)
  {
    if k == 0 {
      StartIsReached(cfg, KeepsMachine());
    } else {
      ProjectsToPool(cfg, run, moves, trace, k - 1);
      if moves[k-1].Pool? {
        ReachesNext(cfg, KeepsMachine(), trace[k-1].pool, moves[k-1].step);
      }
    }
  }

  // ----- accounting for job names

  /** The tasks for `machine` whose job the store accepted. */
  function AcceptedTasks(cfg: Config, creations: map<nat, Creation>, machine: string): set<nat> {
    set i | i in creations && i < |cfg.machines| && cfg.machines[i] == machine && creations[i] == Accepted
  }

  function Expiries(moves: seq<Move>, name: string): nat {
    if moves == [] then 0
    else Expiries(moves[..|moves|-1], name) + if moves[|moves|-1] == Expire(name) then 1 else 0
  }

  lemma AcceptedGrows(cfg: Config, creations: map<nat, Creation>, i: nat, creation: Creation, machine: string)
    requires i !in creations && i < |cfg.machines|
    ensures |AcceptedTasks(cfg, creations[i := creation], machine)|
         == |AcceptedTasks(cfg, creations, machine)| + if creation.Accepted? && cfg.machines[i] == machine then 1 else 0
  {
    var before, after := AcceptedTasks(cfg, creations, machine), AcceptedTasks(cfg, creations[i := creation], machine);
    if creation.Accepted? && cfg.machines[i] == machine {
      assert after == before + {i};
    } else {
      assert after == before;
    }
  }

  function Held(s: World, name: string): nat {
    if name in s.jobs then 1 else 0
  }

  /** For each machine of the run: jobs accepted = jobs expired + job still in the store. */
  lemma {:induction false} AcceptedEqualsExpiredPlusHeld(
    cfg: Config, run: string, moves: seq<Move>, trace: seq<World>, k: nat, machine: string)
    requires IsBatchRun(cfg, run, moves, trace) && k < |trace| && machine in cfg.machines
    ensures |AcceptedTasks(cfg, trace[k].creations, machine)|
         == Expiries(moves[..k], JobName(run, machine)) + Held(trace[k], JobName(run, machine))
  {
    if k == 0 {
      assert AcceptedTasks(cfg, trace[0].creations, machine) == {};
    } else {
      AcceptedEqualsExpiredPlusHeld(cfg, run, moves, trace, k - 1, machine);
      assert moves[..k][..k-1] == moves[..k-1];
      var m := moves[k-1];
      match m
      case Create(w, creation) =>
        var i := trace[k-1].pool.workers[w].task;
        AcceptedGrows(cfg, trace[k-1].creations, i, creation, machine);
        JobNameInjective(run, cfg.machines[i], machine);
      case _ =>
        assert AcceptedTasks(cfg, trace[k].creations, machine) == AcceptedTasks(cfg, trace[k-1].creations, machine);
    }
  }

  ghost predicate NothingExpires(moves: seq<Move>) {
    forall k :: 0 <= k < |moves| ==> !moves[k].Expire?
  }

  lemma {:induction false} NoExpiries(moves: seq<Move>, name: string)
    requires NothingExpires(moves)
    ensures Expiries(moves, name) == 0
  {
    if moves != [] {
      NoExpiries(moves[..|moves|-1], name);
    }
  }

  /** While no job expires, at most one task per machine name gets past creation. */
  lemma AtMostOnePerMachine(cfg: Config, run: string, moves: seq<Move>, trace: seq<World>, k: nat, i: nat, j: nat)
    requires IsBatchRun(cfg, run, moves, trace) && k < |trace| && NothingExpires(moves[..k])
    requires i < |cfg.machines| && j < |cfg.machines| && cfg.machines[i] == cfg.machines[j]
    requires i in trace[k].creations && trace[k].creations[i] == Accepted
    requires j in trace[k].creations && trace[k].creations[j] == Accepted
    ensures i == j
  {
    var machine := cfg.machines[i];
    AcceptedEqualsExpiredPlusHeld(cfg, run, moves, trace, k, machine);
    NoExpiries(moves[..k], JobName(run, machine));
    var accepted := AcceptedTasks(cfg, trace[k].creations, machine);
    assert i in accepted && j in accepted && |accepted| <= 1;
    if i != j {
      assert {i, j} <= accepted;
      SubsetSize({i, j}, accepted);
    }
  }

  lemma SubsetSize<T>(a: set<T>, b: set<T>)
    requires a <= b
    ensures |a| <= |b|
  {
    assert b == a + (b - a);
  }

  // ----- results

  /** Every result in flight fits what became of its task's creation. */
  ghost predicate ResultsFit(cfg: Config, s: World) {
    && (forall k :: 0 <= k < |s.pool.Produced()| ==> Fits(cfg, s, s.pool.Produced()[k]))
    && (forall w :: 0 <= w < |s.pool.workers| && s.pool.workers[w].Holding? ==> Fits(cfg, s, s.pool.workers[w].done))
  }

  ghost predicate Fits(cfg: Config, s: World, d: Done<BatchResult>) {
    && d.task < |cfg.machines| && d.task in s.creations
    && MayReturn(s.creations[d.task], cfg.machines[d.task], d.result)
  }

  lemma PoolStepKeepsFit(cfg: Config, run: string, s: World, step: Step<BatchResult>)
    requires ResultsFit(cfg, s) && CanMove(cfg, run, s, Pool(step))
    ensures ResultsFit(cfg, Moved(cfg, run, s, Pool(step)))
  {
    var t := Moved(cfg, run, s, Pool(step));
    if step.Put? {
      assert t.pool.Produced() == s.pool.Produced() + [s.pool.workers[step.worker].done];
    } else {
      assert t.pool.Produced() == s.pool.Produced();
    }
    forall k | 0 <= k < |t.pool.Produced()|
      ensures Fits(cfg, t, t.pool.Produced()[k])
    {
      if k < |s.pool.Produced()| {
        assert Fits(cfg, s, s.pool.Produced()[k]);
      }
    }
  }

  lemma {:induction false} ResultsAlwaysFit(cfg: Config, run: string, moves: seq<Move>, trace: seq<World>, k: nat)
    requires IsBatchRun(cfg, run, moves, trace) && k < |trace|
    ensures ResultsFit(cfg, trace[k])
  {
    if k > 0 {
      ResultsAlwaysFit(cfg, run, moves, trace, k - 1);
      var s, t := trace[k-1], trace[k];
      if moves[k-1].Pool? {
        PoolStepKeepsFit(cfg, run, s, moves[k-1].step);
      } else {
        assert t.pool == s.pool;
        assert forall i :: i in s.creations ==> i in t.creations && t.creations[i] == s.creations[i];
        assert forall d :: Fits(cfg, s, d) ==> Fits(cfg, t, d);
      }
    }
  }

  /** A collected result that is not a creation error. */
  predicate PastCreation(d: Done<BatchResult>) {
    !(d.result.error.Some? && d.result.error.value.CreateError?)
  }

  /** When the batch ends there is one result per list entry, each naming its machine, and, if no job
      expired, of the results for one machine at most one is anything but a creation error. */
  lemma DuplicatesFail(cfg: Config, run: string, moves: seq<Move>, trace: seq<World>, k: nat)
    requires IsBatchRun(cfg, run, moves, trace) && k < |trace| && trace[k].pool.closed
    ensures |trace[k].pool.collected| == |cfg.machines|
    ensures multiset(Map((r: BatchResult) => r.machine, Results(trace[k].pool.collected))) == multiset(cfg.machines)
    ensures NothingExpires(moves[..k]) ==>
      forall a, b | 0 <= a < b < |trace[k].pool.collected| ::
        PastCreation(trace[k].pool.collected[a]) && PastCreation(trace[k].pool.collected[b]) ==>
        trace[k].pool.collected[a].result.machine != trace[k].pool.collected[b].result.machine
  {
    var s := trace[k].pool;
    ProjectsToPool(cfg, run, moves, trace, k);
    ReachesInv(cfg, KeepsMachine(), trace[k].pool);
    ResultsAlwaysFit(cfg, run, moves, trace, k);
    ClosedMeansAllAnswered(cfg, KeepsMachine(), s);
    MachinesOfResults(cfg.machines, Results(s.collected), Tasks(s.collected));
    assert s.Produced() == s.collected;
    EachTaskOnce(cfg, s);
    if NothingExpires(moves[..k]) {
      forall a, b | 0 <= a < b < |s.collected| && PastCreation(s.collected[a]) && PastCreation(s.collected[b])
        ensures s.collected[a].result.machine != s.collected[b].result.machine
      {
        var i, j := s.collected[a].task, s.collected[b].task;
        assert Fits(cfg, trace[k], s.Produced()[a]) && Fits(cfg, trace[k], s.Produced()[b]);
        assert Tasks(s.Produced())[a] != Tasks(s.Produced())[b];
        if cfg.machines[i] == cfg.machines[j] {
          AtMostOnePerMachine(cfg, run, moves, trace, k, i, j);
        }
      }
    }
  }

  lemma MachinesOfResults(machines: seq<string>, results: seq<BatchResult>, order: seq<nat>)
    requires AnswersInOrder(machines, KeepsMachine(), results, order)
    ensures multiset(Map((r: BatchResult) => r.machine, results)) == multiset(machines)
  {
    var at := (i: nat) => if i < |machines| then machines[i] else "";
    assert Map((r: BatchResult) => r.machine, results) == Map(at, order);
    assert machines == Map(at, Indices(|machines|));
    MapOfPermutation(at, order, Indices(|machines|));
  }

  /** With no expiry and no other creation failure, each machine has exactly one task past creation. */
  lemma ExactlyOnePerMachine(cfg: Config, run: string, moves: seq<Move>, trace: seq<World>, k: nat, machine: string)
    requires IsBatchRun(cfg, run, moves, trace) && k < |trace| && trace[k].pool.closed
    requires NothingExpires(moves[..k]) && machine in cfg.machines
    requires forall j :: 0 <= j < k ==> !(moves[j].Create? && moves[j].creation.Failed?)
    ensures |AcceptedTasks(cfg, trace[k].creations, machine)| == 1
  {
    AcceptedEqualsExpiredPlusHeld(cfg, run, moves, trace, k, machine);
    NoExpiries(moves[..k], JobName(run, machine));
    ProjectsToPool(cfg, run, moves, trace, k);
    ReachesInv(cfg, KeepsMachine(), trace[k].pool);
    ResultsAlwaysFit(cfg, run, moves, trace, k);
    var s := trace[k].pool;
    ClosedMeansAllAnswered(cfg, KeepsMachine(), s);
    var i: nat :| i < |cfg.machines| && cfg.machines[i] == machine;
    assert Indices(|cfg.machines|)[i] == i;
    assert i in multiset(Tasks(s.collected));
    var p :| 0 <= p < |s.collected| && Tasks(s.collected)[p] == i;
    assert Fits(cfg, trace[k], s.Produced()[p]);
    AnsweredLeavesJob(cfg, run, moves, trace, k, i);
  }

  lemma {:induction false} AnsweredLeavesJob(
    cfg: Config, run: string, moves: seq<Move>, trace: seq<World>, k: nat, i: nat)
    requires IsBatchRun(cfg, run, moves, trace) && k < |trace| && i < |cfg.machines|
    requires NothingExpires(moves[..k]) && i in trace[k].creations
    requires forall j :: 0 <= j < k ==> !(moves[j].Create? && moves[j].creation.Failed?)
    ensures NameOf(cfg, run, i) in trace[k].jobs
  {
    if k > 0 && i in trace[k-1].creations {
      assert moves[..k-1] == moves[..k][..k-1];
      assert !moves[..k][k-1].Expire?;
      AnsweredLeavesJob(cfg, run, moves, trace, k - 1, i);
    }
  }

  // ----- progress and termination

  /** The store never blocks the pool: short of the end, and of a panic, some move other than an expiry
      is possible. */
  lemma BatchProgress(cfg: Config, run: string, moves: seq<Move>, trace: seq<World>, k: nat)
    requires IsBatchRun(cfg, run, moves, trace) && k < |trace| && cfg.concurrency >= 1
    ensures Final(trace[k].pool) || trace[k].crashed
         || exists m :: CanMove(cfg, run, trace[k], m) && !m.Expire?
  {
    var s := trace[k];
    ProjectsToPool(cfg, run, moves, trace, k);
    ReachesInv(cfg, KeepsMachine(), trace[k].pool);
    SomeReturn();
    Progress(cfg, KeepsMachine(), s.pool);
    if !s.crashed {
      if step :| Enabled(cfg, KeepsMachine(), s.pool, step) {
        if step.Finish? {
          ExecutingCanMove(cfg, run, s, step.worker);
        } else {
          assert CanMove(cfg, run, s, Pool(step));
        }
      }
    }
  }

  lemma ExecutingCanMove(cfg: Config, run: string, s: World, w: nat)
    requires !s.pool.panicked && !s.crashed
    requires w < |s.pool.workers| && s.pool.workers[w].Executing? && s.pool.workers[w].task < |cfg.machines|
    ensures exists m :: CanMove(cfg, run, s, m) && !m.Expire?
  {
    var i := s.pool.workers[w].task;
    if i in s.creations {
      var r := if s.creations[i] == Accepted then BatchResult(cfg.machines[i], Some(TimedOut), [])
               else BatchResult(cfg.machines[i], Some(CreateError("")), []);
      assert CanMove(cfg, run, s, Pool(Finish(w, r)));
    } else {
      assert CanMove(cfg, run, s, Create(w, Failed));
    }
  }

  lemma SomeReturn()
    ensures Returns(KeepsMachine())
  {
    forall m
      ensures HasAnswer(KeepsMachine(), m)
    {
      assert KeepsMachine()(m, BatchResult(m, None, []));
    }
  }

  /** A crash is the last move, and some worker was still executing then. */
  lemma {:induction false} CrashedMeansCrash(cfg: Config, run: string, moves: seq<Move>, trace: seq<World>, k: nat)
    requires IsBatchRun(cfg, run, moves, trace) && k < |trace|
    ensures trace[k].crashed <==> exists j :: 0 <= j < k && moves[j].Crash?
    ensures trace[k].crashed ==> exists w :: 0 <= w < |trace[k].pool.workers| && trace[k].pool.workers[w].Executing?
  {
    if k > 0 {
      CrashedMeansCrash(cfg, run, moves, trace, k - 1);
      assert CanMove(cfg, run, trace[k-1], moves[k-1]);
    }
  }

  /** A batch with nothing left to do but expiries has lost its results exactly if some task panicked:
      otherwise every machine in the list is answered and `Execute` returns. */
  lemma ResultsLostExactly(cfg: Config, run: string, moves: seq<Move>, trace: seq<World>)
    requires IsBatchRun(cfg, run, moves, trace) && cfg.concurrency >= 1
    requires forall m :: CanMove(cfg, run, trace[|moves|], m) ==> m.Expire?
    ensures !trace[|moves|].pool.closed <==> exists j :: 0 <= j < |moves| && moves[j].Crash?
    ensures trace[|moves|].pool.closed ==>
      var s := trace[|moves|].pool;
      Final(s) && AnswersInOrder(cfg.machines, KeepsMachine(), Results(s.collected), Tasks(s.collected))
  {
    var s := trace[|moves|].pool;
    ProjectsToPool(cfg, run, moves, trace, |moves|);
    ReachesInv(cfg, KeepsMachine(), s);
    CrashedMeansCrash(cfg, run, moves, trace, |moves|);
    BatchProgress(cfg, run, moves, trace, |moves|);
    if s.closed {
      ClosedMeansAllAnswered(cfg, KeepsMachine(), s);
    }
  }

  /** Pool steps left, two moves per task not yet answered, one expiry per job held, and the crash. */
  function MovesLeft(cfg: Config, s: World): nat {
    StepsLeft(s.pool) + 2 * |SetBelow(|cfg.machines|) - s.creations.Keys| + |s.jobs| + if s.crashed then 0 else 1
  }

  lemma CreateCounts(cfg: Config, creations: map<nat, Creation>, i: nat, creation: Creation)
    requires i !in creations && i < |cfg.machines|
    ensures |SetBelow(|cfg.machines|) - creations[i := creation].Keys| + 1
         == |SetBelow(|cfg.machines|) - creations.Keys|
  {
    var before, after := SetBelow(|cfg.machines|) - creations.Keys,
                         SetBelow(|cfg.machines|) - creations[i := creation].Keys;
    assert i in before && after == before - {i};
  }

  lemma EveryMoveCounts(cfg: Config, run: string, s: World, m: Move)
    requires Inv(cfg, KeepsMachine(), s.pool) && CanMove(cfg, run, s, m)
    ensures MovesLeft(cfg, Moved(cfg, run, s, m)) < MovesLeft(cfg, s)
  {
    match m
    case Pool(step) => EveryStepCountsOnce(cfg, KeepsMachine(), s.pool, step);
    case Create(w, creation) => CreateCounts(cfg, s.creations, s.pool.workers[w].task, creation);
    case Expire(name) =>
    case Crash(w) =>
  }

  /** Batches end: however the store behaves, a run is no longer than this. */
  lemma {:induction false} BatchRunsEnd(cfg: Config, run: string, moves: seq<Move>, trace: seq<World>, k: nat)
    requires IsBatchRun(cfg, run, moves, trace) && k < |trace|
    ensures MovesLeft(cfg, trace[k]) + k <= 7 * |cfg.machines| + cfg.concurrency + 2 + |trace[0].jobs|
  {
    if k == 0 {
      AllIdle<BatchResult>(cfg.concurrency);
      SetBelowSize(|cfg.machines|);
      assert SetBelow(|cfg.machines|) - trace[0].creations.Keys == SetBelow(|cfg.machines|);
    } else {
      BatchRunsEnd(cfg, run, moves, trace, k - 1);
      ProjectsToPool(cfg, run, moves, trace, k - 1);
      ReachesInv(cfg, KeepsMachine(), trace[k-1].pool);
      EveryMoveCounts(cfg, run, trace[k-1], moves[k-1]);
    }
  }
}
