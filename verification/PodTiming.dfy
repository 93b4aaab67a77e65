/**
 When a batch that lists a machine twice gets two jobs for it. The runs of PodBatch, with a clock: a
 job is dropped no sooner than its time to live after it was accepted, and a task that waits for its
 job returns no sooner than its polling loop can. (The time to live counts from when the job finished.
 A job may fail at once, and its task then polls on until the timeout, so nothing more can be said
 without knowing the cluster.) In a prompt batch time passes only while all there is to do is wait
 for jobs; in one that is not, goroutines may be held up for as long as one likes.
 */
module PodTiming {
  import opened Collections
  import opened BatchPool
  import opened BatchRuns
  import opened PodTask
  import opened PodBatch

  const TTL := 300 * SECOND

  /** `accepted` holds the time at which the store accepted each task's job. */
  datatype Timed = Timed(world: World, now: nat, accepted: map<nat, nat>)

  datatype Event = Do(move: Move) | Wait(duration: nat)

  /** A waiting task sleeps before each look at its job, and gives up only at the timeout. */
  lemma ReturnsTakeTime(job: JobRequest, c: Cluster, r: BatchResult)
    requires ClockAdvances(c.clock) && TaskOutcome(job, c, Returned(r)) && c.create(job).Created?
    ensures exists k: nat :: StopsAt(c, k) && c.clock(0) + LeastWait(r) <= c.clock(k + 1)
  {
    var k: nat :| StopsAt(c, k) && Returned(r) == Concluded(job.machine, c, k);
    ClockBound(c.clock, k + 1);
  }

  function LeastWait(r: BatchResult): nat {
    if r.error == Some(TimedOut) then TIMEOUT else POLL_INTERVAL
  }

  predicate TimeAllows(cfg: Config, run: string, t: Timed, m: Move)
    requires CanMove(cfg, run, t.world, m)
  {
    match m
    case Expire(name) =>
      forall i | i in t.accepted && i < |cfg.machines| && NameOf(cfg, run, i) == name :: t.accepted[i] + TTL <= t.now
    case Pool(Finish(w, r)) =>
      var i := t.world.pool.workers[w].task;
      i in t.accepted ==> t.accepted[i] + LeastWait(r) <= t.now
    case _ => true
  }

  /** What is left to others: the store's expiries, and a job the task waits for. */
  predicate IsWaiting(s: World, m: Move) {
    || m.Expire? || m.Crash?
    || (m.Pool? && m.step.Finish? && m.step.worker < |s.pool.workers| && s.pool.workers[m.step.worker].Executing?
        && s.pool.workers[m.step.worker].task in s.creations
        && s.creations[s.pool.workers[m.step.worker].task] == Accepted)
  }

  ghost predicate OnlyWaiting(cfg: Config, run: string, s: World) {
    forall m :: CanMove(cfg, run, s, m) ==> IsWaiting(s, m)
  }

  ghost predicate CanHappen(cfg: Config, run: string, prompt: bool, t: Timed, e: Event) {
    match e
    case Do(m) => CanMove(cfg, run, t.world, m) && TimeAllows(cfg, run, t, m)
    case Wait(_) => !t.world.crashed && (prompt ==> OnlyWaiting(cfg, run, t.world))
  }

  ghost function After(cfg: Config, run: string, prompt: bool, t: Timed, e: Event): Timed
    requires CanHappen(cfg, run, prompt, t, e)
  {
    match e
    case Wait(d) => t.(now := t.now + d)
    case Do(m) =>
      Timed(Moved(cfg, run, t.world, m), t.now,
            if m.Create? && m.creation.Accepted? then t.accepted[t.world.pool.workers[m.worker].task := t.now]
            else t.accepted)
  }

  ghost predicate IsTimedRun(cfg: Config, run: string, prompt: bool, events: seq<Event>, trace: seq<Timed>) {
    && |trace| == |events| + 1
    && IsStart(cfg, run, trace[0].world) && trace[0].now == 0 && trace[0].accepted == map[]
    && forall k :: 0 <= k < |events| ==>
         CanHappen(cfg, run, prompt, trace[k], events[k])
         && trace[k+1] == After(cfg, run, prompt, trace[k], events[k])
  }

  ghost predicate TimedReaches(cfg: Config, run: string, prompt: bool, t: Timed) {
    exists events, trace :: IsTimedRun(cfg, run, prompt, events, trace) && trace[|events|] == t
  }

  lemma TimedReachesNext(cfg: Config, run: string, prompt: bool, t: Timed, e: Event)
    requires TimedReaches(cfg, run, prompt, t) && CanHappen(cfg, run, prompt, t, e)
    ensures TimedReaches(cfg, run, prompt, After(cfg, run, prompt, t, e))
  {
    var events, trace :| IsTimedRun(cfg, run, prompt, events, trace) && trace[|events|] == t;
    var longer := trace + [After(cfg, run, prompt, t, e)];
    forall k | 0 <= k < |events + [e]|
      ensures CanHappen(cfg, run, prompt, longer[k], (events + [e])[k])
      ensures longer[k+1] == After(cfg, run, prompt, longer[k], (events + [e])[k])
    {
      if k < |events| {
        assert longer[k] == trace[k] && longer[k+1] == trace[k+1];
      }
    }
    assert IsTimedRun(cfg, run, prompt, events + [e], longer);
    assert longer[|events + [e]|] == After(cfg, run, prompt, t, e);
  }

  // ----- the batch underneath

  ghost predicate BatchReaches(cfg: Config, run: string, s: World) {
    exists moves, trace :: IsBatchRun(cfg, run, moves, trace) && trace[|moves|] == s
  }

  lemma BatchReachesNext(cfg: Config, run: string, s: World, m: Move)
    requires BatchReaches(cfg, run, s) && CanMove(cfg, run, s, m)
    ensures BatchReaches(cfg, run, Moved(cfg, run, s, m))
  {
    var moves, trace :| IsBatchRun(cfg, run, moves, trace) && trace[|moves|] == s;
    var longer := trace + [Moved(cfg, run, s, m)];
    forall k | 0 <= k < |moves + [m]|
      ensures CanMove(cfg, run, longer[k], (moves + [m])[k])
      ensures longer[k+1] == Moved(cfg, run, longer[k], (moves + [m])[k])
    {
      if k < |moves| {
        assert longer[k] == trace[k] && longer[k+1] == trace[k+1];
      }
    }
    assert IsBatchRun(cfg, run, moves + [m], longer);
    assert longer[|moves + [m]|] == Moved(cfg, run, s, m);
  }

  /** Forgetting the clock leaves a run of PodBatch. */
  lemma {:induction false} ProjectsToBatch(
    cfg: Config, run: string, prompt: bool, events: seq<Event>, trace: seq<Timed>, k: nat)
    requires IsTimedRun(cfg, run, prompt, events, trace) && k < |trace|
    ensures BatchReaches(cfg, run, trace[k].world)
  {
    if k == 0 {
      var none: seq<Move> := [];
      assert IsBatchRun(cfg, run, none, [trace[0].world]) && [trace[0].world][|none|] == trace[0].world;
    } else {
      ProjectsToBatch(cfg, run, prompt, events, trace, k - 1);
      if events[k-1].Do? {
        BatchReachesNext(cfg, run, trace[k-1].world, events[k-1].move);
      }
    }
  }

  lemma BatchReachesFacts(cfg: Config, run: string, s: World)
    requires BatchReaches(cfg, run, s)
    ensures Inv(cfg, KeepsMachine(), s.pool) && ResultsFit(cfg, s)
  {
    var moves, trace :| IsBatchRun(cfg, run, moves, trace) && trace[|moves|] == s;
    ProjectsToPool(cfg, run, moves, trace, |moves|);
    ReachesInv(cfg, KeepsMachine(), s.pool);
    ResultsAlwaysFit(cfg, run, moves, trace, |moves|);
  }

  /** No two entries with the same machine were both accepted. */
  ghost predicate OneJobEach(cfg: Config, s: World) {
    forall i: nat, j: nat ::
      && i < |cfg.machines| && j < |cfg.machines| && cfg.machines[i] == cfg.machines[j]
      && i in s.creations && s.creations[i] == Accepted && j in s.creations && s.creations[j] == Accepted
      ==> i == j
  }

  function Elements<T>(s: seq<T>): set<T> {
    set x | x in s
  }

  /** The different machines in the list. */
  function MachineSet(cfg: Config): set<string> {
    Elements(cfg.machines)
  }

  // ----- with more workers than machines, a prompt batch creates every job before any time passes

  lemma BusyTaskInRange(cfg: Config, s: State<BatchResult>, w: nat)
    requires Conserved(cfg, s) && w < |s.workers| && s.workers[w].Executing?
    ensures s.workers[w].task < |cfg.machines|
  {
    var i := s.workers[w].task;
    BusyBounded(s.workers);
    assert i in WorkerTask(s.workers[w]);
    assert i in multiset(s.taken);
    assert i in s.Enqueued();
    assert i in multiset(SetBelow(|cfg.machines|));
  }

  lemma ProducedAreCreated(cfg: Config, s: World, j: nat)
    requires ResultsFit(cfg, s) && j in Tasks(s.pool.Produced())
    ensures j in s.creations
  {
    var p :| 0 <= p < |s.pool.Produced()| && Tasks(s.pool.Produced())[p] == j;
    assert Fits(cfg, s, s.pool.Produced()[p]);
  }

  /** A task that has not asked for its job is unsent, queued, or in the hands of a worker. */
  lemma WhereUncreated(cfg: Config, s: World, j: nat)
    requires Conserved(cfg, s.pool) && ResultsFit(cfg, s) && j < |cfg.machines| && j !in s.creations
    ensures j in s.pool.pending || j in s.pool.taskChan || j in BusyTasks(s.pool.workers)
  {
    if j in Tasks(s.pool.Produced()) {
      ProducedAreCreated(cfg, s, j);
    }
    assert j in multiset(SetBelow(|cfg.machines|));
    assert j in multiset(s.pool.pending) || j in s.pool.Enqueued();
    assert j in s.pool.taken ==> j in multiset(s.pool.taken);
  }

  /** As long as some task has not asked, the results are not all in and the channel is open. */
  lemma StillOpen(cfg: Config, s: World, j: nat)
    requires Inv(cfg, KeepsMachine(), s.pool) && ResultsFit(cfg, s) && j < |cfg.machines| && j !in s.creations
    ensures |s.pool.collected| < |cfg.machines| && !s.pool.closed
  {
    WhereUncreated(cfg, s, j);
    if |s.pool.collected| == |cfg.machines| {
      EmptyOnceAllCollected(cfg, s.pool);
      NobodyBusy(s.pool.workers);
      assert false;
    }
  }

  lemma HeldIsCreated(cfg: Config, s: World, w: nat)
    requires ResultsFit(cfg, s) && w < |s.pool.workers| && s.pool.workers[w].Holding?
    ensures s.pool.workers[w].done.task in s.creations
  {
    assert Fits(cfg, s, s.pool.workers[w].done);
  }

  predicate WaitsForJob(cfg: Config, s: World, w: nat)
    requires w < |s.pool.workers|
  {
    && s.pool.workers[w].Executing? && s.pool.workers[w].task < |cfg.machines|
    && s.pool.workers[w].task in s.creations && s.creations[s.pool.workers[w].task] == Accepted
  }

  /** As long as some task has not asked, a worker that is not waiting for a job leaves something to do. */
  lemma SomethingToDo(cfg: Config, run: string, s: World, j: nat, w: nat) returns (m: Move)
    requires Inv(cfg, KeepsMachine(), s.pool) && ResultsFit(cfg, s) && !s.crashed
    requires j < |cfg.machines| && j !in s.creations && w < |s.pool.workers| && !WaitsForJob(cfg, s, w)
    ensures CanMove(cfg, run, s, m) && !IsWaiting(s, m)
  {
    StillOpen(cfg, s, j);
    if s.pool.workers[w].Executing? {
      BusyTaskInRange(cfg, s.pool, w);
      var i := s.pool.workers[w].task;
      m := if i !in s.creations then Create(w, Failed)
           else Pool(Finish(w, BatchResult(cfg.machines[i], Some(CreateError("")), [])));
    } else if s.pool.workers[w].Holding? {
      m := Pool(if s.pool.resultChan == [] then Put(w) else Collect);
    } else {
      assert s.pool.workers[w].Idle?;
      m := IdleHasMore(cfg, run, s, j, w);
    }
  }

  lemma IdleHasMore(cfg: Config, run: string, s: World, j: nat, w: nat) returns (m: Move)
    requires Inv(cfg, KeepsMachine(), s.pool) && ResultsFit(cfg, s) && !s.crashed && !s.pool.closed
    requires j < |cfg.machines| && j !in s.creations && w < |s.pool.workers| && s.pool.workers[w].Idle?
    ensures CanMove(cfg, run, s, m) && !IsWaiting(s, m)
  {
    WhereUncreated(cfg, s, j);
    if s.pool.taskChan != [] {
      m := Pool(Recv(w));
    } else if j in s.pool.pending {
      m := Pool(Send(j));
    } else {
      var v := HolderOf(s.pool.workers, j);
      if s.pool.workers[v].Holding? {
        HeldIsCreated(cfg, s, v);
      }
      assert s.pool.workers[v] == Executing(j);
      m := Create(v, Failed);
    }
  }

  lemma {:induction false} SameTaskTwice(ws: seq<Worker<BatchResult>>, a: nat, b: nat)
    requires a < b < |ws| && ws[a].Executing? && ws[b] == ws[a]
    ensures BusyTasks(ws)[ws[a].task] >= 2
  {
    var n := |ws| - 1;
    if b == n {
      BusyBounded(ws[..n]);
      assert ws[..n][a] == ws[a];
      assert WorkerTask(ws[a])[ws[a].task] == 1;
    } else {
      SameTaskTwice(ws[..n], a, b);
    }
  }

  lemma {:induction false} SizeOfDistinct<T>(s: seq<T>)
    requires NoDuplicates(s)
    ensures |Elements(s)| == |s|
  {
    if s == [] {
      assert Elements(s) == {};
    } else {
      var n := |s| - 1;
      SizeOfDistinct(s[..n]);
      assert Elements(s) == Elements(s[..n]) + {s[n]};
    }
  }

  lemma NoTaskTwice(cfg: Config, s: State<BatchResult>, i: nat)
    requires Conserved(cfg, s)
    ensures BusyTasks(s.workers)[i] <= 1
  {
    assert multiset(SetBelow(|cfg.machines|))[i] <= 1;
    assert multiset(s.Enqueued())[i] == multiset(s.taken)[i] + multiset(s.taskChan)[i];
  }

  lemma DifferentInHand(cfg: Config, s: World, a: nat, b: nat)
    requires Conserved(cfg, s.pool) && OneJobEach(cfg, s) && a < b < |s.pool.workers|
    requires WaitsForJob(cfg, s, a) && WaitsForJob(cfg, s, b)
    ensures cfg.machines[s.pool.workers[a].task] != cfg.machines[s.pool.workers[b].task]
  {
    NoTaskTwice(cfg, s.pool, s.pool.workers[a].task);
    if s.pool.workers[a].task == s.pool.workers[b].task {
      SameTaskTwice(s.pool.workers, a, b);
    }
  }

  /** Workers that all wait for accepted jobs of different machines are no more than the machines. */
  lemma WaitersHaveMachines(cfg: Config, s: World)
    requires Conserved(cfg, s.pool) && OneJobEach(cfg, s)
    requires forall w: nat :: w < |s.pool.workers| ==> WaitsForJob(cfg, s, w)
    ensures |s.pool.workers| <= |MachineSet(cfg)|
  {
    var names := seq(|s.pool.workers|, w requires 0 <= w < |s.pool.workers| && WaitsForJob(cfg, s, w) =>
      cfg.machines[s.pool.workers[w].task]);
    forall k | 0 <= k < |names|
      ensures names[k] in MachineSet(cfg)
    {
      assert WaitsForJob(cfg, s, k);
      assert cfg.machines[s.pool.workers[k].task] in cfg.machines;
    }
    forall a, b | 0 <= a < b < |names|
      ensures names[a] != names[b]
    {
      DifferentInHand(cfg, s, a, b);
    }
    SizeOfDistinct(names);
    assert Elements(names) <= MachineSet(cfg);
    SubsetSize(Elements(names), MachineSet(cfg));
  }

  /** What a prompt batch with more workers than machines keeps. */
  ghost predicate EarlyEnough(cfg: Config, run: string, t: Timed) {
    && OneJobEach(cfg, t.world)
    && ((exists j: nat :: j < |cfg.machines| && j !in t.world.creations) ==>
          && t.now == 0
          && forall i: nat :: i < |cfg.machines| && i in t.world.creations && t.world.creations[i] == Accepted ==>
               i in t.accepted && NameOf(cfg, run, i) in t.world.jobs)
  }

  lemma EarlyStaysEarly(cfg: Config, run: string, t: Timed, e: Event)
    requires Inv(cfg, KeepsMachine(), t.world.pool) && ResultsFit(cfg, t.world)
    requires |MachineSet(cfg)| < cfg.concurrency
    requires EarlyEnough(cfg, run, t) && CanHappen(cfg, run, true, t, e)
    ensures EarlyEnough(cfg, run, After(cfg, run, true, t, e))
  {
    match e
    case Do(m) => MoveStaysEarly(cfg, run, t, m);
    case Wait(_) =>
      if j: nat :| j < |cfg.machines| && j !in t.world.creations {
        forall w: nat | w < |t.world.pool.workers|
          ensures WaitsForJob(cfg, t.world, w)
        {
          if !WaitsForJob(cfg, t.world, w) {
            var m := SomethingToDo(cfg, run, t.world, j, w);
          }
        }
        WaitersHaveMachines(cfg, t.world);
      }
  }

  lemma MoveStaysEarly(cfg: Config, run: string, t: Timed, m: Move)
    requires EarlyEnough(cfg, run, t) && CanHappen(cfg, run, true, t, Do(m))
    ensures EarlyEnough(cfg, run, After(cfg, run, true, t, Do(m)))
  {
    var u := After(cfg, run, true, t, Do(m));
    if j: nat :| j < |cfg.machines| && j !in u.world.creations {
      assert j !in t.world.creations;
    }
    if m.Create? {
      var i := t.world.pool.workers[m.worker].task;
      assert i !in t.world.creations;
      if m.creation.Accepted? {
        assert forall k: nat :: k < |cfg.machines| && cfg.machines[k] == cfg.machines[i] ==>
          NameOf(cfg, run, k) == NameOf(cfg, run, i);
      }
    }
  }

  lemma {:induction false} AlwaysEarly(cfg: Config, run: string, events: seq<Event>, trace: seq<Timed>, k: nat)
    requires IsTimedRun(cfg, run, true, events, trace) && k < |trace|
    requires |MachineSet(cfg)| < cfg.concurrency
    ensures EarlyEnough(cfg, run, trace[k])
  {
    if k > 0 {
      AlwaysEarly(cfg, run, events, trace, k - 1);
      ProjectsToBatch(cfg, run, true, events, trace, k - 1);
      BatchReachesFacts(cfg, run, trace[k-1].world);
      EarlyStaysEarly(cfg, run, trace[k-1], events[k-1]);
    }
  }

  // ----- otherwise two jobs for one machine can be had

  /** Entries of the list with different machines. */
  predicate Different(cfg: Config, ks: seq<nat>) {
    && (forall p :: 0 <= p < |ks| ==> ks[p] < |cfg.machines|)
    && forall p, q :: 0 <= p < q < |ks| ==> cfg.machines[ks[p]] != cfg.machines[ks[q]]
  }

  /** Any number of them up to that of the machines can be found, beginning with any entry. */
  lemma {:induction false} PickDifferent(cfg: Config, i: nat, n: nat) returns (ks: seq<nat>)
    requires i < |cfg.machines| && 1 <= n <= |MachineSet(cfg)|
    ensures |ks| == n && ks[0] == i && Different(cfg, ks)
  {
    if n == 1 {
      ks := [i];
    } else {
      ks := PickDifferent(cfg, i, n - 1);
      var names := Map((k: nat) => if k < |cfg.machines| then cfg.machines[k] else "", ks);
      SizeOfDistinct(names);
      if MachineSet(cfg) <= Elements(names) {
        SubsetSize(MachineSet(cfg), Elements(names));
      }
      var m :| m in MachineSet(cfg) && m !in Elements(names);
      var k: nat :| k < |cfg.machines| && cfg.machines[k] == m;
      assert forall p :: 0 <= p < |ks| ==> names[p] in names;
      ks := ks + [k];
    }
  }

  /** No time has passed and nothing is finished; the first n workers have had jobs accepted for the
      first n tasks of ks. */
  ghost predicate FirstAccepted(cfg: Config, run: string, ks: seq<nat>, n: nat, t: Timed)
    requires Different(cfg, ks) && n <= |ks| <= cfg.concurrency
  {
    var s := t.world;
    && t.now == 0 && !s.crashed && !s.pool.closed && !s.pool.panicked
    && s.pool.resultChan == [] && s.pool.collected == [] && |s.pool.workers| == cfg.concurrency
    && (forall p :: 0 <= p < n ==>
          && s.pool.workers[p] == Executing(ks[p])
          && ks[p] in s.creations && s.creations[ks[p]] == Accepted && NameOf(cfg, run, ks[p]) in s.jobs)
    && (forall x :: x in s.creations ==> x in ks[..n])
    && (forall x :: x in t.accepted ==> t.accepted[x] == 0)
  }

  /** The rest is as at the start. */
  ghost predicate OthersUntouched(cfg: Config, run: string, ks: seq<nat>, n: nat, t: Timed)
    requires Different(cfg, ks) && n <= |ks| <= cfg.concurrency && |t.world.pool.workers| == cfg.concurrency
  {
    && t.world.pool.taskChan == []
    && (forall w :: n <= w < cfg.concurrency ==> t.world.pool.workers[w] == Idle)
    && (forall x: nat :: x < |cfg.machines| && x !in ks[..n] ==> x in t.world.pool.pending)
    && (forall p :: n <= p < |ks| ==> NameOf(cfg, run, ks[p]) !in t.world.jobs)
  }

  lemma NotYetTaken(cfg: Config, ks: seq<nat>, n: nat)
    requires Different(cfg, ks) && n < |ks|
    ensures ks[n] !in ks[..n]
    ensures forall x :: x in ks[..n+1] <==> x in ks[..n] || x == ks[n]
  {
    assert ks[..n+1] == ks[..n] + [ks[n]];
  }

  /** Idle worker n is sent and receives task k. */
  function HandedOver(t: Timed, n: nat, k: nat): Timed
    requires n < |t.world.pool.workers|
  {
    var p := t.world.pool;
    t.(world := t.world.(pool :=
      p.(pending := p.pending - {k}, taken := p.taken + [k], workers := p.workers[n := Executing(k)])))
  }

  lemma HandOver(cfg: Config, run: string, prompt: bool, t: Timed, n: nat, k: nat)
    requires TimedReaches(cfg, run, prompt, t) && !t.world.crashed && !t.world.pool.panicked && !t.world.pool.closed
    requires n < |t.world.pool.workers| && t.world.pool.workers[n].Idle?
    requires k in t.world.pool.pending && t.world.pool.taskChan == [] && cfg.concurrency >= 1
    ensures TimedReaches(cfg, run, prompt, HandedOver(t, n, k))
  {
    TimedReachesNext(cfg, run, prompt, t, Do(Pool(Send(k))));
    var p := t.world.pool;
    var t1 := t.(world := t.world.(pool := p.(pending := p.pending - {k}, taskChan := [k])));
    assert t1 == After(cfg, run, prompt, t, Do(Pool(Send(k))));
    TimedReachesNext(cfg, run, prompt, t1, Do(Pool(Recv(n))));
    assert HandedOver(t, n, k) == After(cfg, run, prompt, t1, Do(Pool(Recv(n))));
  }

  /** The store accepts the job of task k. */
  function JobAccepted(cfg: Config, run: string, t: Timed, k: nat): Timed
    requires k < |cfg.machines|
  {
    t.(world := t.world.(creations := t.world.creations[k := Accepted], jobs := t.world.jobs + {NameOf(cfg, run, k)}),
       accepted := t.accepted[k := t.now])
  }

  lemma AcceptJob(cfg: Config, run: string, prompt: bool, t: Timed, n: nat, k: nat)
    requires TimedReaches(cfg, run, prompt, t) && !t.world.crashed && !t.world.pool.panicked
    requires n < |t.world.pool.workers| && t.world.pool.workers[n] == Executing(k) && k < |cfg.machines|
    requires k !in t.world.creations && NameOf(cfg, run, k) !in t.world.jobs
    ensures TimedReaches(cfg, run, prompt, JobAccepted(cfg, run, t, k))
  {
    TimedReachesNext(cfg, run, prompt, t, Do(Create(n, Accepted)));
    assert JobAccepted(cfg, run, t, k) == After(cfg, run, prompt, t, Do(Create(n, Accepted)));
  }

  lemma TakeUp(cfg: Config, run: string, prompt: bool, ks: seq<nat>, n: nat, t: Timed) returns (u: Timed)
    requires Different(cfg, ks) && n < |ks| <= cfg.concurrency && TimedReaches(cfg, run, prompt, t)
    requires FirstAccepted(cfg, run, ks, n, t) && OthersUntouched(cfg, run, ks, n, t)
    ensures TimedReaches(cfg, run, prompt, u)
    ensures FirstAccepted(cfg, run, ks, n + 1, u) && OthersUntouched(cfg, run, ks, n + 1, u)
  {
    NotYetTaken(cfg, ks, n);
    HandOver(cfg, run, prompt, t, n, ks[n]);
    AcceptJob(cfg, run, prompt, HandedOver(t, n, ks[n]), n, ks[n]);
    u := JobAccepted(cfg, run, HandedOver(t, n, ks[n]), ks[n]);
    FirstAcceptedNext(cfg, run, ks, n, t);
    OthersUntouchedNext(cfg, run, ks, n, t);
  }

  lemma FirstAcceptedNext(cfg: Config, run: string, ks: seq<nat>, n: nat, t: Timed)
    requires Different(cfg, ks) && n < |ks| <= cfg.concurrency && FirstAccepted(cfg, run, ks, n, t)
    ensures FirstAccepted(cfg, run, ks, n + 1, JobAccepted(cfg, run, HandedOver(t, n, ks[n]), ks[n]))
  {
    NotYetTaken(cfg, ks, n);
  }

  lemma OthersUntouchedNext(cfg: Config, run: string, ks: seq<nat>, n: nat, t: Timed)
    requires Different(cfg, ks) && n < |ks| <= cfg.concurrency && |t.world.pool.workers| == cfg.concurrency
    requires OthersUntouched(cfg, run, ks, n, t)
    ensures OthersUntouched(cfg, run, ks, n + 1, JobAccepted(cfg, run, HandedOver(t, n, ks[n]), ks[n]))
  {
    NotYetTaken(cfg, ks, n);
    NamesStayOut(cfg, run, ks, n, t.world.jobs);
  }

  lemma NamesStayOut(cfg: Config, run: string, ks: seq<nat>, n: nat, jobs: set<string>)
    requires Different(cfg, ks) && n < |ks|
    requires forall p :: n <= p < |ks| ==> NameOf(cfg, run, ks[p]) !in jobs
    ensures forall p :: n + 1 <= p < |ks| ==> NameOf(cfg, run, ks[p]) !in jobs + {NameOf(cfg, run, ks[n])}
  {
    forall p | n + 1 <= p < |ks|
      ensures NameOf(cfg, run, ks[p]) != NameOf(cfg, run, ks[n])
    {
      JobNameInjective(run, cfg.machines[ks[p]], cfg.machines[ks[n]]);
    }
  }

  lemma {:induction false} TakeAllUp(cfg: Config, run: string, prompt: bool, ks: seq<nat>, n: nat) returns (t: Timed)
    requires Different(cfg, ks) && n <= |ks| <= cfg.concurrency
    ensures TimedReaches(cfg, run, prompt, t)
    ensures FirstAccepted(cfg, run, ks, n, t) && OthersUntouched(cfg, run, ks, n, t)
  {
    if n == 0 {
      t := Timed(World(Init(cfg), {}, map[], false), 0, map[]);
      var none: seq<Event> := [];
      assert IsTimedRun(cfg, run, prompt, none, [t]) && [t][|none|] == t;
    } else {
      t := TakeAllUp(cfg, run, prompt, ks, n - 1);
      t := TakeUp(cfg, run, prompt, ks, n - 1, t);
    }
  }

  predicate NextIs(t: Timed, j: nat) {
    t.world.pool.taskChan != [] && t.world.pool.taskChan[0] == j
  }

  /** Senders go on until the channel is full or nobody is left. */
  lemma {:induction false} FillChannel(cfg: Config, run: string, prompt: bool, ks: seq<nat>, j: nat, t: Timed)
    returns (u: Timed)
    requires Different(cfg, ks) && |ks| <= cfg.concurrency && TimedReaches(cfg, run, prompt, t)
    requires FirstAccepted(cfg, run, ks, |ks|, t) && NextIs(t, j)
    ensures TimedReaches(cfg, run, prompt, u) && FirstAccepted(cfg, run, ks, |ks|, u) && NextIs(u, j)
    ensures u.world.pool.pending == {} || |u.world.pool.taskChan| >= cfg.concurrency
    decreases |t.world.pool.pending|
  {
    if t.world.pool.pending == {} || |t.world.pool.taskChan| >= cfg.concurrency {
      u := t;
    } else {
      var x :| x in t.world.pool.pending;
      TimedReachesNext(cfg, run, prompt, t, Do(Pool(Send(x))));
      u := FillChannel(cfg, run, prompt, ks, j, After(cfg, run, prompt, t, Do(Pool(Send(x)))));
    }
  }

  /** With every worker waiting and no sender able to send, there is nothing to do but wait. */
  lemma FullMeansWaiting(cfg: Config, run: string, ks: seq<nat>, t: Timed)
    requires Different(cfg, ks) && |ks| == cfg.concurrency && cfg.machines != []
    requires FirstAccepted(cfg, run, ks, |ks|, t)
    requires t.world.pool.pending == {} || |t.world.pool.taskChan| >= cfg.concurrency
    ensures OnlyWaiting(cfg, run, t.world)
  {
    assert forall w :: 0 <= w < |t.world.pool.workers| ==> t.world.pool.workers[w] == Executing(ks[w]);
  }

  /** After the time to live task i has timed out and its job is gone. */
  function WaitedOut(cfg: Config, run: string, t: Timed, i: nat): Timed
    requires i < |cfg.machines| && |t.world.pool.workers| >= 1
  {
    var p, r := t.world.pool, BatchResult(cfg.machines[i], Some(TimedOut), []);
    Timed(t.world.(pool := p.(workers := p.workers[0 := Holding(Done(i, r))]),
                   jobs := t.world.jobs - {NameOf(cfg, run, i)}),
          t.now + TTL, t.accepted)
  }

  lemma WaitOut(cfg: Config, run: string, prompt: bool, t: Timed, i: nat)
    requires TimedReaches(cfg, run, prompt, t) && (prompt ==> OnlyWaiting(cfg, run, t.world))
    requires !t.world.crashed && !t.world.pool.panicked && i < |cfg.machines|
    requires |t.world.pool.workers| >= 1 && t.world.pool.workers[0] == Executing(i)
    requires i in t.world.creations && t.world.creations[i] == Accepted && NameOf(cfg, run, i) in t.world.jobs
    requires forall x :: x in t.accepted ==> t.accepted[x] <= t.now
    ensures TimedReaches(cfg, run, prompt, WaitedOut(cfg, run, t, i))
  {
    var p, r := t.world.pool, BatchResult(cfg.machines[i], Some(TimedOut), []);
    TimedReachesNext(cfg, run, prompt, t, Wait(TTL));
    var t1 := t.(now := t.now + TTL);
    TimedReachesNext(cfg, run, prompt, t1, Do(Pool(Finish(0, r))));
    var t2 := t1.(world := t.world.(pool := p.(workers := p.workers[0 := Holding(Done(i, r))])));
    assert t2 == After(cfg, run, prompt, t1, Do(Pool(Finish(0, r))));
    TimedReachesNext(cfg, run, prompt, t2, Do(Expire(NameOf(cfg, run, i))));
    assert WaitedOut(cfg, run, t, i) == After(cfg, run, prompt, t2, Do(Expire(NameOf(cfg, run, i))));
  }

  /** The first of two entries of one machine waits out its timeout, its job is dropped, and its worker
      takes up the other. */
  lemma ThenTheOther(cfg: Config, run: string, prompt: bool, ks: seq<nat>, j: nat, t: Timed) returns (u: Timed)
    requires Different(cfg, ks) && 1 <= |ks| <= cfg.concurrency && TimedReaches(cfg, run, prompt, t)
    requires FirstAccepted(cfg, run, ks, |ks|, t) && NextIs(t, j)
    requires prompt ==> OnlyWaiting(cfg, run, t.world)
    requires j < |cfg.machines| && cfg.machines[j] == cfg.machines[ks[0]] && j != ks[0]
    ensures TimedReaches(cfg, run, prompt, u) && !OneJobEach(cfg, u.world)
  {
    NotAmong(cfg, ks, j);
    WaitOut(cfg, run, prompt, t, ks[0]);
    u := PutAndTake(cfg, run, prompt, ks[0], j, WaitedOut(cfg, run, t, ks[0]));
  }

  lemma NotAmong(cfg: Config, ks: seq<nat>, j: nat)
    requires Different(cfg, ks) && 1 <= |ks| && j < |cfg.machines|
    requires cfg.machines[j] == cfg.machines[ks[0]] && j != ks[0]
    ensures j !in ks[..|ks|]
  {
    assert ks[..|ks|] == ks;
    assert forall p :: 0 < p < |ks| ==> cfg.machines[ks[p]] != cfg.machines[j];
  }

  /** Worker 0 puts its result and receives the next task. */
  function Switched(t: Timed): Timed
    requires |t.world.pool.workers| >= 1 && t.world.pool.workers[0].Holding? && t.world.pool.taskChan != []
  {
    var p := t.world.pool;
    t.(world := t.world.(pool :=
      p.(taskChan := p.taskChan[1..], taken := p.taken + [p.taskChan[0]],
         workers := p.workers[0 := Executing(p.taskChan[0])], resultChan := p.resultChan + [p.workers[0].done])))
  }

  lemma Switch(cfg: Config, run: string, prompt: bool, t: Timed)
    requires TimedReaches(cfg, run, prompt, t) && !t.world.crashed && !t.world.pool.panicked
    requires |t.world.pool.workers| >= 1 && t.world.pool.workers[0].Holding? && t.world.pool.taskChan != []
    requires |t.world.pool.resultChan| < cfg.concurrency
    ensures TimedReaches(cfg, run, prompt, Switched(t))
  {
    var p := t.world.pool;
    TimedReachesNext(cfg, run, prompt, t, Do(Pool(Put(0))));
    var t1 := t.(world := t.world.(pool :=
      p.(workers := p.workers[0 := Idle], resultChan := p.resultChan + [p.workers[0].done])));
    assert t1 == After(cfg, run, prompt, t, Do(Pool(Put(0))));
    TimedReachesNext(cfg, run, prompt, t1, Do(Pool(Recv(0))));
    assert p.workers[0 := Idle][0 := Executing(p.taskChan[0])] == p.workers[0 := Executing(p.taskChan[0])];
    assert Switched(t) == After(cfg, run, prompt, t1, Do(Pool(Recv(0))));
  }

  lemma PutAndTake(cfg: Config, run: string, prompt: bool, i: nat, j: nat, t: Timed) returns (u: Timed)
    requires TimedReaches(cfg, run, prompt, t) && i < |cfg.machines| && j < |cfg.machines| && i != j
    requires cfg.machines[i] == cfg.machines[j] && NameOf(cfg, run, j) !in t.world.jobs && cfg.concurrency >= 1
    requires !t.world.crashed && !t.world.pool.panicked && |t.world.pool.workers| >= 1 && t.world.pool.resultChan == []
    requires t.world.pool.workers[0].Holding? && NextIs(t, j) && j !in t.world.creations
    requires i in t.world.creations && t.world.creations[i] == Accepted
    ensures TimedReaches(cfg, run, prompt, u) && !OneJobEach(cfg, u.world)
  {
    Switch(cfg, run, prompt, t);
    AcceptJob(cfg, run, prompt, Switched(t), 0, j);
    u := JobAccepted(cfg, run, Switched(t), j);
  }

  /** Two entries i and j of one machine, and, in a prompt batch, as many machines as workers. */
  lemma BothAccepted(cfg: Config, run: string, prompt: bool, i: nat, j: nat) returns (t: Timed)
    requires i < |cfg.machines| && j < |cfg.machines| && i != j && cfg.machines[i] == cfg.machines[j]
    requires cfg.concurrency >= 1 && (prompt ==> |MachineSet(cfg)| >= cfg.concurrency)
    ensures TimedReaches(cfg, run, prompt, t) && !OneJobEach(cfg, t.world)
  {
    assert cfg.machines[i] in MachineSet(cfg);
    var ks := PickDifferent(cfg, i, if prompt then cfg.concurrency else 1);
    t := TakeAllUp(cfg, run, prompt, ks, |ks|);
    NotAmong(cfg, ks, j);
    TimedReachesNext(cfg, run, prompt, t, Do(Pool(Send(j))));
    t := After(cfg, run, prompt, t, Do(Pool(Send(j))));
    t := FillChannel(cfg, run, prompt, ks, j, t);
    if prompt {
      FullMeansWaiting(cfg, run, ks, t);
    }
    t := ThenTheOther(cfg, run, prompt, ks, j, t);
  }

  // ----- the condition

  /** In every run of the batch, at every time, each machine has at most one entry past creation. */
  ghost predicate AlwaysOneJobEach(cfg: Config, run: string, prompt: bool) {
    forall t :: TimedReaches(cfg, run, prompt, t) ==> OneJobEach(cfg, t.world)
  }

  lemma {:induction false} NothingWithoutWorkers(cfg: Config, run: string, moves: seq<Move>, trace: seq<World>, k: nat)
    requires IsBatchRun(cfg, run, moves, trace) && k < |trace| && cfg.concurrency == 0
    ensures trace[k].creations == map[] && |trace[k].pool.workers| == 0
  {
    if k > 0 {
      NothingWithoutWorkers(cfg, run, moves, trace, k - 1);
    }
  }

  lemma OneJobEachWhen(cfg: Config, run: string, prompt: bool, t: Timed)
    requires cfg.concurrency == 0 || NoDuplicates(cfg.machines) || (prompt && |MachineSet(cfg)| < cfg.concurrency)
    requires TimedReaches(cfg, run, prompt, t)
    ensures OneJobEach(cfg, t.world)
  {
    var events, trace :| IsTimedRun(cfg, run, prompt, events, trace) && trace[|events|] == t;
    if cfg.concurrency == 0 {
      ProjectsToBatch(cfg, run, prompt, events, trace, |events|);
      var moves, worlds :| IsBatchRun(cfg, run, moves, worlds) && worlds[|moves|] == t.world;
      NothingWithoutWorkers(cfg, run, moves, worlds, |moves|);
    } else if prompt && |MachineSet(cfg)| < cfg.concurrency {
      AlwaysEarly(cfg, run, events, trace, |events|);
    }
  }

  /** Exactly when no machine ever gets two jobs: its list has no duplicate, or time passes only in
      waiting and there are more workers than machines in the list. */
  lemma OneJobEachExactly(cfg: Config, run: string, prompt: bool)
    ensures AlwaysOneJobEach(cfg, run, prompt) <==>
      cfg.concurrency == 0 || NoDuplicates(cfg.machines) || (prompt && |MachineSet(cfg)| < cfg.concurrency)
  {
    if cfg.concurrency == 0 || NoDuplicates(cfg.machines) || (prompt && |MachineSet(cfg)| < cfg.concurrency) {
      forall t | TimedReaches(cfg, run, prompt, t)
        ensures OneJobEach(cfg, t.world)
      {
        OneJobEachWhen(cfg, run, prompt, t);
      }
    } else {
      var i: nat, j: nat :| i < j < |cfg.machines| && cfg.machines[i] == cfg.machines[j];
      var t := BothAccepted(cfg, run, prompt, i, j);
    }
  }

  /** Without the clock, whenever jobs may be dropped: exactly when the list has no duplicate. */
  lemma OneJobEachWheneverDropped(cfg: Config, run: string)
    requires cfg.concurrency >= 1
    ensures (forall s :: BatchReaches(cfg, run, s) ==> OneJobEach(cfg, s)) <==> NoDuplicates(cfg.machines)
  {
    if !NoDuplicates(cfg.machines) {
      OneJobEachExactly(cfg, run, false);
      var t :| TimedReaches(cfg, run, false, t) && !OneJobEach(cfg, t.world);
      var events, trace :| IsTimedRun(cfg, run, false, events, trace) && trace[|events|] == t;
      ProjectsToBatch(cfg, run, false, events, trace, |events|);
    }
  }
}
