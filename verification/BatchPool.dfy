/**
 The worker pool both batch executors run, as a step system: one sender goroutine per machine,
 `concurrency` workers, a task channel and a result channel of capacity `concurrency`, and a
 collector that takes one result per machine and then closes the task channel.

 A task is named by its position in the machine list, so two entries with the same machine name
 stay distinct. What a worker computes is a relation between the machine name and the result.
 */
module BatchPool {
  import opened Collections

  datatype Config = Config(machines: seq<string>, concurrency: nat)

  /** Which results a task body may return for a machine. */
  type TaskBody<!R> = (string, R) -> bool

  datatype Done<+R> = Done(task: nat, result: R)

  datatype Worker<+R> =
    | Idle                       // blocked on, or about to read, the task channel
    | Executing(task: nat)       // inside executeTask
    | Holding(done: Done<R>)     // about to send a result
    | Exited                     // saw the task channel closed and drained

  /** `taken` only records history: the tasks workers have received, in the order they did. */
  datatype State<+R> = State(
    pending: set<nat>,
    taskChan: seq<nat>,
    taken: seq<nat>,
    workers: seq<Worker<R>>,
    resultChan: seq<Done<R>>,
    collected: seq<Done<R>>,
    closed: bool,
    panicked: bool)
  {
    /** The order in which senders got their task onto the channel. */
    function Enqueued(): seq<nat> {
      taken + taskChan
    }

    /** The order in which workers got their result onto the channel. */
    function Produced(): seq<Done<R>> {
      collected + resultChan
    }
  }

  datatype Step<+R> =
    | Send(task: nat)
    | Recv(worker: nat)
    | Finish(worker: nat, result: R)
    | Put(worker: nat)
    | Collect
    | Close
    | Exit(worker: nat)

  function Init<R>(cfg: Config): State<R> {
    State(SetBelow(|cfg.machines|), [], [], seq(cfg.concurrency, _ => Idle), [], [], false, false)
  }

  /** Go's rules: a send waits for room unless the channel is closed, when it panics; a receive
      waits for an element; a panic stops the whole process. */
  predicate Enabled<R>(cfg: Config, body: TaskBody<R>, s: State<R>, step: Step<R>) {
    && !s.panicked
    && match step
       case Send(i) => i in s.pending && (s.closed || |s.taskChan| < cfg.concurrency)
       case Recv(w) => w < |s.workers| && s.workers[w].Idle? && s.taskChan != []
       case Finish(w, r) =>
         && w < |s.workers| && s.workers[w].Executing?
         && s.workers[w].task < |cfg.machines| && body(cfg.machines[s.workers[w].task], r)
       case Put(w) => w < |s.workers| && s.workers[w].Holding? && |s.resultChan| < cfg.concurrency
       case Collect => s.resultChan != [] && |s.collected| < |cfg.machines|
       case Close => !s.closed && |s.collected| == |cfg.machines|
       case Exit(w) => w < |s.workers| && s.workers[w].Idle? && s.closed && s.taskChan == []
  }

  function Apply<R>(cfg: Config, body: TaskBody<R>, s: State<R>, step: Step<R>): State<R>
    requires Enabled(cfg, body, s, step)
  {
    match step
    case Send(i) =>
      if s.closed then s.(panicked := true)
      else s.(pending := s.pending - {i}, taskChan := s.taskChan + [i])
    case Recv(w) =>
      s.(taskChan := s.taskChan[1..], taken := s.taken + [s.taskChan[0]],
         workers := s.workers[w := Executing(s.taskChan[0])])
    case Finish(w, r) => s.(workers := s.workers[w := Holding(Done(s.workers[w].task, r))])
    case Put(w) => s.(workers := s.workers[w := Idle], resultChan := s.resultChan + [s.workers[w].done])
    case Collect => s.(resultChan := s.resultChan[1..], collected := s.collected + [s.resultChan[0]])
    case Close => s.(closed := true)
    case Exit(w) => s.(workers := s.workers[w := Exited])
  }

  /** `Execute` has returned and no goroutine it started is left. */
  predicate Final<R>(s: State<R>) {
    && s.closed && s.pending == {}
    && forall w :: 0 <= w < |s.workers| ==> s.workers[w].Exited?
  }

  /** An interleaving: the steps taken and the states they pass through. */
  ghost predicate IsRun<R>(cfg: Config, body: TaskBody<R>, steps: seq<Step<R>>, trace: seq<State<R>>) {
    && |trace| == |steps| + 1
    && trace[0] == Init(cfg)
    && forall k :: 0 <= k < |steps| ==>
         Enabled(cfg, body, trace[k], steps[k]) && trace[k+1] == Apply(cfg, body, trace[k], steps[k])
  }

  // ----- what one worker contributes

  function Tasks<R>(results: seq<Done<R>>): (r: seq<nat>)
    ensures |r| == |results|
  {
    Map((d: Done<R>) => d.task, results)
  }

  function Results<R>(results: seq<Done<R>>): seq<R> {
    Map((d: Done<R>) => d.result, results)
  }

  function WorkerTask<R>(w: Worker<R>): multiset<nat> {
    match w
    case Executing(i) => multiset{i}
    case Holding(d) => multiset{d.task}
    case _ => multiset{}
  }

  function BusyTasks<R>(ws: seq<Worker<R>>): multiset<nat> {
    if ws == [] then multiset{} else BusyTasks(ws[..|ws|-1]) + WorkerTask(ws[|ws|-1])
  }

  /** Steps a worker still has to take for what it holds, and to exit. */
  function WorkerCost<R>(w: Worker<R>): nat {
    match w
    case Idle => 1
    case Executing(_) => 4
    case Holding(_) => 3
    case Exited => 0
  }

  function WorkersCost<R>(ws: seq<Worker<R>>): nat {
    if ws == [] then 0 else WorkersCost(ws[..|ws|-1]) + WorkerCost(ws[|ws|-1])
  }

  lemma {:induction false} BusyTasksUpdate<R>(ws: seq<Worker<R>>, k: nat, w: Worker<R>)
    requires k < |ws|
    ensures BusyTasks(ws[k := w]) + WorkerTask(ws[k]) == BusyTasks(ws) + WorkerTask(w)
  {
    var n := |ws| - 1;
    if k < n {
      BusyTasksUpdate(ws[..n], k, w);
      assert ws[k := w][..n] == ws[..n][k := w];
      AddToBoth(BusyTasks(ws[..n][k := w]), WorkerTask(ws[k]), BusyTasks(ws[..n]), WorkerTask(w), WorkerTask(ws[n]));
    } else {
      assert ws[k := w][..n] == ws[..n];
      Swap(BusyTasks(ws[..n]), WorkerTask(w), WorkerTask(ws[n]));
    }
  }

  lemma AddToBoth(a: multiset<nat>, b: multiset<nat>, c: multiset<nat>, d: multiset<nat>, more: multiset<nat>)
    requires a + b == c + d
    ensures (a + more) + b == (c + more) + d
  {
    forall x: nat
      ensures ((a + more) + b)[x] == ((c + more) + d)[x]
    {
      assert (a + b)[x] == (c + d)[x];
    }
  }

  lemma Swap(a: multiset<nat>, b: multiset<nat>, c: multiset<nat>)
    ensures (a + b) + c == (a + c) + b
  {
  }

  lemma Cancel(a: multiset<nat>, b: multiset<nat>, c: multiset<nat>)
    requires a + c == b + c
    ensures a == b
  {
    forall x: nat
      ensures a[x] == b[x]
    {
      assert (a + c)[x] == (b + c)[x];
    }
  }

  lemma {:induction false} WorkersCostUpdate<R>(ws: seq<Worker<R>>, k: nat, w: Worker<R>)
    requires k < |ws|
    ensures WorkersCost(ws[k := w]) + WorkerCost(ws[k]) == WorkersCost(ws) + WorkerCost(w)
  {
    var n := |ws| - 1;
    if k < n {
      WorkersCostUpdate(ws[..n], k, w);
      assert ws[k := w][..n] == ws[..n][k := w];
    } else {
      assert ws[k := w][..n] == ws[..n];
    }
  }

  lemma {:induction false} AllIdle<R>(n: nat)
    ensures BusyTasks<R>(seq(n, _ => Idle)) == multiset{}
    ensures WorkersCost<R>(seq(n, _ => Idle)) == n
  {
    if n > 0 {
      AllIdle<R>(n - 1);
      assert seq<Worker<R>>(n, _ => Idle)[..n-1] == seq<Worker<R>>(n - 1, _ => Idle);
    }
  }

  lemma SameTasks<R>(ws: seq<Worker<R>>, k: nat, w: Worker<R>)
    requires k < |ws| && WorkerTask(ws[k]) == WorkerTask(w)
    ensures BusyTasks(ws[k := w]) == BusyTasks(ws)
  {
    BusyTasksUpdate(ws, k, w);
    Cancel(BusyTasks(ws[k := w]), BusyTasks(ws), WorkerTask(w));
  }

  /** No more tasks are in workers' hands than there are workers. */
  lemma {:induction false} BusyBounded<R>(ws: seq<Worker<R>>)
    ensures |BusyTasks(ws)| <= |ws|
    ensures forall w :: 0 <= w < |ws| ==> WorkerTask(ws[w]) <= BusyTasks(ws)
  {
    if ws != [] {
      BusyBounded(ws[..|ws|-1]);
      forall w | 0 <= w < |ws|
        ensures WorkerTask(ws[w]) <= BusyTasks(ws)
      {
        if w < |ws| - 1 {
          assert ws[..|ws|-1][w] == ws[w];
        }
      }
    }
  }

  /** A task in workers' hands is in the hands of one. */
  lemma {:induction false} HolderOf<R>(ws: seq<Worker<R>>, j: nat) returns (w: nat)
    requires j in BusyTasks(ws)
    ensures w < |ws| && j in WorkerTask(ws[w])
  {
    var n := |ws| - 1;
    if j in WorkerTask(ws[n]) {
      w := n;
    } else {
      w := HolderOf(ws[..n], j);
    }
  }

  // ----- the invariant

  /** Each input task is in exactly one place: unsent, queued, or received; and each received task
      is in exactly one worker or among the produced results. */
  ghost predicate Conserved<R>(cfg: Config, s: State<R>) {
    && multiset(s.pending) + multiset(s.Enqueued()) == multiset(SetBelow(|cfg.machines|))
    && multiset(s.taken) == multiset(Tasks(s.Produced())) + BusyTasks(s.workers)
  }

  ghost predicate Bounded<R>(cfg: Config, s: State<R>) {
    && |s.workers| == cfg.concurrency
    && |s.taskChan| <= cfg.concurrency
    && |s.resultChan| <= cfg.concurrency
    && |s.collected| <= |cfg.machines|
  }

  ghost predicate CloseOrder<R>(cfg: Config, s: State<R>) {
    && !s.panicked
    && (s.closed ==> |s.collected| == |cfg.machines|)
    && (forall w :: 0 <= w < |s.workers| && s.workers[w].Exited? ==> s.closed)
  }

  /** Every result in flight was returned by the task body for its task's machine. */
  ghost predicate Answered<R>(cfg: Config, body: TaskBody<R>, s: State<R>) {
    && (forall k :: 0 <= k < |s.Produced()| ==> Answers(cfg, body, s.Produced()[k]))
    && (forall w :: 0 <= w < |s.workers| && s.workers[w].Holding? ==> Answers(cfg, body, s.workers[w].done))
  }

  predicate Answers<R>(cfg: Config, body: TaskBody<R>, d: Done<R>) {
    d.task < |cfg.machines| && body(cfg.machines[d.task], d.result)
  }

  /** Limited overtaking: the k-th result produced belongs to one of the first k + concurrency
      tasks enqueued. */
  ghost predicate NearFifo<R>(cfg: Config, s: State<R>) {
    forall k :: 0 <= k < |s.Produced()| ==>
      s.Produced()[k].task in FirstOf(s.Enqueued(), k + cfg.concurrency)
  }

  function FirstOf<T>(s: seq<T>, n: nat): seq<T> {
    if n < |s| then s[..n] else s
  }

  ghost predicate Inv<R>(cfg: Config, body: TaskBody<R>, s: State<R>) {
    && Conserved(cfg, s)
    && Bounded(cfg, s)
    && CloseOrder(cfg, s)
    && Answered(cfg, body, s)
    && NearFifo(cfg, s)
  }

  lemma InitInv<R>(cfg: Config, body: TaskBody<R>)
    ensures Inv(cfg, body, Init<R>(cfg))
  {
    AllIdle<R>(cfg.concurrency);
    assert Init<R>(cfg).Enqueued() == [];
    assert Init<R>(cfg).Produced() == [];
    assert Tasks<R>([]) == [];
  }

  /** Where the tasks are, counted. */
  lemma Counts<R>(cfg: Config, s: State<R>)
    requires Conserved(cfg, s)
    ensures |s.pending| + |s.taskChan| + |BusyTasks(s.workers)| + |s.resultChan| + |s.collected| == |cfg.machines|
    ensures |s.taken| == |s.Produced()| + |BusyTasks(s.workers)|
  {
    SetBelowSize(|cfg.machines|);
    assert |multiset(s.pending) + multiset(s.Enqueued())| == |s.pending| + |s.Enqueued()|;
    assert |multiset(s.taken)| == |s.taken|;
    assert |multiset(Tasks(s.Produced())) + BusyTasks(s.workers)| == |s.Produced()| + |BusyTasks(s.workers)|;
  }

  lemma EmptyOnceAllCollected<R>(cfg: Config, s: State<R>)
    requires Conserved(cfg, s) && |s.collected| == |cfg.machines|
    ensures s.pending == {} && s.taskChan == [] && s.resultChan == []
    ensures forall w :: 0 <= w < |s.workers| ==> s.workers[w].Idle? || s.workers[w].Exited?
  {
    Counts(cfg, s);
    assert |s.pending| == 0;
    BusyBounded(s.workers);
    forall w | 0 <= w < |s.workers|
      ensures s.workers[w].Idle? || s.workers[w].Exited?
    {
      assert WorkerTask(s.workers[w]) <= BusyTasks(s.workers) == multiset{};
    }
  }

  lemma SendKeepsInv<R>(cfg: Config, body: TaskBody<R>, s: State<R>, i: nat)
    requires Inv(cfg, body, s) && Enabled(cfg, body, s, Send(i))
    ensures !s.closed
    ensures Inv(cfg, body, Apply(cfg, body, s, Send(i)))
  {
    if s.closed {
      EmptyOnceAllCollected(cfg, s);
    }
    var t := Apply(cfg, body, s, Send(i));
    assert t.Enqueued() == s.Enqueued() + [i];
    assert t.Produced() == s.Produced();
    assert Conserved(cfg, t) by {
      assert multiset(s.pending) == multiset(t.pending) + multiset{i};
      assert multiset(t.Enqueued()) == multiset(s.Enqueued()) + multiset{i};
    }
    SendStaysNear(cfg, s, t, i);
  }

  lemma SendStaysNear<R>(cfg: Config, s: State<R>, t: State<R>, i: nat)
    requires NearFifo(cfg, s) && t.Produced() == s.Produced() && t.Enqueued() == s.Enqueued() + [i]
    ensures NearFifo(cfg, t)
  {
    forall k | 0 <= k < |t.Produced()|
      ensures t.Produced()[k].task in FirstOf(t.Enqueued(), k + cfg.concurrency)
    {
      FirstOfExtends(s.Enqueued(), [i], k + cfg.concurrency, s.Produced()[k].task);
    }
  }

  lemma FirstOfExtends<T>(s: seq<T>, more: seq<T>, n: nat, x: T)
    requires x in FirstOf(s, n)
    ensures x in FirstOf(s + more, n)
  {
    var j :| 0 <= j < |FirstOf(s, n)| && FirstOf(s, n)[j] == x;
    assert FirstOf(s + more, n)[j] == x;
  }

  lemma RecvKeepsInv<R>(cfg: Config, body: TaskBody<R>, s: State<R>, w: nat)
    requires Inv(cfg, body, s) && Enabled(cfg, body, s, Recv(w))
    ensures Inv(cfg, body, Apply(cfg, body, s, Recv(w)))
  {
    var t := Apply(cfg, body, s, Recv(w));
    assert t.Enqueued() == s.Enqueued();
    assert t.Produced() == s.Produced();
    assert Conserved(cfg, t) by {
      RecvMovesTask(s.taken, multiset(Tasks(s.Produced())), s.workers, w, s.taskChan[0]);
    }
  }

  lemma RecvMovesTask<R>(taken: seq<nat>, produced: multiset<nat>, ws: seq<Worker<R>>, w: nat, i: nat)
    requires w < |ws| && ws[w].Idle?
    requires multiset(taken) == produced + BusyTasks(ws)
    ensures multiset(taken + [i]) == produced + BusyTasks(ws[w := Executing(i)])
  {
    BusyTasksUpdate(ws, w, Executing(i));
    assert BusyTasks(ws[w := Executing(i)]) + multiset{} == BusyTasks(ws[w := Executing(i)]);
    assert multiset(taken + [i]) == multiset(taken) + multiset{i};
  }

  lemma FinishKeepsInv<R>(cfg: Config, body: TaskBody<R>, s: State<R>, w: nat, r: R)
    requires Inv(cfg, body, s) && Enabled(cfg, body, s, Finish(w, r))
    ensures Inv(cfg, body, Apply(cfg, body, s, Finish(w, r)))
  {
    var t := Apply(cfg, body, s, Finish(w, r));
    assert Conserved(cfg, t) && NearFifo(cfg, t) by {
      SameTasks(s.workers, w, t.workers[w]);
      OnlyWorkersChange(cfg, s, t);
    }
    assert Answered(cfg, body, t) by {
      FinishAnswers(cfg, body, s, w, r);
    }
  }

  lemma OnlyWorkersChange<R>(cfg: Config, s: State<R>, t: State<R>)
    requires Conserved(cfg, s) && NearFifo(cfg, s)
    requires t == s.(workers := t.workers) && BusyTasks(t.workers) == BusyTasks(s.workers)
    ensures Conserved(cfg, t) && NearFifo(cfg, t)
  {
    assert t.Enqueued() == s.Enqueued();
    assert t.Produced() == s.Produced();
  }

  lemma FinishAnswers<R>(cfg: Config, body: TaskBody<R>, s: State<R>, w: nat, r: R)
    requires Answered(cfg, body, s) && Enabled(cfg, body, s, Finish(w, r))
    ensures Answered(cfg, body, Apply(cfg, body, s, Finish(w, r)))
  {
    var t := Apply(cfg, body, s, Finish(w, r));
    assert t.Produced() == s.Produced();
    assert Answers(cfg, body, t.workers[w].done);
  }

  lemma PutKeepsInv<R>(cfg: Config, body: TaskBody<R>, s: State<R>, w: nat)
    requires Inv(cfg, body, s) && Enabled(cfg, body, s, Put(w))
    ensures Inv(cfg, body, Apply(cfg, body, s, Put(w)))
  {
    PutConserves(cfg, body, s, w);
    PutKeepsBounds(cfg, body, s, w);
    PutAnswers(cfg, body, s, w);
    PutKeepsNear(cfg, body, s, w);
  }

  lemma PutConserves<R>(cfg: Config, body: TaskBody<R>, s: State<R>, w: nat)
    requires Conserved(cfg, s) && Enabled(cfg, body, s, Put(w))
    ensures Conserved(cfg, Apply(cfg, body, s, Put(w)))
  {
    var t := Apply(cfg, body, s, Put(w));
    assert t.Produced() == s.Produced() + [s.workers[w].done];
    PutMovesTask(s.Produced(), s.workers, w);
  }

  lemma PutKeepsBounds<R>(cfg: Config, body: TaskBody<R>, s: State<R>, w: nat)
    requires Bounded(cfg, s) && CloseOrder(cfg, s) && Enabled(cfg, body, s, Put(w))
    ensures Bounded(cfg, Apply(cfg, body, s, Put(w))) && CloseOrder(cfg, Apply(cfg, body, s, Put(w)))
  {
  }

  lemma PutAnswers<R>(cfg: Config, body: TaskBody<R>, s: State<R>, w: nat)
    requires Answered(cfg, body, s) && Enabled(cfg, body, s, Put(w))
    ensures Answered(cfg, body, Apply(cfg, body, s, Put(w)))
  {
    var t := Apply(cfg, body, s, Put(w));
    assert t.Produced() == s.Produced() + [s.workers[w].done];
  }

  lemma PutKeepsNear<R>(cfg: Config, body: TaskBody<R>, s: State<R>, w: nat)
    requires Conserved(cfg, s) && Bounded(cfg, s) && NearFifo(cfg, s) && Enabled(cfg, body, s, Put(w))
    ensures NearFifo(cfg, Apply(cfg, body, s, Put(w)))
  {
    var t := Apply(cfg, body, s, Put(w));
    assert t.Produced() == s.Produced() + [s.workers[w].done];
    assert t.Enqueued() == s.Enqueued();
    PutStaysNear(cfg, s, w);
  }

  lemma PutMovesTask<R>(produced: seq<Done<R>>, ws: seq<Worker<R>>, w: nat)
    requires w < |ws| && ws[w].Holding?
    ensures multiset(Tasks(produced + [ws[w].done])) + BusyTasks(ws[w := Idle])
         == multiset(Tasks(produced)) + BusyTasks(ws)
  {
    var i := ws[w].done.task;
    assert Tasks(produced + [ws[w].done]) == Tasks(produced) + [i];
    BusyTasksUpdate(ws, w, Idle);
    assert BusyTasks(ws[w := Idle]) + multiset{i} == BusyTasks(ws);
    Swap(multiset(Tasks(produced)), multiset{i}, BusyTasks(ws[w := Idle]));
  }

  /** The task being produced was received, and at most `concurrency` received tasks are unproduced. */
  lemma PutStaysNear<R>(cfg: Config, s: State<R>, w: nat)
    requires Conserved(cfg, s) && Bounded(cfg, s)
    requires w < |s.workers| && s.workers[w].Holding?
    ensures s.workers[w].done.task in FirstOf(s.Enqueued(), |s.Produced()| + cfg.concurrency)
  {
    var i := s.workers[w].done.task;
    assert i in s.taken by {
      BusyBounded(s.workers);
      assert i in WorkerTask(s.workers[w]);
      assert i in multiset(s.taken);
    }
    assert |s.taken| <= |s.Produced()| + cfg.concurrency by {
      Counts(cfg, s);
      BusyBounded(s.workers);
    }
    FirstOfPrefix(s.taken, s.taskChan, |s.Produced()| + cfg.concurrency, i);
  }

  lemma FirstOfPrefix<T>(s: seq<T>, more: seq<T>, n: nat, x: T)
    requires x in s && |s| <= n
    ensures x in FirstOf(s + more, n)
  {
    var j :| 0 <= j < |s| && s[j] == x;
    assert FirstOf(s + more, n)[j] == x;
  }

  lemma CollectKeepsInv<R>(cfg: Config, body: TaskBody<R>, s: State<R>)
    requires Inv(cfg, body, s) && Enabled(cfg, body, s, Collect)
    ensures Inv(cfg, body, Apply(cfg, body, s, Collect))
  {
    var t := Apply(cfg, body, s, Collect);
    assert t.Enqueued() == s.Enqueued();
    assert t.Produced() == s.Produced();
  }

  lemma CloseKeepsInv<R>(cfg: Config, body: TaskBody<R>, s: State<R>)
    requires Inv(cfg, body, s) && Enabled(cfg, body, s, Close)
    ensures Inv(cfg, body, Apply(cfg, body, s, Close))
  {
    var t := Apply(cfg, body, s, Step<R>.Close);
    assert t.Enqueued() == s.Enqueued();
    assert t.Produced() == s.Produced();
  }

  lemma ExitKeepsInv<R>(cfg: Config, body: TaskBody<R>, s: State<R>, w: nat)
    requires Inv(cfg, body, s) && Enabled(cfg, body, s, Exit(w))
    ensures Inv(cfg, body, Apply(cfg, body, s, Exit(w)))
  {
    var t := Apply(cfg, body, s, Exit(w));
    assert t.Enqueued() == s.Enqueued();
    assert t.Produced() == s.Produced();
    SameTasks(s.workers, w, Exited);
  }

  lemma StepKeepsInv<R>(cfg: Config, body: TaskBody<R>, s: State<R>, step: Step<R>)
    requires Inv(cfg, body, s) && Enabled(cfg, body, s, step)
    ensures Inv(cfg, body, Apply(cfg, body, s, step))
  {
    match step
    case Send(i) => SendKeepsInv(cfg, body, s, i);
    case Recv(w) => RecvKeepsInv(cfg, body, s, w);
    case Finish(w, r) => FinishKeepsInv(cfg, body, s, w, r);
    case Put(w) => PutKeepsInv(cfg, body, s, w);
    case Collect => CollectKeepsInv(cfg, body, s);
    case Close => CloseKeepsInv(cfg, body, s);
    case Exit(w) => ExitKeepsInv(cfg, body, s, w);
  }

  /** The invariant holds at every state of every interleaving. */
  lemma {:induction false} RunKeepsInv<R>(
    cfg: Config, body: TaskBody<R>, steps: seq<Step<R>>, trace: seq<State<R>>, k: nat)
    requires IsRun(cfg, body, steps, trace) && k < |trace|
    ensures Inv(cfg, body, trace[k])
  {
    if k == 0 {
      InitInv(cfg, body);
    } else {
      RunKeepsInv(cfg, body, steps, trace, k - 1);
      StepKeepsInv(cfg, body, trace[k-1], steps[k-1]);
    }
  }

  lemma RunExtends<R>(cfg: Config, body: TaskBody<R>, steps: seq<Step<R>>, trace: seq<State<R>>, step: Step<R>)
    requires IsRun(cfg, body, steps, trace) && Enabled(cfg, body, trace[|steps|], step)
    ensures IsRun(cfg, body, steps + [step], trace + [Apply(cfg, body, trace[|steps|], step)])
  {
    var longer := trace + [Apply(cfg, body, trace[|steps|], step)];
    forall k | 0 <= k < |steps| + 1
      ensures Enabled(cfg, body, longer[k], (steps + [step])[k])
      ensures longer[k+1] == Apply(cfg, body, longer[k], (steps + [step])[k])
    {
      if k < |steps| {
        assert longer[k] == trace[k] && longer[k+1] == trace[k+1];
      }
    }
  }

  /** Some interleaving leads to the state. */
  ghost predicate Reaches<R(!new)>(cfg: Config, body: TaskBody<R>, s: State<R>) {
    exists steps, trace :: IsRun(cfg, body, steps, trace) && trace[|steps|] == s
  }

  lemma StartIsReached<R(!new)>(cfg: Config, body: TaskBody<R>)
    ensures Reaches(cfg, body, Init<R>(cfg))
  {
    var none: seq<Step<R>> := [];
    var start := [Init<R>(cfg)];
    assert IsRun(cfg, body, none, start) && start[|none|] == Init<R>(cfg);
  }

  lemma ReachesNext<R(!new)>(cfg: Config, body: TaskBody<R>, s: State<R>, step: Step<R>)
    requires Reaches(cfg, body, s) && Enabled(cfg, body, s, step)
    ensures Reaches(cfg, body, Apply(cfg, body, s, step))
  {
    var steps, trace :| IsRun(cfg, body, steps, trace) && trace[|steps|] == s;
    RunExtends(cfg, body, steps, trace, step);
    var longer := trace + [Apply(cfg, body, s, step)];
    assert IsRun(cfg, body, steps + [step], longer);
    assert longer[|steps + [step]|] == Apply(cfg, body, s, step);
  }

  lemma ReachesInv<R(!new)>(cfg: Config, body: TaskBody<R>, s: State<R>)
    requires Reaches(cfg, body, s)
    ensures Inv(cfg, body, s)
  {
    var steps, trace :| IsRun(cfg, body, steps, trace) && trace[|steps|] == s;
    RunKeepsInv(cfg, body, steps, trace, |steps|);
  }
}
