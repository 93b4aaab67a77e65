/** Exactly which orders the results of a batch can come in. */
module BatchOrder {
  import opened Collections
  import opened BatchPool
  import opened BatchRuns

  /** Some run takes its tasks up in one order, answers them in the other, and closes the channel. */
  ghost predicate CanProduce<R(!new)>(cfg: Config, body: TaskBody<R>, enqueued: seq<nat>, produced: seq<nat>) {
    exists s :: Reaches(cfg, body, s) && s.closed && s.Enqueued() == enqueued && Tasks(s.collected) == produced
  }

  predicate IsOrder(cfg: Config, order: seq<nat>) {
    multiset(order) == multiset(Indices(|cfg.machines|))
  }

  /** Each result belongs to one of the first tasks enqueued, as many as were answered before it and
      one per worker. */
  predicate WithinWindow(cfg: Config, enqueued: seq<nat>, produced: seq<nat>) {
    forall p :: 0 <= p < |produced| ==> produced[p] in FirstOf(enqueued, p + cfg.concurrency)
  }

  lemma OrderIsWithinWindow<R(!new)>(cfg: Config, body: TaskBody<R>, s: State<R>)
    requires Reaches(cfg, body, s) && s.closed
    ensures IsOrder(cfg, s.Enqueued()) && IsOrder(cfg, Tasks(s.collected))
    ensures WithinWindow(cfg, s.Enqueued(), Tasks(s.collected))
  {
    ReachesInv(cfg, body, s);
    ClosedMeansAllAnswered(cfg, body, s);
    SetBelowSize(|cfg.machines|);
    assert s.Produced() == s.collected;
  }

  // ----- every such order comes about

  lemma OrderOnce(cfg: Config, order: seq<nat>, k: nat)
    requires IsOrder(cfg, order) && k < |order|
    ensures |order| == |cfg.machines| && order[k] < |cfg.machines|
    ensures order[k] !in order[..k]
  {
    assert |multiset(order)| == |order|;
    assert order[k] in multiset(Indices(|cfg.machines|));
    forall x: nat
      ensures multiset(order)[x] <= 1
    {
      SetBelowSize(|cfg.machines|);
      assert multiset(SetBelow(|cfg.machines|))[x] <= 1;
    }
    NoDuplicatesFromMultiset(order);
  }

  /** t tasks taken up and p of them answered, in the given orders; the rest of them executing, both
      channels empty. */
  ghost predicate Between<R>(enqueued: seq<nat>, produced: seq<nat>, p: nat, t: nat, s: State<R>)
    requires p <= |produced| && t <= |enqueued|
  {
    && !s.closed && s.taskChan == [] && s.resultChan == []
    && s.taken == enqueued[..t] && Tasks(s.collected) == produced[..p]
    && forall w :: 0 <= w < |s.workers| ==> !s.workers[w].Holding?
  }

  lemma {:induction false} NobodyIdle<R>(ws: seq<Worker<R>>)
    requires forall w :: 0 <= w < |ws| ==> ws[w].Executing?
    ensures |BusyTasks(ws)| == |ws|
  {
    if ws != [] {
      NobodyIdle(ws[..|ws|-1]);
    }
  }

  /** With fewer than C tasks in hand some worker is idle. */
  lemma IdleWorker<R(!new)>(cfg: Config, body: TaskBody<R>, s: State<R>) returns (w: nat)
    requires Inv(cfg, body, s) && !s.closed && |s.taken| < |s.Produced()| + cfg.concurrency
    requires forall w :: 0 <= w < |s.workers| ==> !s.workers[w].Holding?
    ensures w < |s.workers| && s.workers[w].Idle?
  {
    Counts(cfg, s);
    if forall w :: 0 <= w < |s.workers| ==> s.workers[w].Executing? {
      NobodyIdle(s.workers);
    }
    w :| w < |s.workers| && !s.workers[w].Executing?;
  }

  lemma NextIsPending<R>(cfg: Config, enqueued: seq<nat>, t: nat, s: State<R>)
    requires Conserved(cfg, s) && IsOrder(cfg, enqueued) && t < |enqueued| && s.Enqueued() == enqueued[..t]
    ensures enqueued[t] in s.pending
  {
    OrderOnce(cfg, enqueued, t);
    assert enqueued[t] in multiset(SetBelow(|cfg.machines|));
  }

  lemma ReadyForNext<R(!new)>(cfg: Config, body: TaskBody<R>, enqueued: seq<nat>, produced: seq<nat>, p: nat, t: nat,
                              s: State<R>) returns (w: nat)
    requires IsOrder(cfg, enqueued) && p <= |produced| && t < |enqueued| && t < p + cfg.concurrency
    requires Inv(cfg, body, s) && Between(enqueued, produced, p, t, s)
    ensures enqueued[t] in s.pending && w < |s.workers| && s.workers[w].Idle?
  {
    assert s.Enqueued() == enqueued[..t] && |Tasks(s.collected)| == p;
    NextIsPending(cfg, enqueued, t, s);
    w := IdleWorker(cfg, body, s);
  }

  /** Take up one more task. */
  lemma TakeOne<R(!new)>(cfg: Config, body: TaskBody<R>, enqueued: seq<nat>, produced: seq<nat>, p: nat, t: nat,
                         s: State<R>) returns (u: State<R>)
    requires IsOrder(cfg, enqueued) && p <= |produced| && t < |enqueued| && t < p + cfg.concurrency
    requires Reaches(cfg, body, s) && Between(enqueued, produced, p, t, s)
    ensures Reaches(cfg, body, u) && Between(enqueued, produced, p, t + 1, u)
  {
    ReachesInv(cfg, body, s);
    var w := ReadyForNext(cfg, body, enqueued, produced, p, t, s);
    u := SendAndRecv(cfg, body, s, enqueued[t], w);
    assert enqueued[..t+1] == enqueued[..t] + [enqueued[t]];
  }

  lemma SendAndRecv<R(!new)>(cfg: Config, body: TaskBody<R>, s: State<R>, i: nat, w: nat) returns (u: State<R>)
    requires Reaches(cfg, body, s) && !s.closed && !s.panicked && i in s.pending && s.taskChan == []
    requires w < |s.workers| && s.workers[w].Idle? && cfg.concurrency >= 1
    ensures Reaches(cfg, body, u)
    ensures u == s.(pending := s.pending - {i}, taken := s.taken + [i], workers := s.workers[w := Executing(i)])
  {
    ReachesNext(cfg, body, s, Send(i));
    var s1 := s.(pending := s.pending - {i}, taskChan := [i]);
    assert s1 == Apply(cfg, body, s, Send(i));
    ReachesNext(cfg, body, s1, Recv(w));
    u := s.(pending := s.pending - {i}, taken := s.taken + [i], workers := s.workers[w := Executing(i)]);
    assert u == Apply(cfg, body, s1, Recv(w));
  }

  /** Take up tasks until there are as many as wanted. */
  lemma {:induction false} TakeUntil<R(!new)>(
    cfg: Config, body: TaskBody<R>, enqueued: seq<nat>, produced: seq<nat>, p: nat, t: nat, q: nat, s: State<R>)
    returns (u: State<R>)
    requires IsOrder(cfg, enqueued) && p <= |produced| && t <= q <= |enqueued| && q <= p + cfg.concurrency
    requires Reaches(cfg, body, s) && Between(enqueued, produced, p, t, s)
    ensures Reaches(cfg, body, u) && Between(enqueued, produced, p, q, u)
    decreases q - t
  {
    if t == q {
      u := s;
    } else {
      u := TakeOne(cfg, body, enqueued, produced, p, t, s);
      u := TakeUntil(cfg, body, enqueued, produced, p, t + 1, q, u);
    }
  }

  lemma TakerOf<R>(cfg: Config, enqueued: seq<nat>, produced: seq<nat>, p: nat, t: nat, s: State<R>) returns (w: nat)
    requires Conserved(cfg, s) && IsOrder(cfg, produced) && p < |produced| && t <= |enqueued|
    requires Between(enqueued, produced, p, t, s) && produced[p] in enqueued[..t]
    ensures w < |s.workers| && s.workers[w] == Executing(produced[p])
  {
    OrderOnce(cfg, produced, p);
    assert s.Produced() == s.collected;
    assert produced[p] in multiset(s.taken);
    w := HolderOf(s.workers, produced[p]);
  }

  lemma Answer<R(!new)>(cfg: Config, body: TaskBody<R>, s: State<R>, w: nat) returns (u: State<R>)
    requires Reaches(cfg, body, s) && Returns(body) && !s.panicked && cfg.concurrency >= 1
    requires w < |s.workers| && s.workers[w].Executing? && s.workers[w].task < |cfg.machines|
    requires s.resultChan == [] && |s.collected| < |cfg.machines|
    ensures Reaches(cfg, body, u)
    ensures u == s.(workers := s.workers[w := Idle], collected := u.collected)
    ensures Tasks(u.collected) == Tasks(s.collected) + [s.workers[w].task]
  {
    var i := s.workers[w].task;
    assert HasAnswer(body, cfg.machines[i]);
    var r :| body(cfg.machines[i], r);
    ReachesNext(cfg, body, s, Finish(w, r));
    var s1 := s.(workers := s.workers[w := Holding(Done(i, r))]);
    assert s1 == Apply(cfg, body, s, Finish(w, r));
    ReachesNext(cfg, body, s1, Put(w));
    var s2 := s.(workers := s.workers[w := Idle], resultChan := [Done(i, r)]);
    assert s2 == Apply(cfg, body, s1, Put(w));
    ReachesNext(cfg, body, s2, Step<R>.Collect);
    u := s.(workers := s.workers[w := Idle], collected := s.collected + [Done(i, r)]);
    assert u == Apply(cfg, body, s2, Step<R>.Collect);
  }

  /** Answer a task that has been taken up. */
  lemma AnswerTaken<R(!new)>(cfg: Config, body: TaskBody<R>, enqueued: seq<nat>, produced: seq<nat>, p: nat, t: nat,
                             s: State<R>) returns (u: State<R>)
    requires IsOrder(cfg, produced) && Returns(body) && p < |produced| && t <= |enqueued| && cfg.concurrency >= 1
    requires Reaches(cfg, body, s) && Between(enqueued, produced, p, t, s) && produced[p] in enqueued[..t]
    ensures Reaches(cfg, body, u) && Between(enqueued, produced, p + 1, t, u)
  {
    ReachesInv(cfg, body, s);
    var w := TakerOf(cfg, enqueued, produced, p, t, s);
    OrderOnce(cfg, produced, p);
    assert |Tasks(s.collected)| == p;
    u := Answer(cfg, body, s, w);
    assert produced[..p+1] == produced[..p] + [produced[p]];
  }

  lemma AnsweredWereTaken<R(!new)>(cfg: Config, body: TaskBody<R>, enqueued: seq<nat>, produced: seq<nat>, p: nat,
                                   t: nat, s: State<R>)
    requires Reaches(cfg, body, s) && p <= |produced| && t <= |enqueued| && Between(enqueued, produced, p, t, s)
    ensures p <= t
  {
    ReachesInv(cfg, body, s);
    Counts(cfg, s);
    assert |s.taken| == t && |Tasks(s.collected)| == p;
  }

  /** Answer one more task, taking up others first if need be. */
  lemma AnswerOne<R(!new)>(cfg: Config, body: TaskBody<R>, enqueued: seq<nat>, produced: seq<nat>, p: nat, t: nat,
                           s: State<R>) returns (u: State<R>, q: nat)
    requires IsOrder(cfg, enqueued) && IsOrder(cfg, produced) && WithinWindow(cfg, enqueued, produced)
    requires Returns(body) && p < |produced| && t <= |enqueued| && t <= p + cfg.concurrency
    requires Reaches(cfg, body, s) && Between(enqueued, produced, p, t, s)
    ensures q <= |enqueued| && q <= p + 1 + cfg.concurrency
    ensures Reaches(cfg, body, u) && Between(enqueued, produced, p + 1, q, u)
  {
    AnsweredWereTaken(cfg, body, enqueued, produced, p, t, s);
    var at := PlaceOf(cfg, enqueued, produced, p);
    q := if t <= at then at + 1 else t;
    u := TakeUntil(cfg, body, enqueued, produced, p, t, q, s);
    assert enqueued[..q][at] == produced[p];
    u := AnswerTaken(cfg, body, enqueued, produced, p, q, u);
  }

  lemma PlaceOf(cfg: Config, enqueued: seq<nat>, produced: seq<nat>, p: nat) returns (q: nat)
    requires WithinWindow(cfg, enqueued, produced) && p < |produced|
    ensures q < |enqueued| && q < p + cfg.concurrency && enqueued[q] == produced[p]
  {
    var window := FirstOf(enqueued, p + cfg.concurrency);
    assert produced[p] in window;
    q :| 0 <= q < |window| && window[q] == produced[p];
  }

  lemma {:induction false} AnswerFirst<R(!new)>(
    cfg: Config, body: TaskBody<R>, enqueued: seq<nat>, produced: seq<nat>, p: nat)
    returns (s: State<R>, t: nat)
    requires IsOrder(cfg, enqueued) && IsOrder(cfg, produced) && WithinWindow(cfg, enqueued, produced)
    requires Returns(body) && p <= |produced|
    ensures t <= |enqueued| && t <= p + cfg.concurrency
    ensures Reaches(cfg, body, s) && Between(enqueued, produced, p, t, s)
  {
    if p == 0 {
      s, t := Init(cfg), 0;
      StartIsReached(cfg, body);
    } else {
      s, t := AnswerFirst(cfg, body, enqueued, produced, p - 1);
      s, t := AnswerOne(cfg, body, enqueued, produced, p - 1, t, s);
    }
  }

  lemma OrderComesAbout<R(!new)>(cfg: Config, body: TaskBody<R>, enqueued: seq<nat>, produced: seq<nat>)
    requires IsOrder(cfg, enqueued) && IsOrder(cfg, produced) && WithinWindow(cfg, enqueued, produced)
    requires Returns(body)
    ensures CanProduce(cfg, body, enqueued, produced)
  {
    assert |multiset(enqueued)| == |multiset(produced)| == |cfg.machines|;
    var s, t := AnswerFirst(cfg, body, enqueued, produced, |produced|);
    AnsweredWereTaken(cfg, body, enqueued, produced, |produced|, t, s);
    assert produced[..|produced|] == produced && enqueued[..t] == enqueued;
    ReachesInv(cfg, body, s);
    ReachesNext(cfg, body, s, Step<R>.Close);
    var u := s.(closed := true);
    assert u == Apply(cfg, body, s, Step<R>.Close);
    assert u.Enqueued() == enqueued;
  }

  /** The exact orders: whatever the order tasks are enqueued in, their results can come in any order
      that keeps each within the window, and in no other. */
  lemma OrdersExactly<R(!new)>(cfg: Config, body: TaskBody<R>, enqueued: seq<nat>, produced: seq<nat>)
    requires Returns(body)
    ensures CanProduce(cfg, body, enqueued, produced) <==>
      IsOrder(cfg, enqueued) && IsOrder(cfg, produced) && WithinWindow(cfg, enqueued, produced)
  {
    if s :| Reaches(cfg, body, s) && s.closed && s.Enqueued() == enqueued && Tasks(s.collected) == produced {
      OrderIsWithinWindow(cfg, body, s);
    }
    if IsOrder(cfg, enqueued) && IsOrder(cfg, produced) && WithinWindow(cfg, enqueued, produced) {
      OrderComesAbout(cfg, body, enqueued, produced);
    }
  }
}
