/**
 The thread pool: a fixed array of workers that poll the task queue with `try_pop`, and two ways
 to shut down. `_shutdown` is read without a lock, so each read, each call into the queue and each
 job run is a step of its own.
 */
module ThreadPool {
  import opened Wrappers
  import WQ = WorkQueue

  type Job = nat

  datatype Shutdown = NotYet | Immediate | Postponed

  /** Where a worker is in the loop of `_run_thread`. */
  datatype Worker =
    | AtTop                    // about to test for an immediate shutdown
    | AtPostponed              // about to test for a postponed shutdown
    | AtSize                   // about to test whether the queue is empty
    | AtPop                    // about to call try_pop
    | Running(job: Job)
    | Exited

  /** `done` are the jobs run to completion, `dropped` those `destroy` cleared from the queue. */
  datatype Pool = Pool(
    queue: WQ.State<Job>,
    shutdown: Shutdown,
    workers: seq<Worker>,
    done: seq<Job>,
    dropped: seq<Job>,
    joined: bool)

  function Init(poolSize: nat, queueSize: nat): Pool {
    Pool(WQ.Init(queueSize), NotYet, seq(poolSize, _ => AtTop), [], [], false)
  }

  datatype Event =
    | Add(tid: WQ.Tid, job: Job, wakeConsumer: Option<WQ.Tid>)  // add, up to its end or its wait
    | AddResume(place: nat)                                     // add, after its wait
    | SpuriousAdd(place: nat)
    | Work(w: nat, wake: Option<nat>)                           // one step of worker w
    | Destroy(mode: Shutdown)                                   // destroy, up to its joins
    | Join                                                      // the joins have returned

  predicate AllExited(p: Pool) {
    forall i :: 0 <= i < |p.workers| ==> p.workers[i].Exited?
  }

  /** The queue step an event makes, if it makes one. */
  function QueueEvent(p: Pool, e: Event): Option<WQ.Event<Job>> {
    match e
    case Add(t, j, w) => Some(WQ.PushEnter(t, j, w))
    case AddResume(i) => Some(WQ.PushResume(i))
    case SpuriousAdd(i) => Some(WQ.SpuriousFull(i))
    case Work(w, wake) => if w < |p.workers| && p.workers[w].AtPop? then Some(WQ.TryPop(wake)) else None
    case Destroy(_) => None
    case Join => None
  }

  predicate Enabled(p: Pool, e: Event) {
    && (QueueEvent(p, e).Some? ==> WQ.Enabled(p.queue, QueueEvent(p, e).value))
    && match e
       case Work(w, wake) => w < |p.workers| && !p.workers[w].Exited? && (!p.workers[w].AtPop? ==> wake.None?)
       case Destroy(mode) => p.shutdown.NotYet? && !mode.NotYet?
       case Join => !p.shutdown.NotYet? && AllExited(p) && !p.joined
       case _ => true
  }

  /** What a worker does next; only `AtPop` touches the queue. */
  function WorkerNext(p: Pool, w: Worker): Worker
    requires !w.Exited?
  {
    match w
    case AtTop => if p.shutdown.Immediate? then Exited else AtPostponed
    case AtPostponed => if p.shutdown.Postponed? then AtSize else AtPop
    case AtSize => if p.queue.items == [] then Exited else AtPop
    case AtPop => if p.queue.items == [] then AtTop else Running(p.queue.items[0])
    case Running(_) => AtTop
  }

  function Next(p: Pool, e: Event): Pool
    requires Enabled(p, e)
  {
    var queue := if QueueEvent(p, e).None? then p.queue else WQ.Next(p.queue, QueueEvent(p, e).value);
    match e
    case Work(w, _) =>
      p.(queue := queue,
         workers := p.workers[w := WorkerNext(p, p.workers[w])],
         done := if p.workers[w].Running? then p.done + [p.workers[w].job] else p.done)
    case Destroy(mode) => p.(shutdown := mode)
    case Join => p.(queue := p.queue.(items := []), dropped := p.queue.items, joined := true)
    case _ => p.(queue := queue)
  }

  ghost predicate IsRun(p: Pool, es: seq<Event>)
    decreases |es|
  {
    es == [] || (Enabled(p, es[0]) && IsRun(Next(p, es[0]), es[1..]))
  }

  ghost function After(p: Pool, es: seq<Event>): Pool
    requires IsRun(p, es)
    decreases |es|
  {
    if es == [] then p else After(Next(p, es[0]), es[1..])
  }

  /** The jobs a run adds. */
  function Added(es: seq<Event>): multiset<Job> {
    if es == [] then multiset{}
    else (if es[0].Add? then multiset{es[0].job} else multiset{}) + Added(es[1..])
  }

  // ---------------------------------------------------------------------------------------------
  // Every job is in exactly one place
  // ---------------------------------------------------------------------------------------------

  function Held(w: Worker): multiset<Job> {
    if w.Running? then multiset{w.job} else multiset{}
  }

  function InFlight(ws: seq<Worker>): multiset<Job> {
    if ws == [] then multiset{} else Held(ws[0]) + InFlight(ws[1..])
  }

  lemma AddToBoth(h: multiset<Job>, a: multiset<Job>, x: multiset<Job>, b: multiset<Job>, y: multiset<Job>)
    requires a + x == b + y
    ensures h + a + x == h + b + y
  {
    assert h + a + x == h + (a + x);
    assert h + b + y == h + (b + y);
  }

  lemma {:induction false} InFlightUpdate(ws: seq<Worker>, i: nat, w: Worker)
    requires i < |ws|
    ensures InFlight(ws[i := w]) + Held(ws[i]) == InFlight(ws) + Held(w)
  {
    if i > 0 {
      assert ws[i := w][1..] == ws[1..][i - 1 := w];
      InFlightUpdate(ws[1..], i - 1, w);
      assert ws[1..][i - 1] == ws[i];
      AddToBoth(Held(ws[0]), InFlight(ws[1..][i - 1 := w]), Held(ws[i]), InFlight(ws[1..]), Held(w));
    } else {
      assert ws[i := w][1..] == ws[1..];
    }
  }

  lemma {:induction false} NothingInFlight(ws: seq<Worker>)
    requires forall i :: 0 <= i < |ws| ==> !ws[i].Running?
    ensures InFlight(ws) == multiset{}
  {
    if ws != [] {
      NothingInFlight(ws[1..]);
    }
  }

  /** The jobs waiting to be fetched: with a waiting producer, or queued. */
  function Waiting(q: WQ.State<Job>): multiset<Job> {
    WQ.Pending(q) + multiset(q.items)
  }

  /** Where jobs can be: waiting, in flight, done, or dropped by `destroy`. */
  function Places(p: Pool): multiset<Job> {
    Waiting(p.queue) + InFlight(p.workers) + multiset(p.done) + multiset(p.dropped)
  }

  function Fetched(q: WQ.State<Job>, e: WQ.Event<Job>): multiset<Job> {
    if e.TryPop? && q.items != [] then multiset{q.items[0]} else multiset{}
  }

  lemma FetchKeepsJobs(q: WQ.State<Job>, w: Option<nat>)
    requires q.items != [] && (w.Some? ==> w.value < |q.fullWait|)
    ensures Waiting(WQ.WakeProducer(WQ.Dequeue(q), w)) + multiset{q.items[0]} == Waiting(q)
  {
    WQ.WakeKeepsPending(WQ.Dequeue(q), w);
    assert WQ.Pending(WQ.Dequeue(q)) == WQ.Pending(q);
    assert WQ.WakeProducer(WQ.Dequeue(q), w).items == q.items[1..];
    hide *;
    assert q.items == [q.items[0]] + q.items[1..];
    WaitingIs(q);
    WaitingIs(WQ.WakeProducer(WQ.Dequeue(q), w));
  }

  lemma WaitingIs(q: WQ.State<Job>)
    ensures Waiting(q) == WQ.Pending(q) + multiset(q.items)
  {
  }

  lemma QueueStepKeepsJobs(q: WQ.State<Job>, e: WQ.Event<Job>)
    requires WQ.Enabled(q, e) && !e.PopEnter? && !e.PopResume?
    ensures Waiting(WQ.Next(q, e)) + Fetched(q, e) == Waiting(q) + WQ.Brought(e)
  {
    hide WQ.Pending, WQ.WakeProducer, WQ.Dequeue, Waiting;
    match e
    case PushEnter(t, x, w) => PushKeepsJobs(q, t, x, w);
    case PushResume(i) => ResumeKeepsJobs(q, i);
    case TryPop(w) =>
      if q.items != [] {
        FetchKeepsJobs(q, w);
      }
    case SpuriousFull(i) =>
      WQ.WakeKeepsPending(q, Some(i));
      WaitingIs(q);
      WaitingIs(WQ.WakeProducer(q, Some(i)));
    case SpuriousEmpty(t) =>
      WaitingIs(q);
      WaitingIs(WQ.WakeConsumer(q, Some(t)));
      WQ.SameWaiters(q, WQ.WakeConsumer(q, Some(t)));
  }

  lemma PushKeepsJobs(q: WQ.State<Job>, t: WQ.Tid, x: Job, w: Option<WQ.Tid>)
    requires WQ.Enabled(q, WQ.PushEnter(t, x, w))
    ensures Waiting(WQ.Next(q, WQ.PushEnter(t, x, w))) == Waiting(q) + multiset{x}
  {
    hide WQ.ItemsOf;
    WQ.ItemsOfAppend(q.fullWait, WQ.Waiter(t, x));
  }

  lemma ResumeKeepsJobs(q: WQ.State<Job>, i: nat)
    requires i < |q.fullWoken|
    ensures Waiting(WQ.Next(q, WQ.PushResume(i))) == Waiting(q)
  {
    hide WQ.ItemsOf, WQ.Remove;
    WQ.ItemsOfRemove(q.fullWoken, i);
  }

  lemma StepKeepsPlaces(p: Pool, e: Event)
    requires Enabled(p, e)
    requires p.joined || p.dropped == []
    ensures Places(Next(p, e)) == Places(p) + (if e.Add? then multiset{e.job} else multiset{})
  {
    hide InFlight, Waiting, Places, WQ.Next, WQ.Enabled;
    var n := Next(p, e);
    PlacesAre(p);
    PlacesAre(n);
    if e.Join? {
      JoinKeepsWaiting(p.queue);
      MoveAside(Waiting(n.queue), Waiting(p.queue), InFlight(p.workers), multiset(p.done), multiset(n.dropped));
    } else if e.Work? {
      WorkMovesJobs(p, e.w, e.wake);
      MoveAlong(Waiting(n.queue), Waiting(p.queue), Held(n.workers[e.w]), InFlight(n.workers), InFlight(p.workers),
                Held(p.workers[e.w]), multiset(p.done), multiset(p.dropped));
    } else if e.Destroy? {
      assert n.queue == p.queue;
    } else {
      var q := QueueEvent(p, e).value;
      QueueStepKeepsJobs(p.queue, q);
      BringIn(Waiting(n.queue), Waiting(p.queue), WQ.Brought(q), InFlight(p.workers), multiset(p.done),
              multiset(p.dropped));
    }
  }

  lemma WorkMovesJobs(p: Pool, w: nat, wake: Option<nat>)
    requires Enabled(p, Work(w, wake))
    ensures var n := Next(p, Work(w, wake));
            && Waiting(n.queue) + Held(n.workers[w]) == Waiting(p.queue)
            && InFlight(n.workers) + Held(p.workers[w]) == InFlight(p.workers) + Held(n.workers[w])
            && multiset(n.done) == multiset(p.done) + Held(p.workers[w])
            && n.dropped == p.dropped
  {
    FetchMovesOne(p, w, wake);
    InFlightUpdate(p.workers, w, WorkerNext(p, p.workers[w]));
    hide *;
    FinishMovesOne(p, w, wake);
  }

  lemma FinishMovesOne(p: Pool, w: nat, wake: Option<nat>)
    requires Enabled(p, Work(w, wake))
    ensures var n := Next(p, Work(w, wake));
            && n.workers == p.workers[w := WorkerNext(p, p.workers[w])]
            && multiset(n.done) == multiset(p.done) + Held(p.workers[w])
            && n.dropped == p.dropped
  {
  }

  lemma FetchMovesOne(p: Pool, w: nat, wake: Option<nat>)
    requires Enabled(p, Work(w, wake))
    ensures var n := Next(p, Work(w, wake));
            Waiting(n.queue) + Held(n.workers[w]) == Waiting(p.queue)
  {
    hide Waiting, WQ.Next, WQ.Enabled;
    var n := Next(p, Work(w, wake));
    if p.workers[w].AtPop? {
      QueueStepKeepsJobs(p.queue, WQ.TryPop(wake));
    }
  }

  lemma PlacesAre(p: Pool)
    ensures Places(p) == Waiting(p.queue) + InFlight(p.workers) + multiset(p.done) + multiset(p.dropped)
  {
  }

  lemma BringIn(w': multiset<Job>, w: multiset<Job>, brought: multiset<Job>, f: multiset<Job>, done: multiset<Job>,
                dropped: multiset<Job>)
    requires w' == w + brought
    ensures w' + f + done + dropped == w + f + done + dropped + brought
  {
  }

  lemma MoveAside(w': multiset<Job>, w: multiset<Job>, f: multiset<Job>, done: multiset<Job>, dropped: multiset<Job>)
    requires w' + dropped == w
    ensures w' + f + done + dropped == w + f + done + multiset{}
  {
  }

  lemma MoveAlong(w': multiset<Job>, w: multiset<Job>, come: multiset<Job>, f': multiset<Job>, f: multiset<Job>,
                  gone: multiset<Job>, done: multiset<Job>, dropped: multiset<Job>)
    requires w' + come == w
    requires f' + gone == f + come
    ensures w' + f' + (done + gone) + dropped == w + f + done + dropped
  {
    assert w' + f' + (done + gone) == w' + (f' + gone) + done;
    assert w' + (f + come) + done == (w' + come) + f + done;
  }

  lemma JoinKeepsWaiting(q: WQ.State<Job>)
    ensures Waiting(q.(items := [])) + multiset(q.items) == Waiting(q)
  {
  }

  /** At every step of every run each job added is in exactly one place, as many times as it was added. */
  lemma {:induction false} JobsAreConserved(p: Pool, es: seq<Event>)
    requires IsRun(p, es)
    requires p.joined || p.dropped == []
    ensures Places(After(p, es)) == Places(p) + Added(es)
    decreases |es|
  {
    hide Places;
    if es != [] {
      StepKeepsPlaces(p, es[0]);
      JobsAreConserved(Next(p, es[0]), es[1..]);
    }
  }

  // ---------------------------------------------------------------------------------------------
  // Before a shutdown the jobs get run
  // ---------------------------------------------------------------------------------------------

  /** The steps a worker of a pool that is not being shut down has left until it fetches a job, if there is one. */
  function FetchRank(w: Worker): (r: nat)
    ensures r <= 4
  {
    match w
    case AtTop => 3
    case AtPostponed => 2
    case AtSize => 2
    case AtPop => 1
    case Running(_) => 4
    case Exited => 0
  }

  function FetchRanks(ws: seq<Worker>): (r: nat)
    ensures r <= 4 * |ws|
  {
    if ws == [] then 0 else FetchRank(ws[0]) + FetchRanks(ws[1..])
  }

  lemma {:induction false} FetchRanksUpdate(ws: seq<Worker>, i: nat, w: Worker)
    requires i < |ws|
    ensures FetchRanks(ws[i := w]) + FetchRank(ws[i]) == FetchRanks(ws) + FetchRank(w)
  {
    if i > 0 {
      assert ws[i := w][1..] == ws[1..][i - 1 := w];
      FetchRanksUpdate(ws[1..], i - 1, w);
    } else {
      assert ws[i := w][1..] == ws[1..];
    }
  }

  /** A bound on the steps the workers can take before the queue is empty. */
  function FetchSteps(p: Pool): nat {
    |p.queue.items| * (4 * |p.workers| + 1) + FetchRanks(p.workers)
  }

  ghost predicate OnlyWork(es: seq<Event>) {
    forall e <- es :: e.Work?
  }

  lemma WorkNearsFetch(p: Pool, e: Event)
    requires p.shutdown.NotYet? && e.Work? && Enabled(p, e)
    ensures var n := Next(p, e);
            && n.shutdown.NotYet? && |n.workers| == |p.workers|
            && (p.queue.items == [] ==> n.queue.items == [])
            && (p.queue.items != [] ==> FetchSteps(n) < FetchSteps(p))
  {
    var n := Next(p, e);
    if p.queue.items != [] {
      if p.workers[e.w].AtPop? {
        assert |n.queue.items| == |p.queue.items| - 1;
        LessBacklog(|n.queue.items|, |p.queue.items|, 4 * |p.workers| + 1);
      } else {
        FetchRanksUpdate(p.workers, e.w, WorkerNext(p, p.workers[e.w]));
      }
    }
  }

  lemma {:induction false} QueueGetsEmpty(p: Pool, es: seq<Event>)
    requires p.shutdown.NotYet? && IsRun(p, es) && OnlyWork(es)
    ensures After(p, es).queue.items != [] ==> |es| + FetchSteps(After(p, es)) <= FetchSteps(p)
    decreases |es|
  {
    hide FetchSteps, Enabled, Next;
    if es != [] {
      assert es[0] in es;
      assert OnlyWork(es[1..]) by { assert forall e <- es[1..] :: e in es; }
      WorkNearsFetch(p, es[0]);
      QueueGetsEmpty(Next(p, es[0]), es[1..]);
      if p.queue.items == [] {
        EmptyStaysEmpty(Next(p, es[0]), es[1..]);
      }
    }
  }

  lemma {:induction false} EmptyStaysEmpty(p: Pool, es: seq<Event>)
    requires p.shutdown.NotYet? && IsRun(p, es) && OnlyWork(es) && p.queue.items == []
    ensures After(p, es).queue.items == []
    decreases |es|
  {
    if es != [] {
      assert es[0] in es;
      assert OnlyWork(es[1..]) by { assert forall e <- es[1..] :: e in es; }
      EmptyStaysEmpty(Next(p, es[0]), es[1..]);
    }
  }

  lemma {:induction false} OnlyWorkAddsNothing(es: seq<Event>)
    requires OnlyWork(es)
    ensures Added(es) == multiset{}
  {
    if es != [] {
      assert es[0] in es;
      assert OnlyWork(es[1..]) by { assert forall e <- es[1..] :: e in es; }
      OnlyWorkAddsNothing(es[1..]);
    }
  }

  /**
   A pool that is not being shut down works its queue off: whichever workers take them, after
   more than `FetchSteps` steps the queue is empty and every job that was in it is done or being run.
   */
  lemma QueueIsWorkedOff(p: Pool, es: seq<Event>)
    requires p.shutdown.NotYet? && p.dropped == []
    requires IsRun(p, es) && OnlyWork(es) && |es| > FetchSteps(p)
    ensures var n := After(p, es);
            && n.queue.items == []
            && multiset(n.done) + InFlight(n.workers)
               == multiset(p.done) + InFlight(p.workers) + multiset(p.queue.items)
  {
    QueueGetsEmpty(p, es);
    WorkKeepsPending(p, es);
    JobsAreConserved(p, es);
    OnlyWorkAddsNothing(es);
    var n := After(p, es);
    hide *;
    PlacesAre(p);
    PlacesAre(n);
    WaitingIs(p.queue);
    WaitingIs(n.queue);
    SameBesides(WQ.Pending(p.queue), multiset(p.queue.items), InFlight(p.workers), multiset(p.done),
                multiset(n.queue.items), InFlight(n.workers), multiset(n.done));
  }

  lemma SameBesides(pending: multiset<Job>, i: multiset<Job>, f: multiset<Job>, d: multiset<Job>,
                    i': multiset<Job>, f': multiset<Job>, d': multiset<Job>)
    requires (pending + i) + f + d + multiset([]) == (pending + i') + f' + d' + multiset([])
    ensures i' == multiset([]) ==> d' + f' == d + f + i
  {
    Regroup(pending, i, f, d);
    Regroup(pending, i', f', d');
    Cancel(pending, d + f + i, d' + f' + i');
  }

  lemma Regroup(pending: multiset<Job>, i: multiset<Job>, f: multiset<Job>, d: multiset<Job>)
    ensures (pending + i) + f + d + multiset([]) == pending + (d + f + i)
  {
  }

  lemma Cancel(a: multiset<Job>, b: multiset<Job>, c: multiset<Job>)
    requires a + b == a + c
    ensures b == c
  {
    assert (a + b) - a == b;
    assert (a + c) - a == c;
  }

  lemma OneWorkKeepsPending(p: Pool, e: Event)
    requires e.Work? && Enabled(p, e)
    ensures WQ.Pending(Next(p, e).queue) == WQ.Pending(p.queue) && Next(p, e).dropped == p.dropped
  {
    hide WQ.Pending, WQ.WakeProducer;
    if p.workers[e.w].AtPop? && p.queue.items != [] {
      WQ.WakeKeepsPending(WQ.Dequeue(p.queue), e.wake);
      WQ.SameWaiters(WQ.Dequeue(p.queue), p.queue);
    }
  }

  lemma {:induction false} WorkKeepsPending(p: Pool, es: seq<Event>)
    requires IsRun(p, es) && OnlyWork(es)
    ensures WQ.Pending(After(p, es).queue) == WQ.Pending(p.queue) && After(p, es).dropped == p.dropped
    decreases |es|
  {
    hide Enabled, Next;
    if es != [] {
      assert es[0] in es;
      assert OnlyWork(es[1..]) by { assert forall e <- es[1..] :: e in es; }
      OneWorkKeepsPending(p, es[0]);
      WorkKeepsPending(Next(p, es[0]), es[1..]);
    }
  }

  ghost predicate OnlyWorkOf(w: nat, es: seq<Event>) {
    forall e <- es :: e.Work? && e.w == w
  }

  lemma OneStep(p: Pool, es: seq<Event>) returns (n: Pool)
    requires IsRun(p, es) && es != []
    ensures Enabled(p, es[0]) && n == Next(p, es[0])
    ensures IsRun(n, es[1..]) && After(n, es[1..]) == After(p, es)
  {
    n := Next(p, es[0]);
  }

  /** From the top of its loop a worker fetches and runs the front job in four steps. */
  lemma FourSteps(p: Pool, w: nat, es: seq<Event>) returns (n: Pool)
    requires p.shutdown.NotYet? && w < |p.workers| && p.workers[w].AtTop? && p.queue.items != []
    requires IsRun(p, es) && OnlyWorkOf(w, es) && |es| >= 4
    ensures IsRun(n, es[4..]) && After(n, es[4..]) == After(p, es)
    ensures n.shutdown.NotYet? && n.workers == p.workers
    ensures n.queue.items == p.queue.items[1..] && n.done == p.done + [p.queue.items[0]]
  {
    assert es[0] in es && es[1] in es && es[2] in es && es[3] in es;
    hide IsRun, After;
    var p1 := OneStep(p, es);
    var p2 := OneStep(p1, es[1..]);
    var p3 := OneStep(p2, es[1..][1..]);
    n := OneStep(p3, es[1..][1..][1..]);
    assert es[1..][1..][1..][1..] == es[4..];
    assert p2.workers[w].AtPop? && p3.workers[w] == Running(p.queue.items[0]);
    assert n.workers == p.workers;
  }

  /** A single worker runs the whole queue, in order, in four steps a job. */
  lemma {:induction false} SoleWorkerRunsTheQueue(p: Pool, w: nat, es: seq<Event>)
    requires p.shutdown.NotYet? && w < |p.workers| && p.workers[w].AtTop?
    requires IsRun(p, es) && OnlyWorkOf(w, es) && |es| == 4 * |p.queue.items|
    ensures After(p, es).done == p.done + p.queue.items
    ensures After(p, es).queue.items == [] && After(p, es).workers == p.workers
    decreases |es|
  {
    if es != [] {
      var n := FourSteps(p, w, es);
      assert OnlyWorkOf(w, es[4..]) by { assert forall e <- es[4..] :: e in es; }
      SoleWorkerRunsTheQueue(n, w, es[4..]);
      assert [p.queue.items[0]] + p.queue.items[1..] == p.queue.items;
    }
  }

  // ---------------------------------------------------------------------------------------------
  // Postponed shutdown
  // ---------------------------------------------------------------------------------------------

  /** No thread is inside `add`. */
  predicate NoAddInProgress(p: Pool) {
    p.queue.fullWait == [] && p.queue.fullWoken == []
  }

  ghost predicate NoAdds(es: seq<Event>) {
    forall e <- es :: !e.Add?
  }

  /** Before `destroy` nobody exits. */
  lemma {:induction false} NobodyExitsEarly(p: Pool, es: seq<Event>)
    requires IsRun(p, es)
    requires p.shutdown.NotYet? && !p.joined && p.dropped == []
    requires forall i :: 0 <= i < |p.workers| ==> !p.workers[i].Exited? && !p.workers[i].AtSize?
    requires forall e <- es :: !e.Destroy?
    ensures var n := After(p, es);
            && n.shutdown.NotYet? && !n.joined && n.dropped == [] && |n.workers| == |p.workers|
            && forall i :: 0 <= i < |n.workers| ==> !n.workers[i].Exited? && !n.workers[i].AtSize?
    decreases |es|
  {
    if es != [] {
      assert es[0] in es;
      assert forall e <- es[1..] :: e in es;
      NobodyExitsEarly(Next(p, es[0]), es[1..]);
    }
  }

  /** Draining: the shutdown is postponed, nobody adds, and a worker has left only because the queue was empty. */
  ghost predicate Draining(p: Pool) {
    && p.shutdown.Postponed?
    && NoAddInProgress(p)
    && p.dropped == []
    && ((exists i :: 0 <= i < |p.workers| && p.workers[i].Exited?) ==> p.queue.items == [])
    && (p.joined ==> p.queue.items == [])
  }

  lemma {:induction false} DrainingLasts(p: Pool, es: seq<Event>)
    requires p.workers != []
    requires Draining(p) && IsRun(p, es) && NoAdds(es)
    ensures Draining(After(p, es)) && |After(p, es).workers| == |p.workers|
    decreases |es|
  {
    if es != [] {
      assert es[0] in es;
      assert NoAdds(es[1..]) by { assert forall e <- es[1..] :: e in es; }
      if es[0].Join? {
        assert p.workers[0].Exited?;
      }
      DrainingLasts(Next(p, es[0]), es[1..]);
    }
  }

  /**
   After a postponed shutdown with no add in progress or later, once every worker has exited each
   job ever added has run, exactly as many times as it was added, and none is left anywhere.
   */
  lemma PostponedShutdownRunsEverything(poolSize: nat, queueSize: nat, before: seq<Event>, after: seq<Event>)
    requires poolSize > 0
    requires IsRun(Init(poolSize, queueSize), before)
    requires forall e <- before :: !e.Destroy?
    requires var p := After(Init(poolSize, queueSize), before);
             NoAddInProgress(p) && Enabled(p, Destroy(Postponed)) &&
             IsRun(Next(p, Destroy(Postponed)), after) && NoAdds(after)
    ensures var p := After(Init(poolSize, queueSize), before);
            var n := After(Next(p, Destroy(Postponed)), after);
            AllExited(n) ==>
              multiset(n.done) == Added(before) && n.queue.items == [] && n.dropped == [] && NoAddInProgress(n)
  {
    var p0 := Init(poolSize, queueSize);
    var p := After(p0, before);
    NobodyExitsEarly(p0, before);
    NewPoolIsEmpty(poolSize, queueSize);
    JobsAreConserved(p0, before);
    StepKeepsPlaces(p, Destroy(Postponed));
    DrainedPoolHasRunEverything(Next(p, Destroy(Postponed)), after);
  }

  lemma NewPoolIsEmpty(poolSize: nat, queueSize: nat)
    ensures Places(Init(poolSize, queueSize)) == multiset{}
  {
    NothingInFlight(Init(poolSize, queueSize).workers);
  }

  lemma DrainedPoolHasRunEverything(p: Pool, es: seq<Event>)
    requires p.workers != [] && Draining(p)
    requires IsRun(p, es) && NoAdds(es)
    ensures var n := After(p, es);
            AllExited(n) ==>
              multiset(n.done) == Places(p) && n.queue.items == [] && n.dropped == [] && NoAddInProgress(n)
  {
    DrainingLasts(p, es);
    JobsAreConserved(p, es);
    NoAddsAddNothing(es);
    var n := After(p, es);
    if AllExited(n) {
      assert n.workers[0].Exited?;
      NothingInFlight(n.workers);
      assert Places(n) == multiset(n.done);
    }
  }

  lemma {:induction false} NoAddsAddNothing(es: seq<Event>)
    requires NoAdds(es)
    ensures Added(es) == multiset{}
  {
    if es != [] {
      assert es[0] in es;
      assert NoAdds(es[1..]) by { assert forall e <- es[1..] :: e in es; }
      NoAddsAddNothing(es[1..]);
    }
  }

  // ---------------------------------------------------------------------------------------------
  // Every shutdown comes to an end
  // ---------------------------------------------------------------------------------------------

  /** The steps a worker has left until it exits or takes a job, given whether the queue is empty. */
  function Rank(w: Worker, empty: bool): (r: nat)
    ensures r <= 5
  {
    match w
    case AtTop => 4
    case AtPostponed => 3
    case AtSize => 2
    case AtPop => if empty then 5 else 1
    case Running(_) => 5
    case Exited => 0
  }

  function Ranks(ws: seq<Worker>, empty: bool): (r: nat)
    ensures r <= 5 * |ws|
  {
    if ws == [] then 0 else Rank(ws[0], empty) + Ranks(ws[1..], empty)
  }

  lemma {:induction false} RanksUpdate(ws: seq<Worker>, i: nat, w: Worker, empty: bool)
    requires i < |ws|
    ensures Ranks(ws[i := w], empty) + Rank(ws[i], empty) == Ranks(ws, empty) + Rank(w, empty)
  {
    if i > 0 {
      assert ws[i := w][1..] == ws[1..][i - 1 := w];
      RanksUpdate(ws[1..], i - 1, w, empty);
    } else {
      assert ws[i := w][1..] == ws[1..];
    }
  }

  /** The items still to be fetched, counted with the steps that bring them into the queue. */
  function Backlog(q: WQ.State<Job>): nat {
    |q.items| + 2 * |q.fullWoken| + 3 * |q.fullWait|
  }

  /** A bound on the steps left after a postponed shutdown if no further add comes. */
  function StepsLeft(p: Pool): nat {
    Backlog(p.queue) * (5 * |p.workers| + 1) + Ranks(p.workers, p.queue.items == [])
  }

  /** A step of a worker, or of an add that is waiting. */
  predicate IsProgress(e: Event) {
    e.Work? || e.AddResume? || e.SpuriousAdd?
  }

  ghost predicate OnlyProgress(es: seq<Event>) {
    forall e <- es :: IsProgress(e)
  }

  lemma StepMakesProgress(p: Pool, e: Event)
    requires p.shutdown.Postponed? && IsProgress(e) && Enabled(p, e)
    ensures StepsLeft(Next(p, e)) < StepsLeft(p)
    ensures Next(p, e).shutdown == p.shutdown && |Next(p, e).workers| == |p.workers|
  {
    var n := Next(p, e);
    if e.Work? && (!p.workers[e.w].AtPop? || p.queue.items == []) {
      assert n.queue == p.queue;
      RanksUpdate(p.workers, e.w, WorkerNext(p, p.workers[e.w]), p.queue.items == []);
    } else {
      assert Backlog(n.queue) < Backlog(p.queue);
      assert |n.workers| == |p.workers|;
      LessBacklog(Backlog(n.queue), Backlog(p.queue), 5 * |p.workers| + 1);
    }
  }

  lemma LessBacklog(less: nat, more: nat, each: nat)
    requires less < more
    ensures less * each + each <= more * each
  {
    assert (less + 1) * each <= more * each;
  }

  lemma {:induction false} ProgressIsBounded(p: Pool, es: seq<Event>)
    requires p.shutdown.Postponed? && IsRun(p, es) && OnlyProgress(es)
    ensures |es| + StepsLeft(After(p, es)) <= StepsLeft(p)
    decreases |es|
  {
    hide StepsLeft, Enabled, Next, IsProgress;
    if es != [] {
      assert es[0] in es;
      assert OnlyProgress(es[1..]) by { assert forall e <- es[1..] :: e in es; }
      StepMakesProgress(p, es[0]);
      ProgressIsBounded(Next(p, es[0]), es[1..]);
    }
  }

  /** While a worker is left it can take a step: nothing in the loop blocks. */
  lemma SomeWorkerCanStep(p: Pool) returns (e: Event)
    requires !AllExited(p)
    ensures e.Work? && Enabled(p, e)
  {
    var w :| 0 <= w < |p.workers| && !p.workers[w].Exited?;
    var signals := p.queue.items != [] && WQ.TryPopSignals(p.queue) && p.queue.fullWait != [];
    e := Work(w, if p.workers[w].AtPop? && signals then Some(0) else None);
  }

  lemma WorkExactlyWhileLeft(p: Pool)
    ensures (forall e: Event :: e.Work? ==> !Enabled(p, e)) <==> AllExited(p)
  {
    if !AllExited(p) {
      var e := SomeWorkerCanStep(p);
    }
  }

  /**
   A postponed shutdown ends, also with adds still waiting: if no further add comes, workers and
   waiting adds can take at most `StepsLeft` steps, and a worker step is possible exactly while a
   worker is left. Where no add was in progress every job is done at the end.
   */
  lemma PostponedShutdownEnds(p: Pool, es: seq<Event>)
    requires p.workers != [] && p.shutdown.Postponed?
    requires IsRun(p, es) && OnlyProgress(es)
    ensures |es| <= StepsLeft(p)
    ensures (forall e: Event :: e.Work? ==> !Enabled(After(p, es), e)) <==> AllExited(After(p, es))
    ensures Draining(p) && AllExited(After(p, es)) ==> multiset(After(p, es).done) == Places(p)
  {
    ProgressIsBounded(p, es);
    WorkExactlyWhileLeft(After(p, es));
    assert NoAdds(es);
    if Draining(p) {
      DrainedPoolHasRunEverything(p, es);
    }
  }

  /** The steps a worker has left until it exits after an immediate shutdown. */
  function ExitRank(w: Worker): (r: nat)
    ensures r <= 4
  {
    match w
    case AtTop => 1
    case AtPostponed => 4
    case AtSize => 4
    case AtPop => 3
    case Running(_) => 2
    case Exited => 0
  }

  function ExitRanks(ws: seq<Worker>): (r: nat)
    ensures r <= 4 * |ws|
  {
    if ws == [] then 0 else ExitRank(ws[0]) + ExitRanks(ws[1..])
  }

  lemma {:induction false} ExitRanksUpdate(ws: seq<Worker>, i: nat, w: Worker)
    requires i < |ws|
    ensures ExitRanks(ws[i := w]) + ExitRank(ws[i]) == ExitRanks(ws) + ExitRank(w)
  {
    if i > 0 {
      assert ws[i := w][1..] == ws[1..][i - 1 := w];
      ExitRanksUpdate(ws[1..], i - 1, w);
    } else {
      assert ws[i := w][1..] == ws[1..];
    }
  }

  function WorkSteps(es: seq<Event>): nat {
    if es == [] then 0 else (if es[0].Work? then 1 else 0) + WorkSteps(es[1..])
  }

  lemma StepTowardsExit(p: Pool, e: Event)
    requires p.shutdown.Immediate? && Enabled(p, e)
    ensures Next(p, e).shutdown == p.shutdown && |Next(p, e).workers| == |p.workers|
    ensures ExitRanks(Next(p, e).workers) + (if e.Work? then 1 else 0) <= ExitRanks(p.workers)
  {
    if e.Work? {
      ExitRanksUpdate(p.workers, e.w, WorkerNext(p, p.workers[e.w]));
    } else {
      assert Next(p, e).workers == p.workers;
    }
  }

  lemma {:induction false} WorkAfterImmediateIsBounded(p: Pool, es: seq<Event>)
    requires p.shutdown.Immediate? && IsRun(p, es)
    ensures WorkSteps(es) + ExitRanks(After(p, es).workers) <= ExitRanks(p.workers)
    decreases |es|
  {
    hide ExitRanks, Enabled, Next;
    if es != [] {
      StepTowardsExit(p, es[0]);
      WorkAfterImmediateIsBounded(Next(p, es[0]), es[1..]);
    }
  }

  /**
   An immediate shutdown ends whoever adds: the workers together take at most four steps each, and
   a step is possible exactly while a worker is left.
   */
  lemma ImmediateShutdownEnds(p: Pool, es: seq<Event>)
    requires p.shutdown.Immediate? && IsRun(p, es)
    ensures WorkSteps(es) <= 4 * |p.workers|
    ensures (forall e: Event :: e.Work? ==> !Enabled(After(p, es), e)) <==> AllExited(After(p, es))
  {
    WorkAfterImmediateIsBounded(p, es);
    WorkExactlyWhileLeft(After(p, es));
  }

  // ---------------------------------------------------------------------------------------------
  // Any shutdown
  // ---------------------------------------------------------------------------------------------

  /** A pool is joined only once everybody has exited, and drops nothing before. */
  ghost predicate JoinedLast(p: Pool) {
    (p.joined ==> AllExited(p)) && (!p.joined ==> p.dropped == [])
  }

  lemma {:induction false} JoinedLastLasts(p: Pool, es: seq<Event>)
    requires IsRun(p, es) && JoinedLast(p)
    ensures JoinedLast(After(p, es))
    decreases |es|
  {
    if es != [] {
      JoinedLastLasts(Next(p, es[0]), es[1..]);
    }
  }

  /** Event i of the run retires the last worker. */
  ghost predicate LastExit(p: Pool, es: seq<Event>, i: nat)
    requires IsRun(p, es) && i < |es|
  {
    RunPrefix(p, es, i);
    RunPrefix(p, es, i + 1);
    !AllExited(After(p, es[..i])) && AllExited(After(p, es[..i + 1]))
  }

  lemma {:induction false} RunPrefix(p: Pool, es: seq<Event>, i: nat)
    requires IsRun(p, es) && i <= |es|
    ensures IsRun(p, es[..i]) && IsRun(After(p, es[..i]), es[i..])
    ensures After(After(p, es[..i]), es[i..]) == After(p, es)
    decreases i
  {
    if i > 0 {
      RunPrefix(Next(p, es[0]), es[1..], i - 1);
      assert es[..i][1..] == es[1..][..i - 1];
      assert es[i..] == es[1..][i - 1..];
    } else {
      assert es[..0] == [] && es[0..] == es;
    }
  }

  /** A run after which everybody has exited has a last exit. */
  lemma {:induction false} LastExitExists(p: Pool, es: seq<Event>) returns (i: nat)
    requires IsRun(p, es) && !AllExited(p) && AllExited(After(p, es))
    ensures i < |es| && LastExit(p, es, i)
    decreases |es|
  {
    var n := |es| - 1;
    RunPrefix(p, es, n);
    if AllExited(After(p, es[..n])) {
      i := LastExitExists(p, es[..n]);
      assert es[..n][..i] == es[..i] && es[..n][..i + 1] == es[..i + 1];
    } else {
      i := n;
      assert es[..n + 1] == es;
    }
  }

  /** With nobody left to run them, no further job gets done. */
  lemma {:induction false} NothingDoneAfterExit(p: Pool, es: seq<Event>)
    requires IsRun(p, es) && AllExited(p)
    ensures After(p, es).done == p.done && AllExited(After(p, es))
    decreases |es|
  {
    if es != [] {
      NothingDoneAfterExit(Next(p, es[0]), es[1..]);
    }
  }

  lemma {:induction false} AddedConcat(a: seq<Event>, b: seq<Event>)
    ensures Added(a + b) == Added(a) + Added(b)
  {
    if a == [] {
      assert a + b == b;
    } else {
      assert (a + b)[1..] == a[1..] + b;
      AddedConcat(a[1..], b);
    }
  }

  lemma OthersRetireNobody(p: Pool, e: Event)
    requires Enabled(p, e)
    ensures !e.Work? ==> (AllExited(Next(p, e)) <==> AllExited(p))
  {
    hide WQ.Next, WQ.Enabled;
  }

  /** The step that retires the last worker changes nothing more; after a postponed shutdown it meets an empty queue. */
  lemma LastStep(p: Pool, e: Event)
    requires Enabled(p, e) && !AllExited(p) && AllExited(Next(p, e))
    ensures var n := Next(p, e);
            && n.queue == p.queue && n.done == p.done && n.shutdown == p.shutdown
            && (p.shutdown.Postponed? ==> p.queue.items == [])
            && !e.Add?
  {
    OthersRetireNobody(p, e);
    assert Next(p, e).workers[e.w].Exited?;
  }

  lemma NewPoolIsQuiet(poolSize: nat, queueSize: nat)
    ensures var p := Init(poolSize, queueSize); Places(p) == multiset{} && p.dropped == [] && JoinedLast(p)
  {
    NewPoolIsEmpty(poolSize, queueSize);
  }

  lemma NothingDroppedYet(p: Pool)
    requires JoinedLast(p) && !AllExited(p)
    ensures p.dropped == []
  {
  }

  lemma OnlyWaitingJobs(p: Pool)
    requires AllExited(p) && p.dropped == []
    ensures Places(p) == multiset(p.done) + multiset(p.queue.items) + WQ.Pending(p.queue)
  {
    NothingInFlight(p.workers);
  }

  /**
   Whatever the shutdown and whoever adds whenever: the jobs that never run are those queued or held
   by a waiting add when the last worker leaves, and those added later. Under a postponed shutdown
   the queue is empty at that moment.
   */
  lemma ExitedPoolLosesExactly(poolSize: nat, queueSize: nat, es: seq<Event>, i: nat)
    requires poolSize > 0
    requires IsRun(Init(poolSize, queueSize), es) && i < |es|
    requires LastExit(Init(poolSize, queueSize), es, i)
    ensures IsRun(Init(poolSize, queueSize), es[..i])
    ensures var p := After(Init(poolSize, queueSize), es[..i]);
            var n := After(Init(poolSize, queueSize), es);
            && (p.shutdown.Postponed? ==> p.queue.items == [])
            && Added(es) == multiset(n.done) + multiset(p.queue.items) + WQ.Pending(p.queue) + Added(es[i + 1..])
  {
    var p0 := Init(poolSize, queueSize);
    NewPoolIsQuiet(poolSize, queueSize);
    LastStepOfPrefix(p0, es, i);
    hide *;
    CountAtLastExit(p0, es, i);
    CountAfterLastExit(p0, es, i);
  }

  /** The jobs added by the time the last worker has left are done, queued or held by a waiting add. */
  lemma CountAtLastExit(p0: Pool, es: seq<Event>, i: nat)
    requires Places(p0) == multiset{} && JoinedLast(p0) && p0.dropped == []
    requires IsRun(p0, es) && i < |es| && LastExit(p0, es, i)
    ensures IsRun(p0, es[..i + 1])
    ensures var q := After(p0, es[..i + 1]);
            Added(es[..i + 1]) == multiset(q.done) + multiset(q.queue.items) + WQ.Pending(q.queue)
  {
    LastStepOfPrefix(p0, es, i);
    hide *;
    JoinedLastLasts(p0, es[..i]);
    NothingDroppedYet(After(p0, es[..i]));
    JobsAreConserved(p0, es[..i + 1]);
    OnlyWaitingJobs(After(p0, es[..i + 1]));
  }

  lemma CountAfterLastExit(p0: Pool, es: seq<Event>, i: nat)
    requires IsRun(p0, es) && i < |es| && LastExit(p0, es, i)
    ensures IsRun(p0, es[..i + 1])
    ensures After(p0, es).done == After(p0, es[..i + 1]).done
    ensures Added(es) == Added(es[..i + 1]) + Added(es[i + 1..])
  {
    LastStepOfPrefix(p0, es, i);
    RunPrefix(p0, es, i + 1);
    hide *;
    NothingDoneAfterExit(After(p0, es[..i + 1]), es[i + 1..]);
    AddedConcat(es[..i + 1], es[i + 1..]);
    assert es[..i + 1] + es[i + 1..] == es;
  }

  lemma LastStepOfPrefix(p0: Pool, es: seq<Event>, i: nat)
    requires IsRun(p0, es) && i < |es| && LastExit(p0, es, i)
    ensures IsRun(p0, es[..i]) && IsRun(p0, es[..i + 1])
    ensures var p, q := After(p0, es[..i]), After(p0, es[..i + 1]);
            && q.queue == p.queue && q.done == p.done && q.shutdown == p.shutdown && q.dropped == p.dropped
            && AllExited(q) && !AllExited(p)
            && (p.shutdown.Postponed? ==> p.queue.items == [])
  {
    RunPrefix(p0, es, i);
    RunPrefix(p0, es, i + 1);
    RunPrefix(p0, es[..i + 1], i);
    assert es[..i + 1][..i] == es[..i] && es[..i + 1][i..] == [es[i]];
    var p := After(p0, es[..i]);
    assert After(p0, es[..i + 1]) == After(p, [es[i]]) == Next(p, es[i]);
    LastStep(p, es[i]);
  }

  /**
   A postponed shutdown runs every job exactly when no thread is inside `add` at the moment the last
   worker leaves and none enters it later; adds before that moment do no harm.
   */
  lemma PostponedShutdownLosesExactly(poolSize: nat, queueSize: nat, es: seq<Event>, i: nat)
    requires poolSize > 0
    requires IsRun(Init(poolSize, queueSize), es) && i < |es|
    requires LastExit(Init(poolSize, queueSize), es, i)
    ensures IsRun(Init(poolSize, queueSize), es[..i])
    ensures var p := After(Init(poolSize, queueSize), es[..i]);
            p.shutdown.Postponed? ==>
              (multiset(After(Init(poolSize, queueSize), es).done) == Added(es)
               <==> NoAddInProgress(p) && NoAdds(es[i + 1..]))
  {
    ExitedPoolLosesExactly(poolSize, queueSize, es, i);
    var p := After(Init(poolSize, queueSize), es[..i]);
    PendingIsNone(p.queue);
    AddedIsNone(es[i + 1..]);
    if p.shutdown.Postponed? {
      var all, done := Added(es), multiset(After(Init(poolSize, queueSize), es).done);
      hide *;
      NothingMissing(all, done, WQ.Pending(p.queue), Added(es[i + 1..]));
    }
  }

  lemma NothingMissing(all: multiset<Job>, done: multiset<Job>, pending: multiset<Job>, later: multiset<Job>)
    requires all == done + multiset([]) + pending + later
    ensures done == all <==> |pending| == 0 && |later| == 0
  {
    assert |all| == |done| + |pending| + |later|;
  }

  lemma PendingIsNone(q: WQ.State<Job>)
    ensures |WQ.Pending(q)| == 0 <==> q.fullWait == [] && q.fullWoken == []
  {
  }

  lemma {:induction false} AddedIsNone(es: seq<Event>)
    ensures |Added(es)| == 0 <==> NoAdds(es)
  {
    if es != [] {
      AddedIsNone(es[1..]);
      assert forall e <- es :: e == es[0] || e in es[1..];
      assert es[0] in es && forall e <- es[1..] :: e in es;
    }
  }

  /** The condition matters: an add after the postponed shutdown can be cleared without having run. */
  lemma LateAddIsLost()
    ensures var es := [Destroy(Postponed), Work(0, None), Work(0, None), Work(0, None), Add(1, 7, None), Join];
            var p := Init(1, 2);
            IsRun(p, es) && AllExited(After(p, es)) && After(p, es).done == [] && After(p, es).dropped == [7]
  {
    var p0 := Init(1, 2);
    var p1 := Next(p0, Destroy(Postponed));
    var p2 := Next(p1, Work(0, None));
    var p3 := Next(p2, Work(0, None));
    var p4 := Next(p3, Work(0, None));
    var p5 := Next(p4, Add(1, 7, None));
    hide IsRun, After, WQ.ItemsOf, WQ.Remove;
    EmptyRun(Next(p5, Join));
    RunCons(p5, Join, []);
    RunCons(p4, Add(1, 7, None), [Join]);
    RunCons(p3, Work(0, None), [Add(1, 7, None), Join]);
    RunCons(p2, Work(0, None), [Work(0, None), Add(1, 7, None), Join]);
    RunCons(p1, Work(0, None), [Work(0, None), Work(0, None), Add(1, 7, None), Join]);
    RunCons(p0, Destroy(Postponed), [Work(0, None), Work(0, None), Work(0, None), Add(1, 7, None), Join]);
  }

  lemma EmptyRun(p: Pool)
    ensures IsRun(p, []) && After(p, []) == p
  {
  }

  lemma RunCons(p: Pool, e: Event, es: seq<Event>)
    requires Enabled(p, e) && IsRun(Next(p, e), es)
    ensures IsRun(p, [e] + es) && After(p, [e] + es) == After(Next(p, e), es)
  {
  }

  // ---------------------------------------------------------------------------------------------
  // The class
  // ---------------------------------------------------------------------------------------------

  /** The pool object; `workers` stands for the threads' program counters. */
  class ThreadPool {
    const taskQueue: WQ.Queue<Job>
    var shutdown: Shutdown
    var workers: seq<Worker>
    var stop: bool
    ghost var done: seq<Job>
    ghost var dropped: seq<Job>

    ghost function View(): Pool
      reads this, taskQueue
    {
      Pool(taskQueue.View(), shutdown, workers, done, dropped, stop)
    }

    constructor (poolSize: nat, queueSize: nat)
      requires poolSize > 0
      ensures fresh(taskQueue)
      ensures View() == Init(poolSize, queueSize)
    {
      taskQueue := new WQ.Queue<Job>(queueSize);
      shutdown, stop := NotYet, false;
      workers := seq(poolSize, _ => AtTop);
      done, dropped := [], [];
    }

    method AddJob(t: WQ.Tid, job: Job) returns (parked: bool, wakeConsumer: Option<WQ.Tid>)
      modifies taskQueue
      ensures Enabled(old(View()), Add(t, job, wakeConsumer))
      ensures View() == Next(old(View()), Add(t, job, wakeConsumer))
    {
      parked, wakeConsumer := taskQueue.Push(t, job);
    }

    /** One step of the loop of `_run_thread`, by worker w. */
    method RunThreadStep(w: nat) returns (wake: Option<nat>)
      requires w < |workers| && !workers[w].Exited?
      modifies this, taskQueue
      ensures Enabled(old(View()), Work(w, wake))
      ensures View() == Next(old(View()), Work(w, wake))
    {
      wake := None;
      match workers[w] {
        case AtTop =>
          workers := workers[w := if shutdown.Immediate? then Exited else AtPostponed];
        case AtPostponed =>
          workers := workers[w := if shutdown.Postponed? then AtSize else AtPop];
        case AtSize =>
          var size := taskQueue.Size();
          workers := workers[w := if size == 0 then Exited else AtPop];
        case AtPop =>
          var rst, job;
          rst, job, wake := taskQueue.TryPopItem();
          workers := workers[w := if rst then Running(job.value) else AtTop];
        case Running(job) =>
          done := done + [job];
          workers := workers[w := AtTop];
      }
    }

    /** `destroy` up to its joins; any other mode than the two known ones means immediate. */
    method RequestShutdown(mode: int)
      requires shutdown.NotYet?
      modifies this`shutdown
      ensures var m := if mode == 1 then Postponed else Immediate;
              Enabled(old(View()), Destroy(m)) && View() == Next(old(View()), Destroy(m))
    {
      if mode != 0 && mode != 1 {
        shutdown := Immediate;
      } else {
        shutdown := if mode == 1 then Postponed else Immediate;
      }
    }

    /** `destroy` once every join has returned. */
    method FinishShutdown()
      requires !shutdown.NotYet? && AllExited(View()) && !stop
      modifies this, taskQueue
      ensures Enabled(old(View()), Join) && View() == Next(old(View()), Join)
    {
      dropped := taskQueue.queue;
      taskQueue.Clear();
      stop := true;
    }
  }
}
