/**
 The request dispatcher every provider uses: any number of threads call `addRequest`, one thread
 runs `dispatchHandler`. Each critical section is one step; `addRequest` notifies after it has
 released the lock, so the notification is a step of its own. `handleRequests` starts an
 asynchronous call and drops its future, whose destructor waits for it: handling is over when it
 returns.
 */
module Dispatcher {

  type Tid = nat
  type Request = nat

  /** Where the dispatcher thread is. It holds the lock only inside a step. */
  datatype Thread =
    | Starting               // sleeping before its first lock
    | Waiting                // blocked in mCondVar.wait
    | Locking                // woken, or back from a request, about to take the lock and test the queue
    | Handling(r: Request)   // outside the lock, inside handleRequests

  /**
   `notifying` counts the threads that have pushed and not yet notified. `added` lists the requests
   in the order the lock was taken, `handled` those whose handling is complete.
   */
  datatype State = State(
    queue: seq<Request>,
    thread: Thread,
    notifying: multiset<Tid>,
    added: seq<Request>,
    handled: seq<Request>)

  datatype Event =
    | Add(tid: Tid, r: Request)
    | Notify(tid: Tid)
    | WakeSpuriously
    | Start
    | TestQueue
    | Finish

  function Init(): State {
    State([], Starting, multiset{}, [], [])
  }

  predicate Enabled(s: State, e: Event) {
    match e
    case Add(_, _) => true
    case Notify(t) => t in s.notifying
    case WakeSpuriously => s.thread.Waiting?
    case Start => s.thread.Starting?
    case TestQueue => s.thread.Locking?
    case Finish => s.thread.Handling?
  }

  function Next(s: State, e: Event): State
    requires Enabled(s, e)
  {
    match e
    case Add(t, r) => s.(queue := s.queue + [r], added := s.added + [r], notifying := s.notifying + multiset{t})
    case Notify(t) =>
      s.(notifying := s.notifying - multiset{t}, thread := if s.thread.Waiting? then Locking else s.thread)
    case WakeSpuriously => s.(thread := Locking)
    case Start => s.(thread := Locking)
    case TestQueue =>
      if s.queue == [] then s.(thread := Waiting)
      else s.(queue := s.queue[1..], thread := Handling(s.queue[0]))
    case Finish => s.(thread := Locking, handled := s.handled + [s.thread.r])
  }

  ghost predicate IsRun(s: State, es: seq<Event>)
    decreases |es|
  {
    es == [] || (Enabled(s, es[0]) && IsRun(Next(s, es[0]), es[1..]))
  }

  ghost function After(s: State, es: seq<Event>): State
    requires IsRun(s, es)
    decreases |es|
  {
    if es == [] then s else After(Next(s, es[0]), es[1..])
  }

  /** The requests of a run in the order their lock sections came. */
  function Requests(es: seq<Event>): seq<Request> {
    if es == [] then [] else (if es[0].Add? then [es[0].r] else []) + Requests(es[1..])
  }

  function Current(s: State): seq<Request> {
    if s.thread.Handling? then [s.thread.r] else []
  }

  /** Handled, then being handled, then queued: everything added, in order. */
  ghost predicate InOrder(s: State) {
    s.handled + Current(s) + s.queue == s.added
  }

  /** The dispatcher never sleeps on a non-empty queue without a notification on its way. */
  ghost predicate NoLostWakeup(s: State) {
    s.thread.Waiting? && s.queue != [] ==> |s.notifying| > 0
  }

  lemma StepKeepsOrder(s: State, e: Event)
    requires Enabled(s, e) && InOrder(s)
    ensures InOrder(Next(s, e))
    ensures Next(s, e).added == s.added + (if e.Add? then [e.r] else [])
    ensures s.handled <= Next(s, e).handled
  {
    if e.TestQueue? && s.queue != [] {
      assert s.queue == [s.queue[0]] + s.queue[1..];
    }
  }

  lemma StepKeepsWakeup(s: State, e: Event)
    requires Enabled(s, e) && NoLostWakeup(s)
    ensures NoLostWakeup(Next(s, e))
  {
  }

  /**
   For any interleaving of producers, wakeups and handling, requests are handled once each, in lock order, one at a
   time.
   */
  lemma {:induction false} RequestsAreHandledInOrder(s: State, es: seq<Event>)
    requires IsRun(s, es) && InOrder(s)
    ensures var n := After(s, es);
            n.handled + Current(n) + n.queue == s.added + Requests(es) && s.handled <= n.handled && InOrder(n)
    decreases |es|
  {
    hide Enabled, Next, InOrder, Current;
    AddedIs(s);
    if es != [] {
      var n := Next(s, es[0]);
      StepKeepsOrder(s, es[0]);
      RequestsAreHandledInOrder(n, es[1..]);
      RequestsOneMore(s.added, n.added, es);
    } else {
      assert s.added + [] == s.added;
    }
  }

  lemma RequestsOneMore(before: seq<Request>, after: seq<Request>, es: seq<Event>)
    requires es != [] && after == before + (if es[0].Add? then [es[0].r] else [])
    ensures before + Requests(es) == after + Requests(es[1..])
  {
  }

  /** In every run, whenever the dispatcher is blocked on a non-empty queue a notification is pending. */
  lemma {:induction false} NoWakeupIsLost(s: State, es: seq<Event>)
    requires IsRun(s, es) && NoLostWakeup(s)
    ensures NoLostWakeup(After(s, es))
    decreases |es|
  {
    hide Enabled, Next, NoLostWakeup;
    if es != [] {
      StepKeepsWakeup(s, es[0]);
      NoWakeupIsLost(Next(s, es[0]), es[1..]);
    }
  }

  // ---------------------------------------------------------------------------------------------
  // Every request gets handled
  // ---------------------------------------------------------------------------------------------

  /** A bound on the steps left, other than new requests and spurious wakeups. */
  function Left(s: State): nat {
    2 * |s.queue| + 3 * |s.notifying| +
    match s.thread
    case Starting => 3
    case Waiting => 0
    case Locking => 2
    case Handling(_) => 3
  }

  ghost predicate OnlyProgress(es: seq<Event>) {
    forall e <- es :: !e.Add? && !e.WakeSpuriously?
  }

  lemma StepMakesProgress(s: State, e: Event)
    requires Enabled(s, e) && !e.Add? && !e.WakeSpuriously?
    ensures Left(Next(s, e)) < Left(s)
  {
  }

  /** Until everything is handled and the dispatcher sleeps, some step of it or of a notifier is possible. */
  lemma NeverStuck(s: State) returns (e: Event)
    requires NoLostWakeup(s) && Left(s) != 0
    ensures !e.Add? && !e.WakeSpuriously? && Enabled(s, e)
  {
    if s.thread.Starting? {
      e := Start;
    } else if s.thread.Locking? {
      e := TestQueue;
    } else if s.thread.Handling? {
      e := Finish;
    } else {
      assert s.notifying != multiset{};
      var t :| t in s.notifying;
      e := Notify(t);
    }
  }

  lemma {:induction false} ProgressIsBounded(s: State, es: seq<Event>)
    requires IsRun(s, es) && OnlyProgress(es)
    ensures |es| + Left(After(s, es)) <= Left(s)
    decreases |es|
  {
    hide Enabled, Next, Left;
    if es != [] {
      assert es[0] in es;
      assert OnlyProgress(es[1..]) by { assert forall e <- es[1..] :: e in es; }
      StepMakesProgress(s, es[0]);
      ProgressIsBounded(Next(s, es[0]), es[1..]);
    }
  }

  /** Only a new request or a spurious wakeup could go on from here. */
  ghost predicate Stopped(s: State) {
    forall e: Event :: Enabled(s, e) ==> e.Add? || e.WakeSpuriously?
  }

  lemma StoppedMeansDone(s: State)
    requires NoLostWakeup(s) && Stopped(s) && InOrder(s)
    ensures s.handled == s.added
  {
    if Left(s) != 0 {
      var e := NeverStuck(s);
    }
    assert s.queue == [] && s.thread.Waiting?;
  }

  /**
   Once requests stop coming, every way to go on that does not stop short takes at most `Left`
   steps and ends with every request ever added handled, in order.
   */
  lemma EveryRequestIsHandled(es: seq<Event>, rest: seq<Event>)
    requires IsRun(Init(), es)
    requires IsRun(After(Init(), es), rest) && OnlyProgress(rest)
    requires Stopped(After(After(Init(), es), rest))
    ensures |rest| <= Left(After(Init(), es))
    ensures After(After(Init(), es), rest).handled == Requests(es)
  {
    NewDispatcherIsQuiet();
    hide *;
    var s := After(Init(), es);
    RequestsAreHandledInOrder(Init(), es);
    NoWakeupIsLost(Init(), es);
    RequestsAreHandledInOrder(s, rest);
    NoWakeupIsLost(s, rest);
    ProgressIsBounded(s, rest);
    ProgressAddsNothing(rest);
    StoppedMeansDone(After(s, rest));
    AddedIs(s);
    AddedIs(After(s, rest));
    assert [] + Requests(es) == Requests(es);
    assert s.added + [] == s.added;
  }

  lemma NewDispatcherIsQuiet()
    ensures InOrder(Init()) && NoLostWakeup(Init()) && Init().added == []
  {
  }

  lemma AddedIs(s: State)
    requires InOrder(s)
    ensures s.handled + Current(s) + s.queue == s.added
  {
  }

  lemma {:induction false} ProgressAddsNothing(es: seq<Event>)
    requires OnlyProgress(es)
    ensures Requests(es) == []
  {
    if es != [] {
      assert es[0] in es;
      assert OnlyProgress(es[1..]) by { assert forall e <- es[1..] :: e in es; }
      ProgressAddsNothing(es[1..]);
    }
  }

  // ---------------------------------------------------------------------------------------------
  // The class
  // ---------------------------------------------------------------------------------------------

  /** The dispatching part of a provider; `thread` and `notifying` stand for the threads' program counters. */
  class Provider {
    var mQueue: seq<Request>
    var thread: Thread
    var notifying: multiset<Tid>
    ghost var added: seq<Request>
    ghost var handled: seq<Request>

    ghost function View(): State
      reads this
    {
      State(mQueue, thread, notifying, added, handled)
    }

    constructor ()
      ensures View() == Init()
    {
      mQueue, thread, notifying, added, handled := [], Starting, multiset{}, [], [];
    }

    /** The locked part of `addRequest`. */
    method AddRequest(t: Tid, r: Request)
      modifies this
      ensures View() == Next(old(View()), Add(t, r))
    {
      mQueue := mQueue + [r];
      added := added + [r];
      notifying := notifying + multiset{t};
    }

    /** `notify_one`, after the lock has been released. */
    method NotifyOne(t: Tid)
      requires t in notifying
      modifies this
      ensures View() == Next(old(View()), Notify(t))
    {
      notifying := notifying - multiset{t};
      if thread.Waiting? {
        thread := Locking;
      }
    }

    /** One step of `dispatchHandler`: take the lock and wait or fetch, or handle what was fetched. */
    method DispatchStep() returns (e: Event)
      requires !thread.Waiting?
      modifies this
      ensures !e.Add? && !e.Notify? && !e.WakeSpuriously?
      ensures Enabled(old(View()), e) && View() == Next(old(View()), e)
    {
      match thread {
        case Starting =>
          e := Start;
          thread := Locking;
        case Locking =>
          e := TestQueue;
          if |mQueue| != 0 {
            var request := mQueue[0];
            mQueue := mQueue[1..];
            thread := Handling(request);
          } else {
            thread := Waiting;
          }
        case Handling(request) =>
          e := Finish;
          handled := handled + [request];
          thread := Locking;
      }
    }
  }
}
