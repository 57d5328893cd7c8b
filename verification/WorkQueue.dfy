/**
 The bounded queue: one mutex, a condition for "not empty" and one for "not full".

 Every critical section is one atomic step, and a `wait` splits its method in two: entering, which
 ends in the waiting set, and resuming once signalled. Runs are sequences of such steps by any
 number of threads, so any scheduling of the lock is covered.
 */
module WorkQueue {
  import opened Wrappers

  type Tid = nat

  /** A producer inside `_full_cond.wait()`, with the item it is going to push. */
  datatype Waiter<T> = Waiter(tid: Tid, item: T)

  /**
   `fullWait` are producers waiting and not yet signalled, `fullWoken` those signalled that have not
   got the lock back; likewise `emptyWait` and `emptyWoken` for consumers in `pop`. Capacity 0
   means unbounded. `enqueued` and `dequeued` record what has gone in and come out.
   */
  datatype State<T> = State(
    cap: nat,
    items: seq<T>,
    fullWait: seq<Waiter<T>>,
    fullWoken: seq<Waiter<T>>,
    emptyWait: set<Tid>,
    emptyWoken: set<Tid>,
    enqueued: seq<T>,
    dequeued: seq<T>)

  function Init<T>(cap: nat): State<T> {
    State(cap, [], [], [], {}, {}, [], [])
  }

  /**
   One atomic step. `wakeConsumer` and `wake` say which waiting thread a signal releases, if it
   releases one; `wake` is a place in `fullWait`.
   */
  datatype Event<T> =
    | PushEnter(tid: Tid, item: T, wakeConsumer: Option<Tid>)
    | PushResume(place: nat)
    | TryPop(wake: Option<nat>)
    | PopEnter(tid: Tid, wake: Option<nat>)
    | PopResume(tid: Tid, wake: Option<nat>)
    | SpuriousFull(place: nat)
    | SpuriousEmpty(tid: Tid)

  predicate IsFull<T>(s: State<T>) {
    s.cap != 0 && |s.items| == s.cap
  }

  /** The test of `try_pop`, on the size before the pop. With capacity 0, `_size - 1` wraps and is never met. */
  predicate TryPopSignals<T>(s: State<T>) {
    s.cap != 0 && |s.items| == s.cap - 1
  }

  /** The test of `pop`, on the size after the pop. */
  predicate PopSignals<T>(s: State<T>) {
    s.cap != 0 && |s.items| - 1 == s.cap - 1
  }

  /** A signal releases one waiting thread if there is any. */
  predicate WakeOk<T>(waiting: seq<Waiter<T>>, signalled: bool, wake: Option<nat>) {
    if signalled && waiting != [] then wake.Some? && wake.value < |waiting| else wake.None?
  }

  predicate WakeConsumerOk(waiting: set<Tid>, signalled: bool, wake: Option<Tid>) {
    if signalled && waiting != {} then wake.Some? && wake.value in waiting else wake.None?
  }

  predicate Enabled<T>(s: State<T>, e: Event<T>) {
    match e
    case PushEnter(_, _, w) => WakeConsumerOk(s.emptyWait, !IsFull(s), w)
    case PushResume(i) => i < |s.fullWoken|
    case TryPop(w) => WakeOk(s.fullWait, s.items != [] && TryPopSignals(s), w)
    case PopEnter(_, w) => WakeOk(s.fullWait, s.items != [] && PopSignals(s), w)
    case PopResume(t, w) => t in s.emptyWoken && WakeOk(s.fullWait, s.items != [] && PopSignals(s), w)
    case SpuriousFull(i) => i < |s.fullWait|
    case SpuriousEmpty(t) => t in s.emptyWait
  }

  function Remove<A>(xs: seq<A>, i: nat): seq<A>
    requires i < |xs|
  {
    xs[..i] + xs[i + 1..]
  }

  function Enqueue<T>(s: State<T>, x: T): State<T> {
    s.(items := s.items + [x], enqueued := s.enqueued + [x])
  }

  function Dequeue<T>(s: State<T>): State<T>
    requires s.items != []
  {
    s.(items := s.items[1..], dequeued := s.dequeued + [s.items[0]])
  }

  function WakeProducer<T>(s: State<T>, wake: Option<nat>): State<T>
    requires wake.Some? ==> wake.value < |s.fullWait|
  {
    if wake.None? then s
    else s.(fullWait := Remove(s.fullWait, wake.value), fullWoken := s.fullWoken + [s.fullWait[wake.value]])
  }

  function WakeConsumer<T>(s: State<T>, wake: Option<Tid>): State<T> {
    if wake.None? then s
    else s.(emptyWait := s.emptyWait - {wake.value}, emptyWoken := s.emptyWoken + {wake.value})
  }

  /**
   What each step does. A woken producer pushes without looking at the size again and without
   signalling consumers; a woken consumer does look again.
   */
  function Next<T>(s: State<T>, e: Event<T>): State<T>
    requires Enabled(s, e)
  {
    match e
    case PushEnter(t, x, w) =>
      if IsFull(s) then s.(fullWait := s.fullWait + [Waiter(t, x)])
      else WakeConsumer(Enqueue(s, x), w)
    case PushResume(i) =>
      Enqueue(s.(fullWoken := Remove(s.fullWoken, i)), s.fullWoken[i].item)
    case TryPop(w) =>
      if s.items == [] then s else WakeProducer(Dequeue(s), w)
    case PopEnter(t, w) =>
      if s.items == [] then s.(emptyWait := s.emptyWait + {t}) else WakeProducer(Dequeue(s), w)
    case PopResume(t, w) =>
      var s1 := s.(emptyWoken := s.emptyWoken - {t});
      if s.items == [] then s1.(emptyWait := s1.emptyWait + {t}) else WakeProducer(Dequeue(s1), w)
    case SpuriousFull(i) => WakeProducer(s, Some(i))
    case SpuriousEmpty(t) => WakeConsumer(s, Some(t))
  }

  ghost predicate IsRun<T>(s: State<T>, es: seq<Event<T>>)
    decreases |es|
  {
    es == [] || (Enabled(s, es[0]) && IsRun(Next(s, es[0]), es[1..]))
  }

  ghost function After<T>(s: State<T>, es: seq<Event<T>>): State<T>
    requires IsRun(s, es)
    decreases |es|
  {
    if es == [] then s else After(Next(s, es[0]), es[1..])
  }

  /** The thread is inside `push` or `pop`. */
  ghost predicate InCall<T>(s: State<T>, t: Tid) {
    || (exists w <- s.fullWait :: w.tid == t)
    || (exists w <- s.fullWoken :: w.tid == t)
    || t in s.emptyWait
    || t in s.emptyWoken
  }

  /** A call is entered only by a thread that is in none. */
  ghost predicate EntersFree<T>(s: State<T>, e: Event<T>) {
    e.PushEnter? || e.PopEnter? ==> !InCall(s, e.tid)
  }

  /** A run as threads can make it: none enters a call while it is still in one. */
  ghost predicate Threaded<T>(s: State<T>, es: seq<Event<T>>)
    requires IsRun(s, es)
    decreases |es|
  {
    es == [] || (EntersFree(s, es[0]) && Threaded(Next(s, es[0]), es[1..]))
  }

  lemma NobodyLeft<T>(s: State<T>)
    ensures IsRun(s, []) && Threaded(s, []) && After(s, []) == s
  {
  }

  lemma RunCons<T>(s: State<T>, e: Event<T>, es: seq<Event<T>>)
    requires Enabled(s, e) && EntersFree(s, e)
    requires IsRun(Next(s, e), es) && Threaded(Next(s, e), es)
    ensures IsRun(s, [e] + es) && Threaded(s, [e] + es) && After(s, [e] + es) == After(Next(s, e), es)
  {
    assert ([e] + es)[1..] == es;
  }

  lemma {:induction false} RunThen<T>(s: State<T>, a: seq<Event<T>>, b: seq<Event<T>>)
    requires IsRun(s, a) && Threaded(s, a)
    requires IsRun(After(s, a), b) && Threaded(After(s, a), b)
    ensures IsRun(s, a + b) && Threaded(s, a + b) && After(s, a + b) == After(After(s, a), b)
    decreases |a|
  {
    if a == [] {
      assert a + b == b;
    } else {
      assert (a + b)[1..] == a[1..] + b;
      RunThen(Next(s, a[0]), a[1..], b);
    }
  }

  // ---------------------------------------------------------------------------------------------
  // No item lost, duplicated or reordered
  // ---------------------------------------------------------------------------------------------

  /** The items threads asked to push during a run, in the order they entered. */
  function Pushed<T>(es: seq<Event<T>>): seq<T> {
    if es == [] then []
    else (if es[0].PushEnter? then [es[0].item] else []) + Pushed(es[1..])
  }

  function ItemsOf<T>(ws: seq<Waiter<T>>): seq<T> {
    if ws == [] then [] else [ws[0].item] + ItemsOf(ws[1..])
  }

  lemma {:induction false} ItemsOfConcat<T>(a: seq<Waiter<T>>, b: seq<Waiter<T>>)
    ensures ItemsOf(a + b) == ItemsOf(a) + ItemsOf(b)
  {
    if a == [] {
      assert a + b == b;
    } else {
      assert (a + b)[1..] == a[1..] + b;
      ItemsOfConcat(a[1..], b);
    }
  }

  lemma {:induction false} ItemsOfRemove<T>(ws: seq<Waiter<T>>, i: nat)
    requires i < |ws|
    ensures multiset(ItemsOf(Remove(ws, i))) + multiset{ws[i].item} == multiset(ItemsOf(ws))
  {
    if i == 0 {
      assert Remove(ws, i) == ws[1..];
    } else {
      assert Remove(ws, i)[1..] == Remove(ws[1..], i - 1);
      ItemsOfRemove(ws[1..], i - 1);
    }
  }

  lemma ItemsOfAppend<T>(ws: seq<Waiter<T>>, w: Waiter<T>)
    ensures multiset(ItemsOf(ws + [w])) == multiset(ItemsOf(ws)) + multiset{w.item}
  {
    ItemsOfConcat(ws, [w]);
    assert ItemsOf([w]) == [w.item];
  }

  /** The items held by producers that have not pushed them yet. */
  function Pending<T>(s: State<T>): multiset<T> {
    multiset(ItemsOf(s.fullWait)) + multiset(ItemsOf(s.fullWoken))
  }

  lemma WakeKeepsPending<T>(s: State<T>, wake: Option<nat>)
    requires wake.Some? ==> wake.value < |s.fullWait|
    ensures Pending(WakeProducer(s, wake)) == Pending(s)
    ensures WakeProducer(s, wake).enqueued == s.enqueued && WakeProducer(s, wake).items == s.items
  {
    if wake.Some? {
      ItemsOfRemove(s.fullWait, wake.value);
      ItemsOfAppend(s.fullWoken, s.fullWait[wake.value]);
    }
  }

  /** One step keeps the queue first in, first out. */
  lemma StepKeepsOrder<T>(s: State<T>, e: Event<T>)
    requires Enabled(s, e)
    requires s.dequeued + s.items == s.enqueued
    ensures var n := Next(s, e);
            n.dequeued + n.items == n.enqueued && s.dequeued <= n.dequeued && s.enqueued <= n.enqueued
  {
    if s.items != [] {
      assert s.items == [s.items[0]] + s.items[1..];
    }
  }

  /** The items that have gone in or are still held by a producer. */
  function Accounted<T>(s: State<T>): multiset<T> {
    multiset(s.enqueued) + Pending(s)
  }

  function Brought<T>(e: Event<T>): multiset<T> {
    if e.PushEnter? then multiset{e.item} else multiset{}
  }

  lemma PopKeepsAccount<T>(s: State<T>, wake: Option<nat>)
    requires s.items != [] && (wake.Some? ==> wake.value < |s.fullWait|)
    ensures Accounted(WakeProducer(Dequeue(s), wake)) == Accounted(s)
  {
    WakeKeepsPending(Dequeue(s), wake);
  }

  /** One step accounts for exactly the item it brings, if it brings one. */
  lemma StepKeepsAccount<T>(s: State<T>, e: Event<T>)
    requires Enabled(s, e)
    ensures Accounted(Next(s, e)) == Accounted(s) + Brought(e)
  {
    hide ItemsOf, Remove, WakeProducer, Dequeue, Pending;
    match e
    case PushEnter(t, x, w) => PushKeepsAccount(s, t, x, w);
    case PushResume(i) => ResumeKeepsAccount(s, i);
    case TryPop(w) =>
      if s.items != [] { PopKeepsAccount(s, w); }
    case PopEnter(t, w) =>
      if s.items != [] { PopKeepsAccount(s, w); } else { SameWaiters(s, Next(s, e)); }
    case PopResume(t, w) =>
      var s1 := s.(emptyWoken := s.emptyWoken - {t});
      SameWaiters(s, s1);
      if s.items != [] { PopKeepsAccount(s1, w); } else { SameWaiters(s, Next(s, e)); }
    case SpuriousFull(i) => WakeKeepsPending(s, Some(i));
    case SpuriousEmpty(t) => SameWaiters(s, Next(s, e));
  }

  lemma SameWaiters<T>(s: State<T>, r: State<T>)
    requires s.fullWait == r.fullWait && s.fullWoken == r.fullWoken
    ensures Pending(s) == Pending(r)
  {
  }

  lemma PushKeepsAccount<T>(s: State<T>, t: Tid, x: T, w: Option<Tid>)
    requires Enabled(s, PushEnter(t, x, w))
    ensures Accounted(Next(s, PushEnter(t, x, w))) == Accounted(s) + multiset{x}
  {
    hide ItemsOf;
    ItemsOfAppend(s.fullWait, Waiter(t, x));
  }

  lemma ResumeKeepsAccount<T>(s: State<T>, i: nat)
    requires i < |s.fullWoken|
    ensures Accounted(Next(s, PushResume(i))) == Accounted(s)
  {
    hide ItemsOf, Remove;
    ItemsOfRemove(s.fullWoken, i);
  }

  /**
   In every run, with any threads and any wakeups: what came out, followed by what is inside, is
   what went in, in order; and what went in together with what waiting producers still hold is
   exactly what was pushed.
   */
  lemma {:induction false} ItemsAreConserved<T>(s: State<T>, es: seq<Event<T>>)
    requires IsRun(s, es)
    requires s.dequeued + s.items == s.enqueued
    ensures var n := After(s, es);
            && n.dequeued + n.items == n.enqueued
            && s.dequeued <= n.dequeued && s.enqueued <= n.enqueued
            && Accounted(n) == Accounted(s) + multiset(Pushed(es))
    decreases |es|
  {
    hide Accounted, Enabled, Next;
    if es != [] {
      StepKeepsOrder(s, es[0]);
      StepKeepsAccount(s, es[0]);
      ItemsAreConserved(Next(s, es[0]), es[1..]);
      assert multiset(Pushed(es)) == Brought(es[0]) + multiset(Pushed(es[1..]));
    }
  }

  // ---------------------------------------------------------------------------------------------
  // The capacity bound: one producer, no spurious wakeup
  // ---------------------------------------------------------------------------------------------

  /**
   Every push is by thread p, which never pushes while it is still waiting in a push, and producers wake only when
   signalled.
   */
  ghost predicate OneProducer<T>(s: State<T>, es: seq<Event<T>>, p: Tid)
    requires IsRun(s, es)
    decreases |es|
  {
    es == [] ||
    (&& (es[0].PushEnter? ==> es[0].tid == p && s.fullWait == [] && s.fullWoken == [])
     && !es[0].SpuriousFull?
     && OneProducer(Next(s, es[0]), es[1..], p))
  }

  /** Where only thread p pushes and producers wake only when signalled, it is one producer. */
  lemma {:induction false} SolePusherIsOneProducer<T>(s: State<T>, es: seq<Event<T>>, p: Tid)
    requires IsRun(s, es) && Threaded(s, es)
    requires forall e <- es :: !e.SpuriousFull? && (e.PushEnter? ==> e.tid == p)
    requires forall w <- s.fullWait + s.fullWoken :: w.tid == p
    ensures OneProducer(s, es, p)
    decreases |es|
  {
    if es != [] {
      var e := es[0];
      var n := Next(s, e);
      assert e in es && forall x <- es[1..] :: x in es;
      OnlyPusherWaits(s, e, p);
      SolePusherIsOneProducer(n, es[1..], p);
    }
  }

  lemma OnlyPusherWaits<T>(s: State<T>, e: Event<T>, p: Tid)
    requires Enabled(s, e) && EntersFree(s, e)
    requires !e.SpuriousFull? && (e.PushEnter? ==> e.tid == p)
    requires forall w <- s.fullWait + s.fullWoken :: w.tid == p
    ensures forall w <- Next(s, e).fullWait + Next(s, e).fullWoken :: w.tid == p
    ensures e.PushEnter? ==> s.fullWait == [] && s.fullWoken == []
  {
    forall w | w in s.fullWait || w in s.fullWoken
      ensures w.tid == p
    {
      assert w in s.fullWait + s.fullWoken;
    }
    assert s.fullWait == [] || s.fullWait[0] in s.fullWait;
    assert s.fullWoken == [] || s.fullWoken[0] in s.fullWoken;
  }

  ghost predicate OnlyTryPop<T>(es: seq<Event<T>>) {
    forall e <- es :: !e.PopEnter? && !e.PopResume?
  }

  ghost predicate OnlyPop<T>(es: seq<Event<T>>) {
    forall e <- es :: !e.TryPop?
  }

  /** At most one producer waits, and if it has been signalled there is room for its item. */
  ghost predicate Bounded<T>(s: State<T>) {
    && |s.items| <= s.cap
    && |s.fullWait| + |s.fullWoken| <= 1
    && (s.fullWoken != [] ==> |s.items| < s.cap)
  }

  /** With one producer and no spurious wakeup the queue never exceeds its capacity, however it is popped. */
  lemma {:induction false} CapacityHolds<T>(s: State<T>, es: seq<Event<T>>, p: Tid)
    requires s.cap != 0 && Bounded(s)
    requires IsRun(s, es) && OneProducer(s, es, p)
    ensures Bounded(After(s, es)) && After(s, es).cap == s.cap
    decreases |es|
  {
    if es != [] {
      CapacityHolds(Next(s, es[0]), es[1..], p);
    }
  }

  /**
   With `try_pop` consumers and capacity at least 2, a producer that waits unsignalled always has
   at least capacity - 1 items in front of it, so the consumers have work.
   */
  lemma {:induction false} WaitingProducerHasWorkAhead<T>(s: State<T>, es: seq<Event<T>>, p: Tid)
    requires s.cap >= 2 && Bounded(s)
    requires s.fullWait != [] ==> |s.items| >= s.cap - 1
    requires IsRun(s, es) && OneProducer(s, es, p) && OnlyTryPop(es)
    ensures var n := After(s, es); n.fullWait != [] ==> |n.items| >= n.cap - 1
    decreases |es|
  {
    if es != [] {
      assert es[0] in es;
      assert OnlyTryPop(es[1..]) by { assert forall e <- es[1..] :: e in es; }
      WaitingProducerHasWorkAhead(Next(s, es[0]), es[1..], p);
    }
  }

  /** From such a state two `try_pop`s release the waiting producer. */
  lemma TwoTryPopsSignal<T>(s: State<T>, es: seq<Event<T>>)
    requires s.cap >= 2 && Bounded(s)
    requires s.fullWait != [] && |s.items| >= s.cap - 1
    requires |es| == 2 && es[0].TryPop? && es[1].TryPop?
    requires IsRun(s, es)
    ensures Next(s, es[0]).fullWait == [] || After(s, es).fullWait == []
  {
    assert After(s, es) == After(Next(s, es[0]), es[1..]);
    assert After(Next(s, es[0]), es[1..]) == After(Next(Next(s, es[0]), es[1]), es[1..][1..]);
  }

  /** With capacity 1, `try_pop` never signals: a waiting producer waits for ever. */
  lemma {:induction false} CapacityOneNeverWakes<T>(s: State<T>, es: seq<Event<T>>, p: Tid)
    requires s.cap == 1 && s.fullWait != []
    requires IsRun(s, es) && OneProducer(s, es, p) && OnlyTryPop(es)
    ensures After(s, es).fullWait == s.fullWait
    decreases |es|
  {
    if es != [] {
      assert es[0] in es;
      assert OnlyTryPop(es[1..]) by { assert forall e <- es[1..] :: e in es; }
      CapacityOneNeverWakes(Next(s, es[0]), es[1..], p);
    }
  }

  /** With `pop` consumers only, an unsignalled producer waits only while the queue is full, for every capacity. */
  lemma {:induction false} WaitingProducerMeansFull<T>(s: State<T>, es: seq<Event<T>>, p: Tid)
    requires s.cap != 0 && Bounded(s)
    requires s.fullWait != [] ==> |s.items| == s.cap
    requires IsRun(s, es) && OneProducer(s, es, p) && OnlyPop(es)
    ensures var n := After(s, es); n.fullWait != [] ==> |n.items| == n.cap
    decreases |es|
  {
    if es != [] {
      assert es[0] in es;
      assert OnlyPop(es[1..]) by { assert forall e <- es[1..] :: e in es; }
      WaitingProducerMeansFull(Next(s, es[0]), es[1..], p);
    }
  }

  /** An unsignalled producer waits although two places are free. */
  ghost predicate SignalLost<T>(s: State<T>) {
    s.fullWait != [] && s.fullWoken == [] && |s.items| + 2 <= s.cap
  }

  /**
   The two tests look at the size at different moments, so mixing the two ways to pop loses the
   signal: once a producer waits with at most capacity - 2 items ahead, no pop of either kind
   ever releases it.
   */
  lemma {:induction false} LostSignalIsLostForEver<T>(s: State<T>, es: seq<Event<T>>, p: Tid)
    requires SignalLost(s)
    requires IsRun(s, es) && OneProducer(s, es, p)
    ensures var n := After(s, es); n.fullWait == s.fullWait && |n.items| <= |s.items| && SignalLost(n)
    decreases |es|
  {
    if es != [] {
      LostSignalIsLostForEver(Next(s, es[0]), es[1..], p);
    }
  }

  /** With capacity at least 2 and one way to pop only, whichever it is, no signal is lost. */
  lemma OneWayToPopKeepsSignal<T>(cap: nat, es: seq<Event<T>>, p: Tid)
    requires cap >= 2
    requires var s := Init<T>(cap); IsRun(s, es) && OneProducer(s, es, p)
    requires OnlyTryPop(es) || OnlyPop(es)
    ensures !SignalLost(After(Init<T>(cap), es))
  {
    CapacityHolds(Init<T>(cap), es, p);
    if OnlyTryPop(es) {
      WaitingProducerHasWorkAhead(Init<T>(cap), es, p);
    } else {
      WaitingProducerMeansFull(Init<T>(cap), es, p);
    }
  }

  /** Every `pop` is by thread c, which never enters one while it is still inside another. */
  ghost predicate OneConsumer<T>(s: State<T>, es: seq<Event<T>>, c: Tid)
    requires IsRun(s, es)
    decreases |es|
  {
    es == [] ||
    (&& (es[0].PopEnter? ==> es[0].tid == c && s.emptyWait == {} && s.emptyWoken == {})
     && OneConsumer(Next(s, es[0]), es[1..], c))
  }

  /** A producer and a consumer both wait, and no signal is on its way to either side. */
  ghost predicate Deadlocked<T>(s: State<T>) {
    s.fullWait != [] && s.fullWoken == [] && s.emptyWait != {} && s.emptyWoken == {}
  }

  /** A consumer waits alone, and at most one item, queued or about to be, has escaped its notice. */
  ghost predicate ConsumerWaitsAlone<T>(s: State<T>) {
    && s.emptyWait * s.emptyWoken == {}
    && (s.emptyWait != {} ==> s.emptyWoken == {} && s.fullWait == [] && |s.items| + |s.fullWoken| <= 1)
  }

  /** The waiting threads of a run with one consumer are that consumer at most. */
  ghost predicate OnlyWaits<T>(s: State<T>, c: Tid) {
    s.emptyWait + s.emptyWoken <= {c}
  }

  /**
   A resuming producer signals no consumer. With capacity at least 2 that does no lasting harm:
   with one producer and one `pop` consumer, whatever the consumer's wakeups, a waiting consumer
   never faces a waiting producer, and at most one item lies unnoticed.
   */
  lemma {:induction false} WaitingConsumerIsAlone<T>(s: State<T>, es: seq<Event<T>>, p: Tid, c: Tid)
    requires s.cap != 1 && |s.fullWait| + |s.fullWoken| <= 1
    requires s.cap != 0 ==> Bounded(s)
    requires s.fullWait != [] ==> IsFull(s)
    requires ConsumerWaitsAlone(s) && OnlyWaits(s, c)
    requires IsRun(s, es) && OneProducer(s, es, p) && OnlyPop(es) && OneConsumer(s, es, c)
    ensures ConsumerWaitsAlone(After(s, es))
    decreases |es|
  {
    if es != [] {
      assert es[0] in es;
      assert OnlyPop(es[1..]) by { assert forall e <- es[1..] :: e in es; }
      WaitingConsumerIsAlone(Next(s, es[0]), es[1..], p, c);
    }
  }

  /** Where only thread c pops, it is one consumer. */
  lemma {:induction false} SolePopperIsOneConsumer<T>(s: State<T>, es: seq<Event<T>>, c: Tid)
    requires IsRun(s, es) && Threaded(s, es)
    requires forall e <- es :: e.PopEnter? ==> e.tid == c
    requires s.emptyWait + s.emptyWoken <= {c}
    ensures OneConsumer(s, es, c)
    decreases |es|
  {
    if es != [] {
      assert es[0] in es && forall x <- es[1..] :: x in es;
      if es[0].PopEnter? {
        assert s.emptyWait == {} && s.emptyWoken == {};
      }
      SolePopperIsOneConsumer(Next(s, es[0]), es[1..], c);
    }
  }

  /**
   With capacity 1 both sides do end up waiting: the woken producer fills the queue behind the back
   of the consumer, and its next push waits.
   */
  lemma BothSidesAsleep() returns (es: seq<Event<nat>>)
    ensures DeadlockRun(1, es, 0, 1) && After(Init<nat>(1), es).items == [0]
  {
    var rest := FallAsleep(ProducerWoken());
    es := [PushEnter(0, 0, None), PushEnter(0, 0, None), PopEnter(1, Some(0))] + rest;
    hide IsRun, After, Threaded, EntersFree, OneProducer, OneConsumer;
    WakeProducerOnEmpty(rest);
    SolePusherIsOneProducer(Init<nat>(1), es, 0);
    SolePopperIsOneConsumer(Init<nat>(1), es, 1);
  }

  /** Capacity 1: the producer waits, and the consumer has popped the one item and signalled it. */
  function ProducerWoken(): State<nat> {
    Init<nat>(1).(fullWoken := [Waiter(0, 0)], enqueued := [0], dequeued := [0])
  }

  lemma WakeProducerOnEmpty(rest: seq<Event<nat>>)
    requires IsRun(ProducerWoken(), rest) && Threaded(ProducerWoken(), rest)
    ensures var es := [PushEnter(0, 0, None), PushEnter(0, 0, None), PopEnter(1, Some(0))] + rest;
            var s := Init<nat>(1);
            IsRun(s, es) && Threaded(s, es) && After(s, es) == After(ProducerWoken(), rest)
  {
    var push, pop := PushEnter(0, 0, None), PopEnter(1, Some(0));
    hide IsRun, After, Threaded, EntersFree;
    var s0 := Init<nat>(1);
    var s1 := Next(s0, push);
    var s2 := Next(s1, push);
    assert s2.items == [0] && s2.fullWait == [Waiter(0, 0)];
    assert Next(s2, pop) == ProducerWoken();
    FreeOf(s0, push, 1);
    FreeOf(s1, push, 1);
    FreeOf(s2, pop, 0);
    RunCons(s2, pop, rest);
    RunCons(s1, push, [pop] + rest);
    RunCons(s0, push, [push] + ([pop] + rest));
    assert [push, push, pop] + rest == [push] + ([push] + ([pop] + rest));
  }

  /** A thread may enter a call where only another thread waits to push. */
  lemma FreeOf(s: State<nat>, e: Event<nat>, other: Tid)
    requires s.fullWait == [] || s.fullWait == [Waiter(other, 0)]
    requires s.fullWoken == [] && s.emptyWait == {} && s.emptyWoken == {}
    requires e.PushEnter? || e.PopEnter? ==> e.tid != other
    ensures EntersFree(s, e)
  {
  }

  lemma FallAsleep(s: State<nat>) returns (es: seq<Event<nat>>)
    requires s.cap == 1 && s.items == [] && s.emptyWait == {} && s.emptyWoken == {}
    requires s.fullWait == [] && s.fullWoken == [Waiter(0, 0)]
    ensures IsRun(s, es) && Threaded(s, es) && Deadlocked(After(s, es)) && After(s, es).items == [0]
    ensures forall e <- es ::
              !IsSpurious(e) && !e.TryPop? && (e.PushEnter? ==> e.tid == 0) && (e.PopEnter? ==> e.tid == 1)
  {
    var push, wait := PushEnter(0, 0, None), PopEnter(1, None);
    var s1 := Next(s, wait);
    var s2 := Next(s1, PushResume(0));
    var s3 := Next(s2, push);
    assert s3.fullWait == [Waiter(0, 0)] && s3.items == [0];
    assert EntersFree(s, wait) && EntersFree(s2, push);
    NobodyLeft(s3);
    hide IsRun, After, Threaded, EntersFree;
    RunCons(s2, push, []);
    FreeUnlessEntering(s1, PushResume(0));
    RunCons(s1, PushResume(0), [push]);
    RunCons(s, wait, [PushResume(0), push]);
    es := [wait, PushResume(0), push];
  }

  lemma FreeUnlessEntering<T>(s: State<T>, e: Event<T>)
    requires !e.PushEnter? && !e.PopEnter?
    ensures EntersFree(s, e)
  {
  }

  /** A run of one producer and one `pop` consumer on a new queue ends with both waiting and no signal on its way. */
  ghost predicate DeadlockRun(cap: nat, es: seq<Event<nat>>, p: Tid, c: Tid) {
    var s := Init<nat>(cap);
    && p != c
    && IsRun(s, es) && Threaded(s, es) && OneProducer(s, es, p) && OneConsumer(s, es, c) && OnlyPop(es)
    && Deadlocked(After(s, es))
  }

  /** One producer and one `pop` consumer can deadlock exactly on a queue of capacity 1. */
  lemma DeadlockExactlyAtCapacityOne(cap: nat)
    ensures (exists es, p, c :: DeadlockRun(cap, es, p, c)) <==> cap == 1
  {
    if cap == 1 {
      var es := BothSidesAsleep();
    } else {
      forall es, p, c
        ensures !DeadlockRun(cap, es, p, c)
      {
        if DeadlockRun(cap, es, p, c) {
          WaitingConsumerIsAlone(Init<nat>(cap), es, p, c);
        }
      }
    }
  }

  // ---------------------------------------------------------------------------------------------
  // Items and waiting consumers
  // ---------------------------------------------------------------------------------------------

  /** The pushes that went through a wait. */
  function Resumes<T>(es: seq<Event<T>>): nat {
    if es == [] then 0 else (if es[0].PushResume? then 1 else 0) + Resumes(es[1..])
  }

  /** While a consumer waits, all items but k have a woken consumer on the way to them. */
  ghost predicate Noticed<T>(s: State<T>, k: nat) {
    && s.emptyWait !! s.emptyWoken
    && (s.emptyWait != {} ==> |s.items| <= |s.emptyWoken| + k)
  }

  lemma StepKeepsNoticed<T>(s: State<T>, e: Event<T>, k: nat)
    requires Enabled(s, e) && EntersFree(s, e) && Noticed(s, k)
    ensures Noticed(Next(s, e), k + if e.PushResume? then 1 else 0)
  {
    match e
    case PushEnter(t, x, w) =>
      if !IsFull(s) && s.emptyWait != {} {
        assert |s.emptyWoken + {w.value}| == |s.emptyWoken| + 1;
      }
    case PushResume(i) =>
    case TryPop(w) =>
    case PopEnter(t, w) =>
    case PopResume(t, w) =>
      assert |s.emptyWoken - {t}| == |s.emptyWoken| - 1;
    case SpuriousFull(i) =>
    case SpuriousEmpty(t) =>
      assert |s.emptyWoken + {t}| == |s.emptyWoken| + 1;
  }

  /**
   A push that did not wait always notifies: for any capacity, any threads and any wakeups, while a
   consumer waits there are no more items than consumers woken to fetch them, but for one item for
   each push that went through a wait.
   */
  lemma {:induction false} WaitingConsumersAreNotified<T>(s: State<T>, es: seq<Event<T>>, k: nat)
    requires IsRun(s, es) && Threaded(s, es) && Noticed(s, k)
    ensures Noticed(After(s, es), k + Resumes(es))
    decreases |es|
  {
    hide Noticed, Enabled, Next, EntersFree;
    if es != [] {
      StepKeepsNoticed(s, es[0], k);
      WaitingConsumersAreNotified(Next(s, es[0]), es[1..], k + if es[0].PushResume? then 1 else 0);
    }
  }

  /** The calls of `pop` that have been entered. */
  function PopCalls<T>(es: seq<Event<T>>): nat {
    if es == [] then 0 else (if es[0].PopEnter? then 1 else 0) + PopCalls(es[1..])
  }

  /** The calls of `try_pop` that met an item. */
  ghost function TryPopHits<T>(s: State<T>, es: seq<Event<T>>): nat
    requires IsRun(s, es)
    decreases |es|
  {
    if es == [] then 0
    else (if es[0].TryPop? && s.items != [] then 1 else 0) + TryPopHits(Next(s, es[0]), es[1..])
  }

  /** The consumers inside `pop`. */
  function Inside<T>(s: State<T>): nat {
    |s.emptyWait + s.emptyWoken|
  }

  lemma TakeServes<T>(s: State<T>, w: Option<nat>)
    requires s.items != [] && (w.Some? ==> w.value < |s.fullWait|)
    ensures var n := WakeProducer(Dequeue(s), w);
            n.emptyWait == s.emptyWait && n.emptyWoken == s.emptyWoken && |n.dequeued| == |s.dequeued| + 1
  {
  }

  lemma WakeServes<T>(s: State<T>, w: Option<Tid>)
    requires s.emptyWait !! s.emptyWoken && (w.Some? ==> w.value in s.emptyWait)
    ensures var n := WakeConsumer(s, w);
            n.emptyWait !! n.emptyWoken && Inside(n) == Inside(s) && n.dequeued == s.dequeued
  {
    assert w.Some? ==> (s.emptyWait - {w.value}) + (s.emptyWoken + {w.value}) == s.emptyWait + s.emptyWoken;
  }

  lemma OneStepServes<T>(s: State<T>, e: Event<T>)
    requires Enabled(s, e) && EntersFree(s, e) && s.emptyWait !! s.emptyWoken
    ensures var n := Next(s, e);
            && n.emptyWait !! n.emptyWoken
            && |n.dequeued| + Inside(n)
               == |s.dequeued| + Inside(s) + (if e.PopEnter? || (e.TryPop? && s.items != []) then 1 else 0)
  {
    hide WakeProducer, Dequeue, WakeConsumer, Remove;
    match e
    case PushEnter(t, x, w) =>
      if !IsFull(s) {
        WakeServes(Enqueue(s, x), w);
      }
    case PushResume(i) =>
    case TryPop(w) =>
      if s.items != [] {
        TakeServes(s, w);
      }
    case PopEnter(t, w) => EnterServes(s, t, w);
    case PopResume(t, w) => ResumeServes(s, t, w);
    case SpuriousFull(i) => WakeKeepsConsumers(s, i);
    case SpuriousEmpty(t) => WakeServes(s, Some(t));
  }

  lemma WakeKeepsConsumers<T>(s: State<T>, i: nat)
    requires i < |s.fullWait|
    ensures var n := WakeProducer(s, Some(i));
            n.emptyWait == s.emptyWait && n.emptyWoken == s.emptyWoken && n.dequeued == s.dequeued
  {
  }

  lemma EnterServes<T>(s: State<T>, t: Tid, w: Option<nat>)
    requires Enabled(s, PopEnter(t, w)) && EntersFree(s, PopEnter(t, w)) && s.emptyWait !! s.emptyWoken
    ensures var n := Next(s, PopEnter(t, w));
            n.emptyWait !! n.emptyWoken && |n.dequeued| + Inside(n) == |s.dequeued| + Inside(s) + 1
  {
    hide WakeProducer, Dequeue;
    if s.items != [] {
      TakeServes(s, w);
    } else {
      assert s.emptyWait + {t} + s.emptyWoken == s.emptyWait + s.emptyWoken + {t};
    }
  }

  lemma ResumeServes<T>(s: State<T>, t: Tid, w: Option<nat>)
    requires Enabled(s, PopResume(t, w)) && s.emptyWait !! s.emptyWoken
    ensures var n := Next(s, PopResume(t, w));
            n.emptyWait !! n.emptyWoken && |n.dequeued| + Inside(n) == |s.dequeued| + Inside(s)
  {
    hide WakeProducer, Dequeue;
    var s1 := s.(emptyWoken := s.emptyWoken - {t});
    if s.items != [] {
      TakeServes(s1, w);
      assert s.emptyWait + (s.emptyWoken - {t}) == s.emptyWait + s.emptyWoken - {t};
    } else {
      assert s.emptyWait + {t} + (s.emptyWoken - {t}) == s.emptyWait + s.emptyWoken;
    }
  }

  /**
   A `pop` comes back only with an item: in every run the items taken and the consumers still inside
   `pop` are as many as there were calls of `pop` and calls of `try_pop` that met an item.
   */
  lemma {:induction false} PopReturnsWithItem<T>(s: State<T>, es: seq<Event<T>>)
    requires IsRun(s, es) && Threaded(s, es) && s.emptyWait !! s.emptyWoken
    ensures |After(s, es).dequeued| + Inside(After(s, es))
            == |s.dequeued| + Inside(s) + PopCalls(es) + TryPopHits(s, es)
    decreases |es|
  {
    hide Inside, Enabled, Next, EntersFree;
    if es != [] {
      OneStepServes(s, es[0]);
      PopReturnsWithItem(Next(s, es[0]), es[1..]);
    }
  }

  // ---------------------------------------------------------------------------------------------
  // Without those two assumptions there is no bound
  // ---------------------------------------------------------------------------------------------

  /** A push by thread 1 that finds no consumer waiting. */
  const PLAIN_PUSH: Event<nat> := PushEnter(1, 0, None)

  /** Nobody is in a call. */
  ghost predicate Quiet(s: State<nat>) {
    s.fullWait == [] && s.fullWoken == [] && s.emptyWait == {} && s.emptyWoken == {}
  }

  /** Once above its capacity the queue takes any number of further items: the test is for equality. */
  lemma {:induction false} AboveCapacityNothingBlocks(s: State<nat>, n: nat) returns (es: seq<Event<nat>>)
    requires s.cap != 0 && |s.items| > s.cap && Quiet(s)
    ensures IsRun(s, es) && Threaded(s, es) && |After(s, es).items| == |s.items| + n
    ensures forall e <- es :: e == PLAIN_PUSH
    decreases n
  {
    if n == 0 {
      es := [];
    } else {
      var rest := AboveCapacityNothingBlocks(Next(s, PLAIN_PUSH), n - 1);
      es := [PLAIN_PUSH] + rest;
      RunCons(s, PLAIN_PUSH, rest);
    }
  }

  lemma {:induction false} FillUp(s: State<nat>) returns (es: seq<Event<nat>>)
    requires s.cap != 0 && |s.items| <= s.cap && Quiet(s)
    ensures IsRun(s, es) && Threaded(s, es)
    ensures var n := After(s, es); n.cap == s.cap && FullAndQuiet(n)
    ensures |es| == s.cap - |s.items| && forall e <- es :: e == PLAIN_PUSH
    decreases s.cap - |s.items|
  {
    if |s.items| == s.cap {
      es := [];
    } else {
      var rest := FillUp(Next(s, PLAIN_PUSH));
      es := [PLAIN_PUSH] + rest;
      RunCons(s, PLAIN_PUSH, rest);
    }
  }

  /** A full queue on which nobody waits. */
  ghost predicate FullAndQuiet(s: State<nat>) {
    IsFull(s) && Quiet(s)
  }

  /** A producer waits on the full queue, one `try_pop` and one `pop` follow: neither meets its test. */
  lemma OnePopOfEachKind(s: State<nat>)
    requires FullAndQuiet(s) && s.cap >= 2
    ensures var es := [PLAIN_PUSH, TryPop(None), PopEnter(2, None)];
            IsRun(s, es) && Threaded(s, es) && SignalLost(After(s, es))
  {
    var pop := PopEnter(2, None);
    var s1 := Next(s, PLAIN_PUSH);
    var s2 := Next(s1, TryPop(None));
    var s3 := Next(s2, pop);
    assert s3.fullWait == [Waiter(1, 0)] && |s3.items| == s.cap - 2;
    NobodyLeft(s3);
    hide IsRun, After, Threaded;
    RunCons(s2, pop, []);
    RunCons(s1, TryPop(None), [pop]);
    RunCons(s, PLAIN_PUSH, [TryPop(None), pop]);
  }

  /**
   For every capacity of at least 2, a single producer, one `try_pop` and one `pop` can lose the
   signal: the producer fills the queue and waits, then one pop of each kind follows.
   */
  lemma MixedPopsLoseSignal(cap: nat) returns (fill: seq<Event<nat>>, es: seq<Event<nat>>)
    requires cap >= 2
    ensures |fill| == cap && forall e <- fill :: e == PLAIN_PUSH
    ensures es == fill + [PLAIN_PUSH, TryPop(None), PopEnter(2, None)]
    ensures var s := Init<nat>(cap);
            IsRun(s, es) && Threaded(s, es) && OneProducer(s, es, 1) && SignalLost(After(s, es))
  {
    var s0 := Init<nat>(cap);
    fill := FillUp(s0);
    OnePopOfEachKind(After(s0, fill));
    hide IsRun, After, Threaded;
    es := fill + [PLAIN_PUSH, TryPop(None), PopEnter(2, None)];
    RunThen(s0, fill, [PLAIN_PUSH, TryPop(None), PopEnter(2, None)]);
    SolePusherIsOneProducer(s0, es, 1);
  }

  /**
   Producer 0 waits on the full queue, a pop signals it, producer 1 takes the free place, and
   producer 0 pushes without looking.
   */
  lemma Overtake(s: State<nat>) returns (es: seq<Event<nat>>)
    requires FullAndQuiet(s)
    ensures IsRun(s, es) && Threaded(s, es)
    ensures var n := After(s, es); n.cap == s.cap && |n.items| == s.cap + 1 && Quiet(n)
    ensures forall e <- es :: !IsSpurious(e) && (e.PushEnter? ==> e.tid <= 1)
  {
    var park, pop, resume := PushEnter(0, 0, None), PopEnter(2, Some(0)), PushResume(0);
    var s1 := Next(s, park);
    assert s1.fullWait == [Waiter(0, 0)];
    var s2 := Next(s1, pop);
    assert s2.fullWoken == [Waiter(0, 0)] && |s2.items| == s.cap - 1;
    var s3 := Next(s2, PLAIN_PUSH);
    NobodyLeft(Next(s3, resume));
    hide IsRun, After, Threaded;
    RunCons(s3, resume, []);
    RunCons(s2, PLAIN_PUSH, [resume]);
    RunCons(s1, pop, [PLAIN_PUSH, resume]);
    RunCons(s, park, [pop, PLAIN_PUSH, resume]);
    es := [park, pop, PLAIN_PUSH, resume];
  }

  predicate IsSpurious<T>(e: Event<T>) {
    e.SpuriousFull? || e.SpuriousEmpty?
  }

  /** The wakeups of a run that nobody signalled. */
  function SpuriousCount<T>(es: seq<Event<T>>): nat {
    if es == [] then 0 else (if IsSpurious(es[0]) then 1 else 0) + SpuriousCount(es[1..])
  }

  lemma {:induction false} SpuriousCountConcat<T>(a: seq<Event<T>>, b: seq<Event<T>>)
    ensures SpuriousCount(a + b) == SpuriousCount(a) + SpuriousCount(b)
  {
    if a == [] {
      assert a + b == b;
    } else {
      assert (a + b)[1..] == a[1..] + b;
      SpuriousCountConcat(a[1..], b);
    }
  }

  lemma {:induction false} PushesAreNotSpurious(es: seq<Event<nat>>)
    requires forall e <- es :: e == PLAIN_PUSH
    ensures SpuriousCount(es) == 0
  {
    if es != [] {
      assert es[0] in es && forall e <- es[1..] :: e in es;
      PushesAreNotSpurious(es[1..]);
    }
  }

  /** A single producer that waits on the full queue and wakes for no reason pushes just the same. */
  lemma WakeForNoReason(s: State<nat>)
    requires FullAndQuiet(s)
    ensures var es := [PLAIN_PUSH, SpuriousFull(0), PushResume(0)];
            && IsRun(s, es) && Threaded(s, es)
            && var n := After(s, es); n.cap == s.cap && |n.items| == s.cap + 1 && Quiet(n)
  {
    var wake, resume := SpuriousFull(0), PushResume(0);
    var s1 := Next(s, PLAIN_PUSH);
    assert s1.fullWait == [Waiter(1, 0)];
    var s2 := Next(s1, wake);
    assert s2.fullWoken == [Waiter(1, 0)];
    NobodyLeft(Next(s2, resume));
    hide IsRun, After, Threaded;
    RunCons(s2, resume, []);
    RunCons(s1, wake, [resume]);
    RunCons(s, PLAIN_PUSH, [wake, resume]);
  }

  lemma OneWakeup()
    ensures SpuriousCount<nat>([PLAIN_PUSH, SpuriousFull(0), PushResume(0)]) == 1
  {
    var es: seq<Event<nat>> := [PLAIN_PUSH, SpuriousFull(0), PushResume(0)];
    assert es[1..] == [SpuriousFull(0), PushResume(0)] && es[1..][1..] == [PushResume(0)];
    assert SpuriousCount<nat>([PushResume(0)]) == 0;
    assert SpuriousCount(es[1..]) == 1;
  }

  /** With two producers and no spurious wakeup, every capacity is exceeded by any amount. */
  lemma TwoProducersExceedAnyBound(cap: nat, bound: nat) returns (es: seq<Event<nat>>)
    requires cap != 0
    ensures var s := Init<nat>(cap); IsRun(s, es) && Threaded(s, es) && |After(s, es).items| > bound
    ensures forall e <- es :: !IsSpurious(e) && (e.PushEnter? ==> e.tid <= 1)
  {
    var s0 := Init<nat>(cap);
    var fill := FillUp(s0);
    var s1 := After(s0, fill);
    var mid := Overtake(s1);
    hide IsRun, After, Threaded;
    var more := AboveCapacityNothingBlocks(After(s1, mid), bound);
    RunThen(s1, mid, more);
    RunThen(s0, fill, mid + more);
    es := fill + (mid + more);
  }

  /** One spurious wakeup of a producer, and no other, does the same with one producer. */
  lemma SpuriousWakeupExceedsAnyBound(cap: nat, bound: nat) returns (es: seq<Event<nat>>)
    requires cap != 0
    ensures var s := Init<nat>(cap); IsRun(s, es) && Threaded(s, es) && |After(s, es).items| > bound
    ensures forall e <- es :: !e.SpuriousEmpty? && (e.PushEnter? ==> e.tid == 1)
    ensures SpuriousCount(es) == 1
  {
    var s0 := Init<nat>(cap);
    var fill := FillUp(s0);
    var s1 := After(s0, fill);
    var mid := [PLAIN_PUSH, SpuriousFull(0), PushResume(0)];
    WakeForNoReason(s1);
    hide IsRun, After, Threaded;
    var more := AboveCapacityNothingBlocks(After(s1, mid), bound);
    RunThen(s1, mid, more);
    RunThen(s0, fill, mid + more);
    es := fill + (mid + more);
    SpuriousCountConcat(fill, mid + more);
    SpuriousCountConcat(mid, more);
    PushesAreNotSpurious(fill);
    PushesAreNotSpurious(more);
    OneWakeup();
  }

  // ---------------------------------------------------------------------------------------------
  // Several producers and the signal
  // ---------------------------------------------------------------------------------------------

  /** A producer waits unsignalled beside an empty queue. */
  ghost predicate Stranded<T>(s: State<T>) {
    s.fullWait != [] && s.fullWoken == [] && s.items == []
  }

  /** No consumer can release it: until somebody pushes it stays as it is, however often the queue is popped. */
  lemma {:induction false} StrandedStays<T>(s: State<T>, es: seq<Event<T>>)
    requires Stranded(s) && IsRun(s, es)
    requires forall e <- es :: !e.PushEnter? && !e.SpuriousFull?
    ensures Stranded(After(s, es)) && After(s, es).fullWait == s.fullWait
    decreases |es|
  {
    if es != [] {
      assert es[0] in es && forall e <- es[1..] :: e in es;
      StrandedStays(Next(s, es[0]), es[1..]);
    }
  }

  /**
   With `try_pop` only and capacity 2 no producer is ever stranded, however many there are and whatever
   wakes them.
   */
  lemma {:induction false} NobodyStrandedByTryPop<T>(s: State<T>, es: seq<Event<T>>)
    requires (s.cap == 0 && s.fullWait == []) || (s.cap == 2 && !Stranded(s))
    requires IsRun(s, es) && OnlyTryPop(es)
    ensures !Stranded(After(s, es))
    decreases |es|
  {
    if es != [] {
      assert es[0] in es;
      assert OnlyTryPop(es[1..]) by { assert forall e <- es[1..] :: e in es; }
      NobodyStrandedByTryPop(Next(s, es[0]), es[1..]);
    }
  }

  /** With `pop` only and capacity 1 neither. */
  lemma {:induction false} NobodyStrandedByPop<T>(s: State<T>, es: seq<Event<T>>)
    requires (s.cap == 0 && s.fullWait == []) || (s.cap == 1 && !Stranded(s))
    requires IsRun(s, es) && OnlyPop(es)
    ensures !Stranded(After(s, es))
    decreases |es|
  {
    if es != [] {
      assert es[0] in es;
      assert OnlyPop(es[1..]) by { assert forall e <- es[1..] :: e in es; }
      NobodyStrandedByPop(Next(s, es[0]), es[1..]);
    }
  }

  /** Popping a queue too short for the test of `try_pop` empties it without a signal. */
  lemma {:induction false} DrainByTryPop(s: State<nat>) returns (es: seq<Event<nat>>)
    requires |s.items| < s.cap - 1
    ensures IsRun(s, es) && Threaded(s, es)
    ensures After(s, es).items == [] && After(s, es).(items := [], dequeued := []) == s.(items := [], dequeued := [])
    ensures forall e <- es :: e == TryPop(None)
    decreases |s.items|
  {
    if s.items == [] {
      es := [];
    } else {
      var rest := DrainByTryPop(Next(s, TryPop(None)));
      es := [TryPop(None)] + rest;
      RunCons(s, TryPop(None), rest);
    }
  }

  lemma {:induction false} DrainByPop(s: State<nat>) returns (es: seq<Event<nat>>)
    requires |s.items| < s.cap && !InCall(s, 2)
    ensures IsRun(s, es) && Threaded(s, es)
    ensures After(s, es).items == [] && After(s, es).(items := [], dequeued := []) == s.(items := [], dequeued := [])
    ensures forall e <- es :: e == PopEnter(2, None)
    decreases |s.items|
  {
    if s.items == [] {
      es := [];
    } else {
      var rest := DrainByPop(Next(s, PopEnter(2, None)));
      es := [PopEnter(2, None)] + rest;
      RunCons(s, PopEnter(2, None), rest);
    }
  }

  /** A run of two producers and no spurious wakeup that strands one of them. */
  ghost predicate StrandingRun(s: State<nat>, es: seq<Event<nat>>) {
    && IsRun(s, es) && Threaded(s, es) && Stranded(After(s, es))
    && forall e <- es :: !IsSpurious(e) && (e.PushEnter? ==> e.tid <= 1)
  }

  lemma StrandLater(s: State<nat>, a: seq<Event<nat>>, b: seq<Event<nat>>)
    requires IsRun(s, a) && Threaded(s, a)
    requires forall e <- a :: !IsSpurious(e) && (e.PushEnter? ==> e.tid <= 1)
    requires StrandingRun(After(s, a), b)
    ensures StrandingRun(s, a + b)
  {
    RunThen(s, a, b);
  }

  lemma StrandNext(s: State<nat>, e: Event<nat>, es: seq<Event<nat>>)
    requires Enabled(s, e) && EntersFree(s, e) && !IsSpurious(e) && (e.PushEnter? ==> e.tid <= 1)
    requires StrandingRun(Next(s, e), es)
    ensures StrandingRun(s, [e] + es)
  {
    RunCons(s, e, es);
  }

  /** Both producers wait on the full queue. */
  function BothParked(s: State<nat>): State<nat> {
    s.(fullWait := [Waiter(0, 0), Waiter(1, 0)])
  }

  lemma StrandFromFull(s: State<nat>, es: seq<Event<nat>>)
    requires FullAndQuiet(s) && StrandingRun(BothParked(s), es)
    ensures StrandingRun(s, [PushEnter(0, 0, None)] + ([PLAIN_PUSH] + es))
  {
    var s1 := Next(s, PushEnter(0, 0, None));
    assert s1.fullWait == [Waiter(0, 0)];
    assert Next(s1, PLAIN_PUSH) == BothParked(s);
    assert EntersFree(s1, PLAIN_PUSH);
    hide IsRun, Threaded, After;
    StrandNext(s1, PLAIN_PUSH, es);
    StrandNext(s, PushEnter(0, 0, None), [PLAIN_PUSH] + es);
  }

  /** Producer 0 has been signalled and the queue is empty; producer 1 waits. */
  ghost predicate OneSignalled(s: State<nat>) {
    s.items == [] && s.fullWait == [Waiter(1, 0)] && s.fullWoken == [Waiter(0, 0)]
  }

  lemma ResumeThenTryPop(s: State<nat>) returns (es: seq<Event<nat>>)
    requires OneSignalled(s) && s.cap >= 3
    ensures StrandingRun(s, es) && OnlyTryPop(es)
  {
    var s1 := Next(s, PushResume(0));
    assert s1.items == [0] && s1.fullWoken == [] && s1.fullWait == [Waiter(1, 0)];
    var rest := DrainByTryPop(s1);
    hide IsRun, Threaded, After;
    StrandNext(s, PushResume(0), rest);
    es := [PushResume(0)] + rest;
  }

  lemma ResumeThenPop(s: State<nat>) returns (es: seq<Event<nat>>)
    requires OneSignalled(s) && s.cap >= 2 && 2 !in s.emptyWait + s.emptyWoken
    ensures StrandingRun(s, es) && OnlyPop(es)
  {
    var s1 := Next(s, PushResume(0));
    assert s1.items == [0] && s1.fullWoken == [] && s1.fullWait == [Waiter(1, 0)];
    var rest := DrainByPop(s1);
    hide IsRun, Threaded, After;
    StrandNext(s, PushResume(0), rest);
    es := [PushResume(0)] + rest;
  }

  /** With one signal for two waiting producers the second is stranded, once the item of the first is popped as well. */
  lemma StrandByTryPop(s: State<nat>) returns (es: seq<Event<nat>>)
    requires FullAndQuiet(s) && s.cap >= 3
    ensures StrandingRun(BothParked(s), es) && OnlyTryPop(es)
  {
    var s1 := Next(BothParked(s), TryPop(None));
    var s2 := Next(s1, TryPop(Some(0)));
    assert s2.fullWait == [Waiter(1, 0)] && s2.fullWoken == [Waiter(0, 0)];
    var drain := DrainByTryPop(s2);
    var rest := ResumeThenTryPop(After(s2, drain));
    hide IsRun, Threaded, After, StrandingRun, EntersFree;
    StrandLater(s2, drain, rest);
    FreeUnlessEntering(s1, TryPop(Some(0)));
    StrandNext(s1, TryPop(Some(0)), drain + rest);
    FreeUnlessEntering(BothParked(s), TryPop(None));
    StrandNext(BothParked(s), TryPop(None), [TryPop(Some(0))] + (drain + rest));
    es := [TryPop(None)] + ([TryPop(Some(0))] + (drain + rest));
  }

  lemma StrandByPop(s: State<nat>) returns (es: seq<Event<nat>>)
    requires FullAndQuiet(s) && s.cap >= 2
    ensures StrandingRun(BothParked(s), es) && OnlyPop(es)
  {
    var pop := PopEnter(2, Some(0));
    var s1 := Next(BothParked(s), pop);
    assert s1.fullWait == [Waiter(1, 0)] && s1.fullWoken == [Waiter(0, 0)];
    assert EntersFree(BothParked(s), pop);
    var drain := DrainByPop(s1);
    var rest := ResumeThenPop(After(s1, drain));
    hide IsRun, Threaded, After, StrandingRun, EntersFree;
    StrandLater(s1, drain, rest);
    StrandNext(BothParked(s), pop, drain + rest);
    es := [pop] + (drain + rest);
  }

  lemma StrandAtCapacityOne(s: State<nat>)
    requires FullAndQuiet(s) && s.cap == 1
    ensures StrandingRun(s, [PLAIN_PUSH, TryPop(None)])
  {
    var s1 := Next(s, PLAIN_PUSH);
    NobodyLeft(Next(s1, TryPop(None)));
    hide IsRun, Threaded, After;
    RunCons(s1, TryPop(None), []);
    RunCons(s, PLAIN_PUSH, [TryPop(None)]);
  }

  /**
   With `try_pop` only, two producers suffice for one of them to be stranded exactly at capacity 1
   and from 3 on; at capacity 2 any number of producers is safe.
   */
  lemma StrandedByTryPopExactly(cap: nat)
    ensures (exists es :: StrandingRun(Init<nat>(cap), es) && OnlyTryPop(es)) <==> cap == 1 || cap >= 3
  {
    var s0 := Init<nat>(cap);
    if cap == 1 || cap >= 3 {
      var fill := FillUp(s0);
      var s := After(s0, fill);
      var es := [PLAIN_PUSH, TryPop(None)];
      if cap == 1 {
        StrandAtCapacityOne(s);
      } else {
        var rest := StrandByTryPop(s);
        StrandFromFull(s, rest);
        es := [PushEnter(0, 0, None)] + ([PLAIN_PUSH] + rest);
      }
      StrandLater(s0, fill, es);
      assert OnlyTryPop(fill + es);
    } else {
      forall es | StrandingRun(s0, es)
        ensures !OnlyTryPop(es)
      {
        if OnlyTryPop(es) {
          NobodyStrandedByTryPop(s0, es);
        }
      }
    }
  }

  /** With `pop` only this happens exactly from capacity 2 on; at capacity 1 any number of producers is safe. */
  lemma StrandedByPopExactly(cap: nat)
    ensures (exists es :: StrandingRun(Init<nat>(cap), es) && OnlyPop(es)) <==> cap >= 2
  {
    var s0 := Init<nat>(cap);
    if cap >= 2 {
      var fill := FillUp(s0);
      var s := After(s0, fill);
      var rest := StrandByPop(s);
      StrandFromFull(s, rest);
      var es := [PushEnter(0, 0, None)] + ([PLAIN_PUSH] + rest);
      StrandLater(s0, fill, es);
      assert OnlyPop(fill + es);
    } else {
      forall es | StrandingRun(s0, es)
        ensures !OnlyPop(es)
      {
        if OnlyPop(es) {
          NobodyStrandedByPop(s0, es);
        }
      }
    }
  }

  // ---------------------------------------------------------------------------------------------
  // The class
  // ---------------------------------------------------------------------------------------------

  /**
   The queue object. Each method is one critical section; the caller is told which waiting thread
   the condition variable released. The waiting sets are the condition variables' own state.
   */
  class Queue<T> {
    const size: nat
    var queue: seq<T>
    var fullWait: seq<Waiter<T>>
    var fullWoken: seq<Waiter<T>>
    var emptyWait: set<Tid>
    var emptyWoken: set<Tid>
    ghost var enqueued: seq<T>
    ghost var dequeued: seq<T>

    ghost function View(): State<T>
      reads this
    {
      State(size, queue, fullWait, fullWoken, emptyWait, emptyWoken, enqueued, dequeued)
    }

    constructor (size: nat)
      ensures View() == Init(size)
    {
      this.size := size;
      queue, fullWait, fullWoken, emptyWait, emptyWoken := [], [], [], {}, {};
      enqueued, dequeued := [], [];
    }

    method NotifyFull() returns (wake: Option<nat>)
      modifies this`fullWait, this`fullWoken
      ensures WakeOk(old(fullWait), true, wake)
      ensures View() == WakeProducer(old(View()), wake)
    {
      if fullWait == [] {
        return None;
      }
      var i: nat :| i < |fullWait|;
      fullWoken := fullWoken + [fullWait[i]];
      fullWait := Remove(fullWait, i);
      wake := Some(i);
    }

    method NotifyEmpty() returns (wake: Option<Tid>)
      modifies this`emptyWait, this`emptyWoken
      ensures WakeConsumerOk(old(emptyWait), true, wake)
      ensures View() == WakeConsumer(old(View()), wake)
    {
      if emptyWait == {} {
        return None;
      }
      var t :| t in emptyWait;
      emptyWait, emptyWoken := emptyWait - {t}, emptyWoken + {t};
      wake := Some(t);
    }

    /** `push` up to its end or its wait. */
    method Push(t: Tid, item: T) returns (parked: bool, wake: Option<Tid>)
      modifies this
      ensures Enabled(old(View()), PushEnter(t, item, wake))
      ensures View() == Next(old(View()), PushEnter(t, item, wake))
      ensures parked == old(IsFull(View()))
    {
      var queueSize := |queue|;
      wake := None;
      if size != 0 && queueSize == size {
        fullWait := fullWait + [Waiter(t, item)];
        parked := true;
      } else {
        queue := queue + [item];
        enqueued := enqueued + [item];
        wake := NotifyEmpty();
        parked := false;
      }
    }

    /** `push` after its wait. */
    method PushResumed(i: nat)
      requires i < |fullWoken|
      modifies this
      ensures View() == Next(old(View()), PushResume(i))
    {
      var item := fullWoken[i].item;
      fullWoken := Remove(fullWoken, i);
      queue := queue + [item];
      enqueued := enqueued + [item];
    }

    method TryPopItem() returns (rst: bool, item: Option<T>, wake: Option<nat>)
      modifies this
      ensures Enabled(old(View()), Event.TryPop(wake))
      ensures View() == Next(old(View()), Event.TryPop(wake))
      ensures rst == (old(queue) != []) && item == if rst then Some(old(queue)[0]) else None
    {
      var queueSize := |queue|;
      rst, item, wake := false, None, None;
      if queueSize != 0 {
        item := Some(queue[0]);
        dequeued := dequeued + [queue[0]];
        queue := queue[1..];
        rst := true;
        if size != 0 && queueSize == size - 1 {
          wake := NotifyFull();
        }
      }
    }

    /** `pop` up to its end or its wait. */
    method Pop(t: Tid) returns (item: Option<T>, wake: Option<nat>)
      modifies this
      ensures Enabled(old(View()), PopEnter(t, wake))
      ensures View() == Next(old(View()), PopEnter(t, wake))
      ensures item == if old(queue) == [] then None else Some(old(queue)[0])
    {
      item, wake := None, None;
      if queue == [] {
        emptyWait := emptyWait + {t};
      } else {
        item, wake := PopFront();
      }
    }

    /** `pop` after its wait: it looks at the queue again. */
    method PopResumed(t: Tid) returns (item: Option<T>, wake: Option<nat>)
      requires t in emptyWoken
      modifies this
      ensures Enabled(old(View()), PopResume(t, wake))
      ensures View() == Next(old(View()), PopResume(t, wake))
      ensures item == if old(queue) == [] then None else Some(old(queue)[0])
    {
      item, wake := None, None;
      emptyWoken := emptyWoken - {t};
      if queue == [] {
        emptyWait := emptyWait + {t};
      } else {
        item, wake := PopFront();
      }
    }

    method PopFront() returns (item: Option<T>, wake: Option<nat>)
      requires queue != []
      modifies this`queue, this`dequeued, this`fullWait, this`fullWoken
      ensures WakeOk(old(fullWait), old(PopSignals(View())), wake)
      ensures View() == WakeProducer(Dequeue(old(View())), wake)
      ensures item == Some(old(queue)[0])
    {
      item, wake := Some(queue[0]), None;
      dequeued := dequeued + [queue[0]];
      queue := queue[1..];
      if size != 0 && |queue| == size - 1 {
        wake := NotifyFull();
      }
    }

    method Clear()
      modifies this`queue
      ensures View() == old(View()).(items := [])
    {
      queue := [];
    }

    method Size() returns (n: nat)
      ensures n == |queue|
    {
      n := |queue|;
    }
  }
}
