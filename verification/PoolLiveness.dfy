/** Main results about runs of the pool: what holds in every reachable state, that calls in
    progress always come to an end, who can be left asleep, and what the destructor wakes. */
module PoolLiveness {
  import opened Results
  import opened ConnectionPool
  import opened PoolSafety

  // ---- Every reachable state ----

  /** Conservation: idle, owned by a thread and lost connections add up to those created. */
  lemma ReachableConserved(created: nat, threads: nat, run: seq<Step>)
    requires Legal(Init(created, threads), run)
    ensures var s := Exec(Init(created, threads), run);
      |s.pool.idle| + Sum(s.threads, OwnerWeight) + |s.lost| == created
  {
    InitInv(created, threads);
    RunKeepsInv(Init(created, threads), run);
  }

  /** Exclusivity, and the queue is never popped empty nor the counter decremented at zero. */
  lemma ReachableExclusive(created: nat, threads: nat, run: seq<Step>)
    requires Legal(Init(created, threads), run)
    ensures var s := Exec(Init(created, threads), run); Exclusive(s) && !s.corrupt
  {
    InitInv(created, threads);
    RunKeepsInv(Init(created, threads), run);
  }

  /** The separate counter equals the queue length whenever the mutex is free, and a reader
      that does not take the mutex is never more than one off. */
  lemma ReachableCounter(created: nat, threads: nat, run: seq<Step>)
    requires Legal(Init(created, threads), run)
    ensures var s := Exec(Init(created, threads), run);
      && (s.owner.None? ==> s.pool.available == |s.pool.idle|)
      && -1 <= s.pool.available - |s.pool.idle| <= 1
  {
    InitInv(created, threads);
    RunKeepsInv(Init(created, threads), run);
  }

  /** No lost wakeup, under barging and spurious wakeups. */
  lemma ReachableNoLostWakeup(created: nat, threads: nat, run: seq<Step>)
    requires Legal(Init(created, threads), run)
    ensures var s := Exec(Init(created, threads), run);
      !NoSleeper(s.threads) && !s.pool.shutdown ==> |s.pool.idle| <= Sum(s.threads, WakeWeight)
  {
    InitInv(created, threads);
    RunKeepsInv(Init(created, threads), run);
  }

  // ---- Calls in progress come to an end ----

  /** Steps that carry an acquire or release already begun forward, including the release of
      a held connection by its client. Not: a new acquire, a spurious wakeup, the destructor. */
  predicate Closing(s: State, step: Step) {
    Enabled(s, step) &&
    match step
    case Lock(t) => s.threads[t].Woken?
    case Spurious(_) => false
    case StoreShutdown => false
    case NotifyAll => false
    case Drain => false
    case _ => true
  }

  /** An upper bound on the closing steps a thread can still cause. A notifier is worth more
      than the two steps by which the sleeper it wakes goes back. */
  function Rank(p: Phase): nat {
    match p
    case Outside => 0
    case Unnotified => 3
    case Pushed => 4
    case Holding(_) => 5
    case InFlight(_) => 6
    case Popped(_) => 7
    case Sleeping => 7
    case Passed => 8
    case AboutToSleep => 8
    case Woken => 9
  }

  lemma SingleDecreases(s: State, step: Step)
    requires Closing(s, step) && Single(step) && !s.corrupt && !Do(s, step).corrupt
    ensures Sum(Do(s, step).threads, Rank) < Sum(s.threads, Rank)
  {
    var t := SingleStep(s, step, Rank);
    assert Rank(Do(s, step).threads[t]) < Rank(s.threads[t]);
  }

  lemma ClosingDecreases(s: State, step: Step)
    requires Inv(s) && Closing(s, step)
    ensures Sum(Do(s, step).threads, Rank) < Sum(s.threads, Rank)
  {
    NeverCorrupt(s, step);
    if Single(step) {
      SingleDecreases(s, step);
    } else {
      NotifySums(s, step.t, step.u, Rank);
    }
  }

  predicate ClosingRun(s: State, run: seq<Step>)
    decreases |run|
  {
    run == [] || (Closing(s, run[0]) && ClosingRun(Do(s, run[0]), run[1..]))
  }

  lemma {:induction false} ClosingIsLegal(s: State, run: seq<Step>)
    requires ClosingRun(s, run)
    ensures Legal(s, run)
    decreases |run|
  {
    if run != [] {
      ClosingIsLegal(Do(s, run[0]), run[1..]);
    }
  }

  /** However the scheduler chooses, only so many closing steps can follow each other. */
  lemma {:induction false} ClosingRunsAreBounded(s: State, run: seq<Step>)
    requires Inv(s) && ClosingRun(s, run)
    ensures |run| <= Sum(s.threads, Rank)
    decreases |run|
  {
    if run != [] {
      ClosingDecreases(s, run[0]);
      StepKeepsInv(s, run[0]);
      ClosingRunsAreBounded(Do(s, run[0]), run[1..]);
    }
  }

  ghost predicate Quiescent(s: State) { forall step :: !Closing(s, step) }

  /** From every state the calls in progress can be brought to their end. */
  lemma {:induction false} CanFinish(s: State) returns (run: seq<Step>)
    requires Inv(s)
    ensures ClosingRun(s, run) && Legal(s, run) && Quiescent(Exec(s, run))
    decreases Sum(s.threads, Rank)
  {
    if step :| Closing(s, step) {
      StepKeepsInv(s, step);
      ClosingDecreases(s, step);
      var rest := CanFinish(Do(s, step));
      run := [step] + rest;
      assert run[1..] == rest;
    } else {
      run := [];
    }
  }

  /** A thread in the middle of a call can move, unless it waits for a mutex someone else holds. */
  lemma ThreadCanMove(s: State, t: Tid)
    requires Inv(s) && t < |s.threads| && !s.threads[t].Outside? && !s.threads[t].Sleeping?
    requires s.threads[t].HoldsMutex() || s.owner.None?
    ensures exists step :: Closing(s, step)
  {
    match s.threads[t]
    case Passed => assert Closing(s, if s.pool.shutdown then Reject(t) else Pop(t));
    case AboutToSleep => assert Closing(s, Block(t));
    case Woken => assert Closing(s, Lock(t));
    case Popped(_) => assert Closing(s, Uncount(t));
    case InFlight(_) => assert Closing(s, GiveUp(t));
    case Holding(_) => assert Closing(s, Push(t));
    case Pushed => assert Closing(s, CountUp(t));
    case Unnotified =>
      if u :| 0 <= u < |s.threads| && s.threads[u].Sleeping? {
        assert Closing(s, Notify(t, u));
      } else {
        assert Closing(s, NotifyNone(t));
      }
  }

  /** When nothing more can happen by itself, the mutex is free and every thread is out or asleep. */
  lemma QuiescentShape(s: State)
    requires Inv(s) && Quiescent(s)
    ensures s.owner.None?
    ensures forall t | 0 <= t < |s.threads| :: s.threads[t].Outside? || s.threads[t].Sleeping?
  {
    if s.owner.Some? {
      ThreadCanMove(s, s.owner.value);
      assert false;
    }
    forall t | 0 <= t < |s.threads|
      ensures s.threads[t].Outside? || s.threads[t].Sleeping?
    {
      if !s.threads[t].Outside? && !s.threads[t].Sleeping? {
        ThreadCanMove(s, t);
        assert false;
      }
    }
  }

  /** Deadlock freedom: a thread sleeps in a state where nothing more can happen only if every
      connection ever created is lost. */
  lemma SleeperOnlyIfAllLost(s: State)
    requires Inv(s) && Quiescent(s) && s.destructor.NotStarted?
    ensures NoSleeper(s.threads) || |s.lost| == s.created
  {
    QuiescentShape(s);
    SumZero(s.threads, OwnerWeight);
    SumZero(s.threads, WakeWeight);
  }

  /** A closing step that neither waits nor takes a connection out of use. */
  predicate Productive(s: State, step: Step) {
    Closing(s, step) && !step.Block? && !step.Drop? && !step.GiveUp?
  }

  lemma {:induction false} SumPositive(threads: seq<Phase>, weight: Phase -> nat) returns (t: Tid)
    requires Sum(threads, weight) > 0
    ensures t < |threads| && weight(threads[t]) > 0
  {
    if weight(threads[0]) > 0 {
      t := 0;
    } else {
      t := SumPositive(threads[1..], weight);
      t := t + 1;
    }
  }

  /** While nobody holds the mutex, any thread awake in the middle of a call can be productive. */
  lemma ProductiveWhenFree(s: State, t: Tid)
    requires Inv(s) && s.destructor.NotStarted? && s.owner.None?
    requires t < |s.threads| && !s.threads[t].Outside? && !s.threads[t].Sleeping?
    ensures exists step :: Productive(s, step)
  {
    match s.threads[t]
    case Woken => assert Productive(s, Lock(t));
    case InFlight(_) => assert Productive(s, Reconnect(t));
    case Holding(_) => assert Productive(s, Push(t));
    case Unnotified =>
      if u :| 0 <= u < |s.threads| && s.threads[u].Sleeping? {
        assert Productive(s, Notify(t, u));
      } else {
        assert Productive(s, NotifyNone(t));
      }
    case _ =>
  }

  /** Who holds the mutex can be productive, unless it is about to sleep. */
  lemma ProductiveOwner(s: State)
    requires Inv(s) && s.owner.Some? && !s.threads[s.owner.value].AboutToSleep?
    ensures exists step :: Productive(s, step)
  {
    var t := s.owner.value;
    match s.threads[t]
    case Passed => assert Productive(s, if s.pool.shutdown then Reject(t) else Pop(t));
    case Popped(_) => assert Productive(s, Uncount(t));
    case Pushed => assert Productive(s, CountUp(t));
    case _ =>
  }

  /** A thread about to sleep has seen an empty queue: if a connection is left, some thread has it. */
  lemma SomebodyHas(s: State) returns (t: Tid)
    requires Inv(s) && s.owner.Some? && s.threads[s.owner.value].AboutToSleep? && |s.lost| != s.created
    ensures t < |s.threads| && (s.threads[t].InFlight? || s.threads[t].Holding?)
  {
    t := SumPositive(s.threads, OwnerWeight);
  }

  /** The same seen forward: while somebody sleeps and a connection is left, some step other than
      a wait is enabled. It need not give up a connection either: such a step is enabled now, or
      as soon as the thread that holds the mutex has gone to sleep. */
  lemma SomebodyCanMove(s: State)
    requires Inv(s) && s.destructor.NotStarted? && !NoSleeper(s.threads) && |s.lost| != s.created
    ensures exists step :: Closing(s, step) && !step.Block?
    ensures
      || (exists step :: Productive(s, step))
      || (s.owner.Some? && Closing(s, Block(s.owner.value)) &&
          exists step :: Productive(Do(s, Block(s.owner.value)), step))
  {
    if s.owner.None? {
      if Quiescent(s) {
        SleeperOnlyIfAllLost(s);
        assert false;
      }
      var step :| Closing(s, step);
      ProductiveWhenFree(s, step.t);
    } else if s.threads[s.owner.value].AboutToSleep? {
      var t := SomebodyHas(s);
      var block := Block(s.owner.value);
      StepKeepsInv(s, block);
      assert Closing(s, if s.threads[t].InFlight? then Reconnect(t) else Drop(t));
      ProductiveWhenFree(Do(s, block), t);
    } else {
      ProductiveOwner(s);
    }
  }

  /** The same for runs: run the pool in any way, then let the calls in progress finish in any
      order. They finish after boundedly many steps, and whoever is still asleep then sleeps
      because all connections are lost. */
  lemma CallsEnd(created: nat, threads: nat, before: seq<Step>, closing: seq<Step>)
    requires Legal(Init(created, threads), before)
    requires ClosingRun(Exec(Init(created, threads), before), closing)
    ensures var s := Exec(Init(created, threads), before);
      && |closing| <= Sum(s.threads, Rank) <= 9 * threads
      && Legal(s, closing)
      && var e := Exec(s, closing);
         Quiescent(e) && e.destructor.NotStarted? ==> NoSleeper(e.threads) || |e.lost| == created
  {
    var i := Init(created, threads);
    var s := Exec(i, before);
    InitInv(created, threads);
    RunKeepsInv(i, before);
    ClosingRunsAreBounded(s, closing);
    RankBound(s.threads);
    ClosingIsLegal(s, closing);
    RunKeepsInv(s, closing);
    if Quiescent(Exec(s, closing)) && Exec(s, closing).destructor.NotStarted? {
      SleeperOnlyIfAllLost(Exec(s, closing));
    }
  }

  lemma {:induction false} RankBound(threads: seq<Phase>)
    ensures Sum(threads, Rank) <= 9 * |threads|
  {
    if threads != [] {
      RankBound(threads[1..]);
    }
  }

  // ---- Exhaustion ----

  /** The converse of deadlock freedom: once all connections are lost no run ever hands one out
      again. The pool never replaces a lost connection. */
  lemma {:induction false} ExhaustionIsPermanent(s: State, run: seq<Step>)
    requires Inv(s) && Legal(s, run) && |s.lost| == s.created
    ensures var e := Exec(s, run);
      |e.lost| == e.created && e.pool.idle == [] && forall t | 0 <= t < |e.threads| :: !e.threads[t].HasConn()
    decreases |run|
  {
    NobodyOwns(s);
    if run != [] {
      StepKeepsInv(s, run[0]);
      assert s.lost <= Do(s, run[0]).lost;
      assert |Do(s, run[0]).lost| == s.created by {
        if run[0].Drain? { assert Slots(s.pool.idle) == {}; }
      }
      ExhaustionIsPermanent(Do(s, run[0]), run[1..]);
    }
  }

  lemma NobodyOwns(s: State)
    requires Inv(s) && |s.lost| == s.created
    ensures s.pool.idle == [] && forall t | 0 <= t < |s.threads| :: !s.threads[t].HasConn()
  {
    forall t | 0 <= t < |s.threads|
      ensures !s.threads[t].HasConn()
    {
      SumUpdate(s.threads, OwnerWeight, t, Outside);
    }
  }

  /** Exhaustion does happen, with one connection and one client: the server closes the
      connection while it is held, the handle drops it, and the next acquire sleeps for ever. */
  lemma ExhaustionHappens() returns (run: seq<Step>)
    ensures Legal(Init(1, 1), run)
    ensures Exec(Init(1, 1), run) == One([], 0, None, Sleeping, {0})
    ensures Quiescent(Exec(Init(1, 1), run))
  {
    run := SleepWhenEmpty();
    run := AcquireAndDrop(run);
    assert Init(1, 1).pool.idle == [Conn(0, 0)];
    assert Init(1, 1) == One([Conn(0, 0)], 1, None, Outside, {});
    AtRest(One([], 0, None, Sleeping, {0}));
  }

  lemma AtRest(s: State)
    requires forall t | 0 <= t < |s.threads| :: s.threads[t].Outside? || s.threads[t].Sleeping?
    ensures Quiescent(s)
  {
  }

  lemma SleepWhenEmpty() returns (run: seq<Step>)
    ensures var s := One([], 0, None, Outside, {0});
      Legal(s, run) && Exec(s, run) == One([], 0, None, Sleeping, {0})
  {
    var s5 := One([], 0, None, Outside, {0});
    var s6 := One([], 0, Some(0), AboutToSleep, {0});
    var s7 := One([], 0, None, Sleeping, {0});
    run := Before(s6, Block(0), s7, []);
    run := Before(s5, Lock(0), s6, run);
  }

  lemma AcquireAndDrop(rest: seq<Step>) returns (run: seq<Step>)
    requires Legal(One([], 0, None, Outside, {0}), rest)
    ensures var s := One([Conn(0, 0)], 1, None, Outside, {});
      Legal(s, run) && Exec(s, run) == Exec(One([], 0, None, Outside, {0}), rest)
  {
    var c := Conn(0, 0);
    run := Before(One([], 0, None, Holding(c), {}), Drop(0), One([], 0, None, Outside, {0}), rest);
    run := Before(One([], 0, None, InFlight(c), {}), Deliver(0), One([], 0, None, Holding(c), {}), run);
    run := Before(One([], 1, Some(0), Popped(c), {}), Uncount(0), One([], 0, None, InFlight(c), {}), run);
    run := Before(One([c], 1, Some(0), Passed, {}), Pop(0), One([], 1, Some(0), Popped(c), {}), run);
    run := Before(One([c], 1, None, Outside, {}), Lock(0), One([c], 1, Some(0), Passed, {}), run);
  }

  /** A pool made with one connection, used by one thread. */
  function One(idle: seq<Conn>, available: nat, owner: Option<Tid>, p: Phase, lost: set<nat>): State {
    State(Shared(idle, available, false), owner, [p], NotStarted, lost, 1, false)
  }

  /** Puts one step before a run. */
  lemma Before(s: State, step: Step, next: State, rest: seq<Step>) returns (run: seq<Step>)
    requires Enabled(s, step) && Do(s, step) == next && Legal(next, rest)
    ensures run == [step] + rest && Legal(s, run) && Exec(s, run) == Exec(next, rest)
  {
    run := [step] + rest;
    assert run[1..] == rest;
  }

  // ---- The destructor ----

  /** A run in which thread t is never woken spuriously. */
  predicate NotSpurious(run: seq<Step>, t: Tid) { Spurious(t) !in run }

  /** Once notify_all has been called nobody calls notify again: a sleeper stays asleep. */
  lemma {:induction false} LateSleeperIsStranded(s: State, run: seq<Step>, t: Tid)
    requires Inv(s) && Legal(s, run) && (s.destructor.Notified? || s.destructor.Drained?)
    requires t < |s.threads| && s.threads[t].Sleeping? && NotSpurious(run, t)
    ensures Exec(s, run).threads[t].Sleeping?
    decreases |run|
  {
    if run != [] {
      StepKeepsInv(s, run[0]);
      assert run[0] in run;
      LateSleeperIsStranded(Do(s, run[0]), run[1..], t);
    }
  }

  ghost predicate AllAwake(s: State) {
    NoSleeper(s.threads) && forall t | 0 <= t < |s.threads| :: !s.threads[t].AboutToSleep?
  }

  lemma {:induction false} AwakeStaysAwake(s: State, run: seq<Step>)
    requires Inv(s) && Legal(s, run) && s.pool.shutdown && AllAwake(s)
    ensures AllAwake(Exec(s, run))
    decreases |run|
  {
    if run != [] {
      StepKeepsInv(s, run[0]);
      AwakeStaysAwake(Do(s, run[0]), run[1..]);
    }
  }

  /** The destructor stores the flag and notifies without the mutex. It wakes everybody for
      good exactly if, at that moment, no thread stands between the test of the wait predicate
      and the sleep. */
  lemma ShutdownWakesAll(s: State)
    requires Inv(s) && s.destructor.Stored?
    ensures var n := Do(s, NotifyAll);
      (forall run | Legal(n, run) :: NoSleeper(Exec(n, run).threads))
      <==> (forall t | 0 <= t < |s.threads| :: !s.threads[t].AboutToSleep?)
  {
    var n := Do(s, NotifyAll);
    StepKeepsInv(s, NotifyAll);
    if t :| 0 <= t < |s.threads| && s.threads[t].AboutToSleep? {
      var slept := Do(n, Block(t));
      var run := Before(n, Block(t), slept, []);
      assert slept.threads[t].Sleeping?;
    } else {
      forall run | Legal(n, run)
        ensures NoSleeper(Exec(n, run).threads)
      {
        AwakeStaysAwake(n, run);
      }
    }
  }

  /** The bad case is reachable: the pool has no connection and one thread is about to wait. */
  lemma StrandedWaiterHappens() returns (run: seq<Step>)
    ensures Legal(Init(0, 1), run)
    ensures var e := Exec(Init(0, 1), run); e.destructor.Notified? && e.threads == [Sleeping]
  {
    var s0 := Init(0, 1);
    var s1 := Do(s0, Lock(0));
    var s2 := Do(s1, StoreShutdown);
    var s3 := Do(s2, NotifyAll);
    run := Before(s3, Block(0), Do(s3, Block(0)), []);
    run := Before(s2, NotifyAll, s3, run);
    run := Before(s1, StoreShutdown, s2, run);
    run := Before(s0, Lock(0), s1, run);
  }
}
