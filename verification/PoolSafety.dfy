/** What every step of the pool keeps, and what therefore holds in every state of every run. */
module PoolSafety {
  import opened Results
  import opened ConnectionPool

  // ---- Weighted sums over threads ----

  function Sum(threads: seq<Phase>, weight: Phase -> nat): nat {
    if threads == [] then 0 else weight(threads[0]) + Sum(threads[1..], weight)
  }

  /** One thread changes phase: the sum changes by the difference of the two weights. */
  lemma {:induction false} SumUpdate(threads: seq<Phase>, weight: Phase -> nat, t: Tid, p: Phase)
    requires t < |threads|
    ensures Sum(threads[t := p], weight) + weight(threads[t]) == Sum(threads, weight) + weight(p)
    ensures weight(threads[t]) <= Sum(threads, weight)
  {
    if t == 0 {
      assert threads[t := p][1..] == threads[1..];
    } else {
      assert threads[t := p][1..] == threads[1..][t - 1 := p];
      SumUpdate(threads[1..], weight, t - 1, p);
    }
  }

  lemma {:induction false} SumZero(threads: seq<Phase>, weight: Phase -> nat)
    requires forall t | 0 <= t < |threads| :: weight(threads[t]) == 0
    ensures Sum(threads, weight) == 0
  {
    if threads != [] {
      assert forall t | 0 <= t < |threads[1..]| :: threads[1..][t] == threads[t + 1];
      SumZero(threads[1..], weight);
    }
  }

  /** Waking sleepers changes no sum whose weight does not tell Sleeping from Woken. */
  lemma {:induction false} SumWakeAll(threads: seq<Phase>, weight: Phase -> nat)
    requires weight(Sleeping) == weight(Woken)
    ensures Sum(WakeAll(threads), weight) == Sum(threads, weight)
  {
    if threads != [] {
      assert WakeAll(threads)[1..] == WakeAll(threads[1..]);
      SumWakeAll(threads[1..], weight);
    }
  }

  /** Counts the threads that own a connection. */
  function OwnerWeight(p: Phase): nat { if p.HasConn() then 1 else 0 }

  /** Counts the threads that will still look at the queue or wake somebody who will. */
  function WakeWeight(p: Phase): nat {
    if p.Woken? || p.Passed? || p.Pushed? || p.Unnotified? then 1 else 0
  }

  // ---- The invariant ----

  ghost predicate MutexInv(s: State) {
    && (s.owner.Some? ==> s.owner.value < |s.threads| && s.threads[s.owner.value].HoldsMutex())
    && (forall t | 0 <= t < |s.threads| && s.threads[t].HoldsMutex() :: s.owner == Some(t))
  }

  /** How far the counter is ahead of the queue: one between pop and fetch_sub, minus one
      between push and fetch_add, and equal at all other times. */
  function CounterLead(s: State): int {
    if s.owner.Some? && s.owner.value < |s.threads| then
      if s.threads[s.owner.value].Popped? then 1
      else if s.threads[s.owner.value].Pushed? then -1 else 0
    else 0
  }

  ghost predicate CounterInv(s: State) {
    && s.pool.available == |s.pool.idle| + CounterLead(s)
    && (forall t | 0 <= t < |s.threads| :: s.threads[t].Passed? ==> s.pool.shutdown || s.pool.idle != [])
    && (forall t | 0 <= t < |s.threads| :: s.threads[t].AboutToSleep? ==> s.pool.idle == [])
  }

  ghost predicate DestructorInv(s: State) {
    && (s.pool.shutdown <==> !s.destructor.NotStarted?)
    && (s.pool.shutdown ==> NoHandle(s.threads))
  }

  /** No connection is in two places. */
  ghost predicate Exclusive(s: State) {
    && (forall i, j | 0 <= i < j < |s.pool.idle| :: s.pool.idle[i].slot != s.pool.idle[j].slot)
    && (forall t, u | 0 <= t < u < |s.threads| && s.threads[t].HasConn() && s.threads[u].HasConn() ::
          s.threads[t].conn.slot != s.threads[u].conn.slot)
    && (forall t, i | 0 <= t < |s.threads| && s.threads[t].HasConn() && 0 <= i < |s.pool.idle| ::
          s.threads[t].conn.slot != s.pool.idle[i].slot)
    && (forall i | 0 <= i < |s.pool.idle| :: s.pool.idle[i].slot !in s.lost)
    && (forall t | 0 <= t < |s.threads| && s.threads[t].HasConn() :: s.threads[t].conn.slot !in s.lost)
  }

  /** idle + popped, in flight or held + lost is what the constructor made. */
  ghost predicate Conserved(s: State) {
    |s.pool.idle| + Sum(s.threads, OwnerWeight) + |s.lost| == s.created
  }

  /** While somebody sleeps, every idle connection has a thread on its way to it. */
  ghost predicate NoLostWakeup(s: State) {
    NoSleeper(s.threads) || s.pool.shutdown || |s.pool.idle| <= Sum(s.threads, WakeWeight)
  }

  ghost predicate Inv(s: State) {
    !s.corrupt && MutexInv(s) && CounterInv(s) && DestructorInv(s) && Exclusive(s) && Conserved(s) && NoLostWakeup(s)
  }

  // ---- Every step keeps it ----

  /** The steps in which one thread alone changes phase. */
  predicate Single(step: Step) { !(step.Notify? || step.StoreShutdown? || step.NotifyAll? || step.Drain?) }

  lemma InitInv(created: nat, threads: nat)
    ensures Inv(Init(created, threads))
  {
    SumZero(Init(created, threads).threads, OwnerWeight);
  }

  lemma SlotsCount(idle: seq<Conn>)
    requires forall i, j | 0 <= i < j < |idle| :: idle[i].slot != idle[j].slot
    ensures |Slots(idle)| == |idle|
  {
    if idle == [] {
      assert Slots(idle) == {};
    } else {
      var last := |idle| - 1;
      SlotsCount(idle[..last]);
      assert Slots(idle) == Slots(idle[..last]) + {idle[last].slot};
    }
  }

  /** The queue is not empty when it is popped, nor the counter zero when it is decremented. */
  lemma NeverCorrupt(s: State, step: Step)
    requires !s.corrupt && MutexInv(s) && CounterInv(s) && Enabled(s, step)
    ensures !Do(s, step).corrupt
  {
    if step.Uncount? {
      assert s.owner == Some(step.t);
    }
  }

  lemma MutexStep(s: State, step: Step)
    requires MutexInv(s) && Enabled(s, step) && !Do(s, step).corrupt && !s.corrupt
    ensures MutexInv(Do(s, step))
  {
    var d := Do(s, step);
    if Single(step) {
      assert d.threads == s.threads[step.t := d.threads[step.t]];
    } else if step.Notify? {
      assert d.threads == s.threads[step.t := Outside][step.u := Woken] && d.owner == s.owner;
    }
  }

  lemma CounterStep(s: State, step: Step)
    requires MutexInv(s) && CounterInv(s) && Enabled(s, step) && !Do(s, step).corrupt && !s.corrupt
    ensures CounterInv(Do(s, step))
  {
    var d := Do(s, step);
    MutexStep(s, step);
    if Single(step) {
      assert d.threads == s.threads[step.t := d.threads[step.t]];
    } else if step.Notify? {
      assert d.threads == s.threads[step.t := Outside][step.u := Woken] && d.owner == s.owner;
    }
  }

  lemma DestructorStep(s: State, step: Step)
    requires DestructorInv(s) && Enabled(s, step)
    ensures DestructorInv(Do(s, step))
  {
  }

  /** No connection changes place, though a thread's connection may be renewed. */
  ghost predicate SamePlaces(s: State, d: State) {
    && d.pool.idle == s.pool.idle && d.lost == s.lost && |d.threads| == |s.threads|
    && forall t | 0 <= t < |s.threads| ::
         && (d.threads[t].HasConn() <==> s.threads[t].HasConn())
         && (d.threads[t].HasConn() ==> d.threads[t].conn.slot == s.threads[t].conn.slot)
  }

  lemma SamePlacesExclusive(s: State, d: State)
    requires Exclusive(s) && SamePlaces(s, d)
    ensures Exclusive(d)
  {
  }

  predicate MovesConnection(step: Step) { step.Pop? || step.GiveUp? || step.Drop? || step.Push? || step.Drain? }

  lemma OtherStepsKeepPlaces(s: State, step: Step)
    requires Enabled(s, step) && !MovesConnection(step)
    ensures SamePlaces(s, Do(s, step))
  {
  }

  lemma PopExclusive(s: State, t: Tid)
    requires Exclusive(s) && Enabled(s, Pop(t))
    ensures Exclusive(Do(s, Pop(t)))
  {
  }

  lemma LossExclusive(s: State, t: Tid)
    requires Exclusive(s) && t < |s.threads| && s.threads[t].HasConn()
    ensures Exclusive(Move(s, t, Outside, s.owner).(lost := s.lost + {s.threads[t].conn.slot}))
  {
  }

  lemma PushExclusive(s: State, t: Tid)
    requires Exclusive(s) && Enabled(s, Push(t))
    ensures Exclusive(Do(s, Push(t)))
  {
  }

  lemma ExclusiveStep(s: State, step: Step)
    requires Exclusive(s) && Enabled(s, step)
    ensures Exclusive(Do(s, step))
  {
    match step
    case Pop(t) => PopExclusive(s, t);
    case GiveUp(t) => LossExclusive(s, t);
    case Drop(t) => LossExclusive(s, t);
    case Push(t) => PushExclusive(s, t);
    case Drain =>
    case _ =>
      OtherStepsKeepPlaces(s, step);
      SamePlacesExclusive(s, Do(s, step));
  }

  lemma SingleStep(s: State, step: Step, weight: Phase -> nat) returns (t: Tid)
    requires Enabled(s, step) && Single(step) && !Do(s, step).corrupt && !s.corrupt
    ensures t == step.t < |s.threads|
    ensures Sum(Do(s, step).threads, weight) + weight(s.threads[t])
         == Sum(s.threads, weight) + weight(Do(s, step).threads[t])
  {
    t := step.t;
    var p := Do(s, step).threads[t];
    SumUpdate(s.threads, weight, t, p);
    assert Do(s, step).threads == s.threads[t := p];
  }

  lemma NotifySums(s: State, t: Tid, u: Tid, weight: Phase -> nat)
    requires Enabled(s, Notify(t, u))
    ensures Sum(Do(s, Notify(t, u)).threads, weight) + weight(Unnotified) + weight(Sleeping)
         == Sum(s.threads, weight) + weight(Outside) + weight(Woken)
  {
    SumUpdate(s.threads, weight, t, Outside);
    SumUpdate(s.threads[t := Outside], weight, u, Woken);
  }

  lemma DrainConserves(s: State)
    requires Enabled(s, Drain) && Exclusive(s) && Conserved(s)
    ensures Conserved(Do(s, Drain))
  {
    SlotsCount(s.pool.idle);
    assert Slots(s.pool.idle) !! s.lost;
  }

  lemma NotLostYet(s: State, t: Tid)
    requires Exclusive(s) && t < |s.threads| && s.threads[t].HasConn()
    ensures |s.lost + {s.threads[t].conn.slot}| == |s.lost| + 1
  {
  }

  /** A single thread's step changes the queue, the threads' connections and the lost ones so that
      the sum stays. */
  lemma SingleConserves(s: State, step: Step)
    requires Enabled(s, step) && Single(step) && !s.corrupt && !Do(s, step).corrupt && Exclusive(s) && Conserved(s)
    ensures Conserved(Do(s, step))
  {
    hide Exclusive;
    var t := SingleStep(s, step, OwnerWeight);
    if step.GiveUp? || step.Drop? {
      NotLostYet(s, t);
    }
  }

  lemma ConservedStep(s: State, step: Step)
    requires Enabled(s, step) && !s.corrupt && !Do(s, step).corrupt && Exclusive(s) && Conserved(s)
    ensures Conserved(Do(s, step))
  {
    if Single(step) {
      SingleConserves(s, step);
    } else if step.Notify? {
      NotifySums(s, step.t, step.u, OwnerWeight);
    } else if step.NotifyAll? {
      SumWakeAll(s.threads, OwnerWeight);
    } else if step.Drain? {
      DrainConserves(s);
    }
  }

  lemma NoLostWakeupStep(s: State, step: Step)
    requires Enabled(s, step) && !s.corrupt && !Do(s, step).corrupt && CounterInv(s) && NoLostWakeup(s)
    ensures NoLostWakeup(Do(s, step))
  {
    if Single(step) {
      var t := SingleStep(s, step, WakeWeight);
      assert forall u | 0 <= u < |s.threads| && u != t :: Do(s, step).threads[u] == s.threads[u];
    } else if step.Notify? {
      NotifySums(s, step.t, step.u, WakeWeight);
    }
  }

  lemma StepKeepsInv(s: State, step: Step)
    requires Inv(s) && Enabled(s, step)
    ensures Inv(Do(s, step))
  {
    NeverCorrupt(s, step);
    MutexStep(s, step);
    CounterStep(s, step);
    DestructorStep(s, step);
    ExclusiveStep(s, step);
    ConservedStep(s, step);
    NoLostWakeupStep(s, step);
  }

  lemma {:induction false} RunKeepsInv(s: State, run: seq<Step>)
    requires Inv(s) && Legal(s, run)
    ensures Inv(Exec(s, run))
    decreases |run|
  {
    if run != [] {
      StepKeepsInv(s, run[0]);
      RunKeepsInv(Do(s, run[0]), run[1..]);
    }
  }
}
