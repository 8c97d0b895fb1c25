/** The connection pool as a monitor: its shared fields, the phases a thread goes through
    inside `acquire` and `release`, and one labelled step for every point at which another
    thread can run in between. */
module ConnectionPool {
  import opened Results

  type Tid = nat

  /** A database connection. `slot` is the place it was created for; `generation` counts
      how often that place has been reconnected. */
  datatype Conn = Conn(slot: nat, generation: nat)

  /** Where a thread is. Passed, AboutToSleep, Popped and Pushed hold the mutex. */
  datatype Phase =
    | Outside                // in no call and holding no connection
    | Passed                 // wait predicate was true
    | AboutToSleep           // wait predicate was false, not yet blocked
    | Sleeping               // blocked on the condition variable
    | Woken                  // notified, waiting for the mutex
    | Popped(conn: Conn)     // popped, counter not yet decremented
    | InFlight(conn: Conn)   // mutex released, connection being checked
    | Holding(conn: Conn)    // inside a PooledConnection
    | Pushed                 // pushed back, counter not yet incremented
    | Unnotified             // mutex released, notify_one still to come
  {
    predicate HoldsMutex() { Passed? || AboutToSleep? || Popped? || Pushed? }
    predicate HasConn() { Popped? || InFlight? || Holding? }
    predicate HasHandle() { Holding? || Pushed? || Unnotified? }
  }

  /** How far the destructor has come. */
  datatype Destructor = NotStarted | Stored | Notified | Drained

  /** The fields of the pool object that its methods change. */
  datatype Shared = Shared(idle: seq<Conn>, available: nat, shutdown: bool)

  datatype State = State(
    pool: Shared,
    owner: Option<Tid>,       // who holds m_mutex
    threads: seq<Phase>,
    destructor: Destructor,
    lost: set<nat>,           // slots whose connection is gone for good
    created: nat,             // slots filled by the constructor
    corrupt: bool)            // a pop of an empty queue or a counter underflow happened

  datatype Step =
    | Lock(t: Tid)            // take the mutex and evaluate the wait predicate
    | Block(t: Tid)           // give up the mutex and sleep, atomically
    | Spurious(t: Tid)        // wake without a notification
    | Reject(t: Tid)          // m_shutdown seen after the wait
    | Pop(t: Tid)
    | Uncount(t: Tid)         // fetch_sub and unlock
    | Deliver(t: Tid)         // connection was open
    | Reconnect(t: Tid)       // connection was stale, a new one was made
    | GiveUp(t: Tid)          // connection was stale, no new one could be made
    | Drop(t: Tid)            // handle released with a closed connection
    | Push(t: Tid)            // handle released with an open one
    | CountUp(t: Tid)         // fetch_add and unlock
    | Notify(t: Tid, u: Tid)  // notify_one wakes u
    | NotifyNone(t: Tid)      // notify_one finds no sleeper
    | StoreShutdown
    | NotifyAll
    | Drain

  // ---- The three critical updates of the shared fields ----

  predicate Predicate(p: Shared) { p.available > 0 || p.shutdown }

  function AfterPop(p: Shared): Shared
    requires p.idle != []
  {
    p.(idle := p.idle[1..])
  }

  function AfterUncount(p: Shared): Shared
    requires p.available > 0
  {
    p.(available := p.available - 1)
  }

  function AfterPush(p: Shared, c: Conn): Shared { p.(idle := p.idle + [c]) }

  function AfterCountUp(p: Shared): Shared { p.(available := p.available + 1) }

  function AfterDrain(p: Shared): Shared { p.(idle := [], available := 0) }

  function Slots(idle: seq<Conn>): set<nat> { set c | c in idle :: c.slot }

  // ---- The steps ----

  predicate NoSleeper(threads: seq<Phase>) {
    forall t | 0 <= t < |threads| :: !threads[t].Sleeping?
  }

  predicate NoHandle(threads: seq<Phase>) {
    forall t | 0 <= t < |threads| :: !threads[t].HasHandle()
  }

  function WakeAll(threads: seq<Phase>): (r: seq<Phase>)
    ensures |r| == |threads|
    ensures forall t | 0 <= t < |r| :: r[t] == if threads[t].Sleeping? then Woken else threads[t]
  {
    seq(|threads|, t requires 0 <= t < |threads| => if threads[t].Sleeping? then Woken else threads[t])
  }

  /** May this step happen now? A popped queue is not required to be non-empty: that it is,
      is a theorem. The destructor can only run when no handle refers to the pool; once it
      runs, `shared_from_this` throws, so a thread in flight can no longer deliver. */
  predicate Enabled(s: State, step: Step) {
    match step
    case Lock(t) => t < |s.threads| && (s.threads[t].Outside? || s.threads[t].Woken?) && s.owner.None?
    case Block(t) => t < |s.threads| && s.threads[t].AboutToSleep?
    case Spurious(t) => t < |s.threads| && s.threads[t].Sleeping?
    case Reject(t) => t < |s.threads| && s.threads[t].Passed? && s.pool.shutdown
    case Pop(t) => t < |s.threads| && s.threads[t].Passed? && !s.pool.shutdown
    case Uncount(t) => t < |s.threads| && s.threads[t].Popped?
    case Deliver(t) => t < |s.threads| && s.threads[t].InFlight? && s.destructor.NotStarted?
    case Reconnect(t) => t < |s.threads| && s.threads[t].InFlight? && s.destructor.NotStarted?
    case GiveUp(t) => t < |s.threads| && s.threads[t].InFlight?
    case Drop(t) => t < |s.threads| && s.threads[t].Holding?
    case Push(t) => t < |s.threads| && s.threads[t].Holding? && s.owner.None?
    case CountUp(t) => t < |s.threads| && s.threads[t].Pushed?
    case Notify(t, u) =>
      t < |s.threads| && u < |s.threads| && s.threads[t].Unnotified? && s.threads[u].Sleeping?
    case NotifyNone(t) => t < |s.threads| && s.threads[t].Unnotified? && NoSleeper(s.threads)
    case StoreShutdown => s.destructor.NotStarted? && NoHandle(s.threads)
    case NotifyAll => s.destructor.Stored?
    case Drain => s.destructor.Notified? && s.owner.None?
  }

  /** Thread t moves to phase p and the mutex to `owner`. */
  function Move(s: State, t: Tid, p: Phase, owner: Option<Tid>): State
    requires t < |s.threads|
  {
    s.(threads := s.threads[t := p], owner := owner)
  }

  function Do(s: State, step: Step): (s': State)
    requires Enabled(s, step)
    ensures |s'.threads| == |s.threads| && s'.created == s.created
  {
    match step
    case Lock(t) => Move(s, t, if Predicate(s.pool) then Passed else AboutToSleep, Some(t))
    case Block(t) => Move(s, t, Sleeping, None)
    case Spurious(t) => Move(s, t, Woken, s.owner)
    case Reject(t) => Move(s, t, Outside, None)
    case Pop(t) =>
      if s.pool.idle == [] then s.(corrupt := true)
      else Move(s, t, Popped(s.pool.idle[0]), s.owner).(pool := AfterPop(s.pool))
    case Uncount(t) =>
      if s.pool.available == 0 then s.(corrupt := true)
      else Move(s, t, InFlight(s.threads[t].conn), None).(pool := AfterUncount(s.pool))
    case Deliver(t) => Move(s, t, Holding(s.threads[t].conn), s.owner)
    case Reconnect(t) =>
      var c := s.threads[t].conn;
      Move(s, t, Holding(c.(generation := c.generation + 1)), s.owner)
    case GiveUp(t) => Move(s, t, Outside, s.owner).(lost := s.lost + {s.threads[t].conn.slot})
    case Drop(t) => Move(s, t, Outside, s.owner).(lost := s.lost + {s.threads[t].conn.slot})
    case Push(t) => Move(s, t, Pushed, Some(t)).(pool := AfterPush(s.pool, s.threads[t].conn))
    case CountUp(t) => Move(s, t, Unnotified, None).(pool := AfterCountUp(s.pool))
    case Notify(t, u) => Move(Move(s, t, Outside, s.owner), u, Woken, s.owner)
    case NotifyNone(t) => Move(s, t, Outside, s.owner)
    case StoreShutdown => s.(pool := s.pool.(shutdown := true), destructor := Stored)
    case NotifyAll => s.(threads := WakeAll(s.threads), destructor := Notified)
    case Drain => s.(pool := AfterDrain(s.pool), destructor := Drained, lost := s.lost + Slots(s.pool.idle))
  }

  function FreshConns(n: nat): (cs: seq<Conn>)
    ensures |cs| == n && forall i | 0 <= i < n :: cs[i] == Conn(i, 0)
  {
    seq(n, i requires 0 <= i < n => Conn(i, 0))
  }

  /** The pool after construction, with `created` connections made and any number of threads. */
  function Init(created: nat, threads: nat): State {
    State(Shared(FreshConns(created), created, false), None,
          seq(threads, _ => Outside), NotStarted, {}, created, false)
  }

  predicate Legal(s: State, run: seq<Step>)
    decreases |run|
  {
    run == [] || (Enabled(s, run[0]) && Legal(Do(s, run[0]), run[1..]))
  }

  function Exec(s: State, run: seq<Step>): (e: State)
    requires Legal(s, run)
    ensures |e.threads| == |s.threads| && e.created == s.created
    decreases |run|
  {
    if run == [] then s else Exec(Do(s, run[0]), run[1..])
  }
}
