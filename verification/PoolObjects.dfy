/** The pool object and its move-only handles, as objects. Every method is proved against the
    shared-field updates of the monitor model or against the handle functions below. */
module PoolObjects {
  import opened Results
  import opened ConnectionPool
  import opened Backoff

  // ---- What moving and releasing handles does to a set of handles ----

  /** A PooledConnection: its connection, and whether it still refers to the pool. */
  datatype Handle = Handle(conn: Option<Conn>, attached: bool)

  const EMPTY: Handle := Handle(None, false)

  /** The handle after `release()`: an open connection leaves, a closed one stays behind, cut
      off from the pool. */
  function Released(h: Handle, isOpen: bool): Handle {
    if h.conn.Some? && h.attached then (if isOpen then EMPTY else h.(attached := false)) else h
  }

  /** What `release()` gives back to the pool. */
  function Returned(h: Handle, isOpen: bool): seq<Conn> {
    if h.conn.Some? && h.attached && isOpen then [h.conn.value] else []
  }

  function Content(h: Handle): multiset<Conn> { if h.conn.Some? then multiset{h.conn.value} else multiset{} }

  /** A number of handles, the idle queue, and the connections whose last owner let go of them. */
  datatype World = World(handles: seq<Handle>, idle: seq<Conn>, gone: multiset<Conn>)

  datatype Op =
    | Give(i: nat)                           // acquire: the front of the queue to handle i, empty so far
    | MoveInto(i: nat, j: nat)               // move construction of i, empty so far, from j
    | Assign(i: nat, j: nat, isOpen: bool)   // move assignment
    | Destroy(i: nat, isOpen: bool)

  predicate Possible(w: World, op: Op) {
    match op
    case Give(i) => i < |w.handles| && w.handles[i] == EMPTY && w.idle != []
    case MoveInto(i, j) => i < |w.handles| && j < |w.handles| && w.handles[i] == EMPTY
    case Assign(i, j, _) => i < |w.handles| && j < |w.handles|
    case Destroy(i, _) => i < |w.handles|
  }

  function Apply(w: World, op: Op): World
    requires Possible(w, op)
  {
    match op
    case Give(i) =>
      w.(handles := w.handles[i := Handle(Some(w.idle[0]), true)], idle := w.idle[1..])
    case MoveInto(i, j) =>
      w.(handles := w.handles[i := w.handles[j]][j := EMPTY])
    case Assign(i, j, isOpen) =>
      if i == j then w else
      var h := w.handles[i];
      World(w.handles[i := w.handles[j]][j := EMPTY], w.idle + Returned(h, isOpen),
            w.gone + Content(Released(h, isOpen)))
    case Destroy(i, isOpen) =>
      var h := w.handles[i];
      World(w.handles[i := EMPTY], w.idle + Returned(h, isOpen), w.gone + Content(Released(h, isOpen)))
  }

  function Copies(handles: seq<Handle>, c: Conn): nat {
    if handles == [] then 0 else Content(handles[0])[c] + Copies(handles[1..], c)
  }

  /** How often connection c exists, anywhere. */
  function Everywhere(w: World, c: Conn): nat { Copies(w.handles, c) + multiset(w.idle)[c] + w.gone[c] }

  lemma {:induction false} CopiesUpdate(handles: seq<Handle>, i: nat, h: Handle, c: Conn)
    requires i < |handles|
    ensures Copies(handles[i := h], c) + Content(handles[i])[c] == Copies(handles, c) + Content(h)[c]
  {
    if i == 0 {
      assert handles[i := h][1..] == handles[1..];
    } else {
      assert handles[i := h][1..] == handles[1..][i - 1 := h];
      CopiesUpdate(handles[1..], i - 1, h, c);
    }
  }

  lemma ReturnSplits(idle: seq<Conn>, h: Handle, isOpen: bool, c: Conn)
    ensures multiset(idle + Returned(h, isOpen))[c] + Content(Released(h, isOpen))[c]
         == multiset(idle)[c] + Content(h)[c]
  {
  }

  /** Moving handle j over handle i loses exactly what handle i had. */
  lemma MoveCopies(handles: seq<Handle>, i: nat, j: nat, c: Conn)
    requires i < |handles| && j < |handles| && (i != j || handles[i] == EMPTY)
    ensures Copies(handles[i := handles[j]][j := EMPTY], c) + Content(handles[i])[c] == Copies(handles, c)
  {
    CopiesUpdate(handles, i, handles[j], c);
    CopiesUpdate(handles[i := handles[j]], j, EMPTY, c);
  }

  lemma FrontCopies(idle: seq<Conn>, c: Conn)
    requires idle != []
    ensures multiset(idle)[c] == multiset(idle[1..])[c] + Content(Handle(Some(idle[0]), true))[c]
  {
    assert idle == [idle[0]] + idle[1..];
  }

  /** No operation on handles duplicates or loses a connection. */
  lemma ApplyConserves(w: World, op: Op, c: Conn)
    requires Possible(w, op)
    ensures Everywhere(Apply(w, op), c) == Everywhere(w, c)
  {
    match op
    case Give(i) =>
      CopiesUpdate(w.handles, i, Handle(Some(w.idle[0]), true), c);
      FrontCopies(w.idle, c);
    case MoveInto(i, j) =>
      MoveCopies(w.handles, i, j, c);
    case Assign(i, j, isOpen) =>
      if i != j {
        MoveCopies(w.handles, i, j, c);
        ReturnSplits(w.idle, w.handles[i], isOpen, c);
      }
    case Destroy(i, isOpen) =>
      CopiesUpdate(w.handles, i, EMPTY, c);
      ReturnSplits(w.idle, w.handles[i], isOpen, c);
  }

  predicate PossibleRun(w: World, ops: seq<Op>)
    decreases |ops|
  {
    ops == [] || (Possible(w, ops[0]) && PossibleRun(Apply(w, ops[0]), ops[1..]))
  }

  function ApplyAll(w: World, ops: seq<Op>): World
    requires PossibleRun(w, ops)
    decreases |ops|
  {
    if ops == [] then w else ApplyAll(Apply(w, ops[0]), ops[1..])
  }

  /** Over any sequence of acquires, moves, assignments and destructions, a connection that was
      in one place is in one place: in one handle, in the queue once, or gone. */
  lemma {:induction false} HandlesStayExclusive(w: World, ops: seq<Op>, c: Conn)
    requires PossibleRun(w, ops)
    ensures Everywhere(ApplyAll(w, ops), c) == Everywhere(w, c)
    ensures Everywhere(w, c) <= 1 ==> OnePlace(ApplyAll(w, ops), c)
    decreases |ops|
  {
    if ops == [] {
      if Everywhere(w, c) <= 1 {
        OnePlaceOnly(w, c);
      }
    } else {
      ApplyConserves(w, ops[0], c);
      HandlesStayExclusive(Apply(w, ops[0]), ops[1..], c);
    }
  }

  /** No two handles have c, and none has it while it is in the queue or gone. */
  ghost predicate OnePlace(w: World, c: Conn) {
    forall i | 0 <= i < |w.handles| && w.handles[i].conn == Some(c) ::
      c !in w.idle && c !in w.gone && forall j | 0 <= j < |w.handles| && j != i :: w.handles[j].conn != Some(c)
  }

  lemma OnePlaceOnly(w: World, c: Conn)
    requires Everywhere(w, c) <= 1
    ensures OnePlace(w, c)
  {
    forall i | 0 <= i < |w.handles| && w.handles[i].conn == Some(c)
      ensures c !in w.idle && c !in w.gone
      ensures forall j | 0 <= j < |w.handles| && j != i :: w.handles[j].conn != Some(c)
    {
      CopiesUpdate(w.handles, i, EMPTY, c);
      assert c in w.idle ==> multiset(w.idle)[c] > 0;
      forall j | 0 <= j < |w.handles| && j != i
        ensures w.handles[j].conn != Some(c)
      {
        CopiesUpdate(w.handles[i := EMPTY], j, EMPTY, c);
      }
    }
  }

  // ---- The objects ----

  /** How many of the first n places get a connection: those for which some attempt that is made
      succeeds. */
  ghost function Connecting(maxRetries: nat, answers: nat -> nat -> bool, n: nat): (k: nat)
    ensures k <= n
  {
    if n == 0 then 0
    else Connecting(maxRetries, answers, n - 1) + if Connects(maxRetries, answers(n - 1)) then 1 else 0
  }

  lemma {:induction false} ConnectingExtremes(maxRetries: nat, answers: nat -> nat -> bool, n: nat)
    ensures Connecting(maxRetries, answers, n) == n <==> forall i: nat | i < n :: Connects(maxRetries, answers(i))
    ensures Connecting(maxRetries, answers, n) == 0 <==> forall i: nat | i < n :: !Connects(maxRetries, answers(i))
  {
    if n > 0 {
      ConnectingExtremes(maxRetries, answers, n - 1);
    }
  }

  class Pool {
    const poolSize: nat
    const maxRetries: nat
    const retryDelay: nat
    var idle: seq<Conn>
    var available: nat
    var shutdown: bool

    function View(): Shared
      reads this
    {
      Shared(idle, available, shutdown)
    }

    /** True whenever the mutex is free. */
    predicate Coherent()
      reads this
    {
      available == |idle|
    }

    /** The first connections; `answers(i)(k)` says whether attempt k for place i succeeds. The
        pool starts in an initial state of the monitor model, with one connection for each place
        that some attempt could connect: all of them, none of them, or some. */
    constructor (poolSize: nat, maxRetries: nat, retryDelay: nat, answers: nat -> nat -> bool)
      requires maxRetries < WORD && retryDelay < WORD
      requires forall i: nat | i < poolSize :: Ends(maxRetries, answers(i))
      ensures this.poolSize == poolSize && this.maxRetries == maxRetries && this.retryDelay == retryDelay
      ensures available == |idle| == Connecting(maxRetries, answers, poolSize)
      ensures available == poolSize <==> forall i: nat | i < poolSize :: Connects(maxRetries, answers(i))
      ensures available == 0 <==> forall i: nat | i < poolSize :: !Connects(maxRetries, answers(i))
      ensures View() == Init(available, 0).pool && !shutdown
    {
      this.poolSize := poolSize;
      this.maxRetries := maxRetries;
      this.retryDelay := retryDelay;
      idle, available, shutdown := [], 0, false;
      new;
      for i := 0 to poolSize
        invariant !shutdown && available == Connecting(maxRetries, answers, i)
        invariant idle == FreshConns(available)
      {
        var place: nat := i;
        var connected, attempts, slept := CreateConnection(maxRetries, retryDelay, answers(place));
        ReportsWhetherConnects(maxRetries, answers(place), connected, attempts);
        if connected {
          idle := idle + [Conn(available, 0)];
          available := available + 1;
        }
      }
      ConnectingExtremes(maxRetries, answers, poolSize);
    }

    /** The part of `acquire` under the mutex once the wait is over. */
    method TakeFront() returns (r: Result<Conn>)
      requires Coherent() && Predicate(View())
      modifies this
      ensures Coherent()
      ensures old(shutdown) ==> r == Err(Database) && View() == old(View())
      ensures !old(shutdown) ==> old(idle) != [] && r == Ok(old(idle)[0])
      ensures !old(shutdown) ==> View() == AfterUncount(AfterPop(old(View())))
      ensures !old(shutdown) ==> idle == old(idle)[1..] && !shutdown
    {
      if shutdown {
        return Err(Database);
      }
      var conn := idle[0];
      idle := idle[1..];
      available := available - 1;
      return Ok(conn);
    }

    /** The part of `acquire` after the mutex is released: a stale connection is replaced. The
        pool itself is not touched, so a failed replacement leaves one connection fewer. */
    method Revive(conn: Conn, isOpen: bool, answers: nat -> bool) returns (r: Result<Conn>)
      requires maxRetries < WORD && retryDelay < WORD
      requires isOpen || Ends(maxRetries, answers)
      ensures r == if isOpen then Ok(conn)
        else if Connects(maxRetries, answers) then Ok(conn.(generation := conn.generation + 1))
        else Err(Database)
    {
      if isOpen {
        return Ok(conn);
      }
      var connected, attempts, slept := CreateConnection(maxRetries, retryDelay, answers);
      ReportsWhetherConnects(maxRetries, answers, connected, attempts);
      if connected {
        return Ok(conn.(generation := conn.generation + 1));
      }
      return Err(Database);
    }

    /** `release` up to the notification. A null connection is ignored. */
    method GiveBack(conn: Option<Conn>)
      requires Coherent()
      modifies this
      ensures Coherent()
      ensures View() == if conn.None? then old(View()) else AfterCountUp(AfterPush(old(View()), conn.value))
      ensures idle == old(idle) + if conn.None? then [] else [conn.value]
      ensures shutdown == old(shutdown)
    {
      if conn.None? {
        return;
      }
      idle := idle + [conn.value];
      available := available + 1;
    }

    /** The destructor's two writes, without the notification between them. */
    method Close()
      modifies this
      ensures View() == AfterDrain(old(View()).(shutdown := true))
      ensures shutdown && idle == [] && available == 0
    {
      shutdown := true;
      while idle != []
        invariant shutdown
        decreases |idle|
      {
        idle := idle[1..];
      }
      available := 0;
    }
  }

  class PooledConnection {
    var conn: Option<Conn>
    var pool: Pool?

    function View(): Handle
      reads this
    {
      Handle(conn, pool != null)
    }

    constructor (conn: Option<Conn>, pool: Pool?)
      ensures this.conn == conn && this.pool == pool
    {
      this.conn := conn;
      this.pool := pool;
    }

    /** Move construction: the source is left empty. */
    constructor MoveFrom(other: PooledConnection)
      modifies other
      ensures View() == old(other.View()) && pool == old(other.pool)
      ensures other.conn == None && other.pool == null
    {
      conn := other.conn;
      pool := other.pool;
      new;
      other.conn := None;
      other.pool := null;
    }

    /** Also what the destructor does: a handle with an open connection and a pool gives the
        connection to the back of the queue and is empty; one with a closed connection is cut off
        from its pool; any other is left alone. */
    method Release(isOpen: bool)
      requires pool != null ==> pool.Coherent()
      modifies this, pool
      ensures View() == Released(old(View()), isOpen)
      ensures old(conn.Some? && pool != null) && isOpen ==> conn == None && pool == null
      ensures old(conn.Some? && pool != null) && !isOpen ==> conn == old(conn) && pool == null
      ensures !old(conn.Some? && pool != null) ==> conn == old(conn) && pool == old(pool)
      ensures old(conn.Some? && pool != null) && isOpen ==> old(pool).idle == old(pool.idle) + [old(conn).value]
      ensures old(pool) != null ==> old(pool).Coherent()
      ensures old(pool) != null ==> old(pool).idle == old(pool.idle) + Returned(old(View()), isOpen)
      ensures old(pool) != null ==> old(pool).shutdown == old(pool.shutdown)
    {
      if conn.Some? && pool != null {
        if isOpen {
          pool.GiveBack(conn);
          conn := None;
        }
        pool := null;
      }
    }

    /** Move assignment: the old connection goes back to its pool, the other handle's connection
        comes here; assigning a handle to itself does nothing. */
    method MoveAssign(other: PooledConnection, isOpen: bool)
      requires pool != null ==> pool.Coherent()
      modifies this, other, pool
      ensures this == other ==> View() == old(View()) && pool == old(pool)
      ensures this != other ==> View() == old(other.View()) && pool == old(other.pool)
      ensures this != other ==> other.conn == None && other.pool == null
      ensures old(pool) != null ==> old(pool).Coherent()
      ensures old(pool) != null ==>
        old(pool).idle == old(pool.idle) + if this == other then [] else Returned(old(View()), isOpen)
      ensures old(pool) != null ==> old(pool).shutdown == old(pool.shutdown)
    {
      if this != other {
        Release(isOpen);
        conn := other.conn;
        pool := other.pool;
        other.conn := None;
        other.pool := null;
      }
    }
  }
}
