/** The classes behind the pool protocol, whose methods take the protocol's steps. */
module ConnectionPools {
  import opened Basics
  import opened PoolProtocol

  /** SqlConn: a handle in a variable. */
  class SqlConn {
    var id: int
    var ptr: Option<int>
    var pooled: bool

    constructor (h: Handle)
      ensures Value() == h
    {
      id, ptr, pooled := h.id, h.ptr, h.pooled;
    }

    function Value(): Handle
      reads this
    {
      Handle(id, ptr, pooled)
    }

    /** The move constructor: takes the connection and leaves the source without pool. */
    constructor Moved(conn: SqlConn)
      modifies conn
      ensures Value() == old(conn.Value())
      ensures conn.Value() == PoolProtocol.MovedFrom(old(conn.Value()))
    {
      id, ptr, pooled := conn.id, conn.ptr, conn.pooled;
      new;
      conn.ptr := None;
      conn.pooled := false;
    }

    /** Move assignment; assigning an object to itself changes nothing. */
    method Assign(conn: SqlConn)
      modifies this, conn
      ensures conn == this ==> Value() == old(Value())
      ensures conn != this ==> Value() == old(conn.Value()) && conn.Value() == PoolProtocol.MovedFrom(old(conn.Value()))
    {
      if this == conn { return; }
      id := conn.id;
      ptr := conn.ptr;
      conn.ptr := None;
      pooled := conn.pooled;
      conn.pooled := false;
    }

    /** close: gives the connection back when the handle still belongs to a pool. */
    method Close(pool: ConnectionPool)
      modifies this, pool
      ensures (pool.State(), Value()) == Release(old(pool.State()), old(Value()))
    {
      if pooled {
        pool.ReleaseConn(this);
      }
    }
  }

  class ConnectionPool {
    var idleConnections: set<int>
    var usedConnections: set<int>
    var connections: map<int, Handle>
    var globalId: int // the counter of SqlConn
    const poolSize: nat
    const maxRetry: nat

    constructor (size: nat, retries: nat)
      ensures State() == Pool({}, {}, map[], 1, size, retries) && PoolInv(State())
    {
      idleConnections, usedConnections, connections, globalId := {}, {}, map[], 1;
      poolSize, maxRetry := size, retries;
    }

    function State(): Pool
      reads this
    {
      Pool(idleConnections, usedConnections, connections, globalId, poolSize, maxRetry)
    }

    /** The constructor of SqlConn takes the next number. */
    method NewHandle(open: bool) returns (conn: SqlConn)
      modifies this`globalId
      ensures fresh(conn) && globalId == old(globalId) + 1
      ensures conn.Value() == if open then Handle(old(globalId), Some(old(globalId)), true)
                              else Handle(old(globalId), None, false)
    {
      conn := new SqlConn(Handle(globalId, if open then Some(globalId) else None, open));
      globalId := globalId + 1;
    }

    /** wait_for: the lock is dropped, and other threads leave the pool in any state that keeps its invariant. */
    method WaitFor()
      requires PoolInv(State())
      modifies this
      ensures PoolInv(State())
    {
      var later: Pool := *;
      if PoolInv(later) && later.size == poolSize && later.maxRetry == maxRetry {
        idleConnections, usedConnections := later.idle, later.used;
        connections, globalId := later.connections, later.nextId;
      }
    }

    /**
     getConn. `waited` is the pool at each wait and `seen` the one when the lock was taken for the last
     time; the result is the protocol's for one of the picks that this state allows.
     */
    method GetConn(testOnBorrow: bool)
      returns (conn: SqlConn, ghost seen: Pool, ghost pick: Pick, ghost waited: seq<Pool>)
      requires PoolInv(State())
      modifies this
      ensures Waits(waited) && (waited + [seen])[0] == old(State())
      ensures PoolInv(seen) && seen.size == poolSize && seen.maxRetry == maxRetry
      ensures !seen.MustWait(|waited|)
      ensures PickAllowed(seen, pick) && (State(), conn.Value()) == Take(seen, pick)
      ensures PoolInv(State()) && fresh(conn)
      ensures pick.ConnTestFailed? ==> testOnBorrow
    {
      var total;
      total, waited := AwaitTurn();
      seen := State();
      if idleConnections != {} {
        conn, pick := BorrowIdle();
      } else if total < poolSize {
        conn, pick := OpenNew(testOnBorrow);
      } else {
        pick := Exhausted;
        TakeInv(seen, pick);
        conn := NewHandle(false);
      }
    }

    /** The retry loop. */
    method AwaitTurn() returns (total: nat, ghost waited: seq<Pool>)
      requires PoolInv(State())
      modifies this
      ensures Waits(waited) && (waited + [State()])[0] == old(State())
      ensures PoolInv(State()) && total == State().Total() && !State().MustWait(|waited|)
    {
      total := |idleConnections| + |usedConnections|;
      waited := [];
      var i := 0;
      while i < maxRetry && idleConnections == {} && total == poolSize
        invariant i == |waited| <= maxRetry && PoolInv(State())
        invariant total == State().Total()
        invariant Waits(waited) && (waited + [State()])[0] == old(State())
        decreases maxRetry - i
      {
        waited := waited + [State()];
        WaitFor();
        total := |idleConnections| + |usedConnections|;
        i := i + 1;
      }
    }

    method BorrowIdle() returns (conn: SqlConn, ghost pick: Pick)
      requires PoolInv(State()) && idleConnections != {}
      modifies this
      ensures PickAllowed(old(State()), pick) && pick.Reuse?
      ensures (State(), conn.Value()) == Take(old(State()), pick)
      ensures PoolInv(State()) && fresh(conn)
    {
      var idle := idleConnections;
      SomeMember(idle);
      var connId :| connId in idle;
      pick := Reuse(connId);
      TakeInv(State(), pick);
      conn := new SqlConn(connections[connId]);
      idleConnections := idleConnections - {connId};
      connections := connections - {connId};
      usedConnections := usedConnections + {connId};
    }

    method OpenNew(testOnBorrow: bool) returns (conn: SqlConn, ghost pick: Pick)
      requires PoolInv(State()) && idleConnections == {} && State().Total() < poolSize
      modifies this
      ensures PickAllowed(old(State()), pick) && (pick.ConnTestFailed? ==> testOnBorrow)
      ensures (State(), conn.Value()) == Take(old(State()), pick)
      ensures PoolInv(State()) && fresh(conn)
    {
      var connected: bool, passed: bool := *, *;
      pick := if !connected then ConnectFailed else if testOnBorrow && !passed then ConnTestFailed else Connect;
      TakeInv(State(), pick);
      conn := NewHandle(connected);
      if !connected { return; }
      if testOnBorrow && !passed { return; }
      usedConnections := usedConnections + {conn.id};
    }

    /** releaseConn: ignores a connection that is not in use. */
    method ReleaseConn(conn: SqlConn)
      modifies this, conn
      requires conn.pooled
      ensures (State(), conn.Value()) == Release(old(State()), old(conn.Value()))
    {
      if conn.id !in usedConnections { return; }
      connections := connections[conn.id := conn.Value()];
      conn.ptr := None;
      conn.pooled := false;
      usedConnections := usedConnections - {conn.id};
      idleConnections := idleConnections + {conn.id};
    }
  }

  /** The pools that made a thread wait, in order. */
  predicate Waits(waited: seq<Pool>) {
    forall i | 0 <= i < |waited| :: waited[i].MustWait(i)
  }

  // ---------------------------------------------------------------- a call as a part of a run

  function ThreadOf(a: Action): Option<nat> {
    match a
    case GetConn(t, _, _) => Some(t)
    case Wait(t) => Some(t)
    case _ => None
  }

  /** What other threads and clients do while the thread waits. */
  predicate Others(run: seq<Action>, thread: nat) {
    forall i | 0 <= i < |run| :: ThreadOf(run[i]) != Some(thread)
  }

  lemma {:induction false} OthersKeepRound(s: System, run: seq<Action>, thread: nat)
    requires Legal(s, run) && Others(run, thread)
    ensures Round(After(s, run), thread) == Round(s, thread)
    decreases |run|
  {
    if run != [] {
      assert ThreadOf(run[0]) != Some(thread);
      assert forall i | 0 <= i < |run[1..]| :: run[1..][i] == run[i + 1];
      OthersKeepRound(Step(s, run[0]), run[1..], thread);
    }
  }

  function Waiting(s: System, thread: nat): System { s.(waiting := s.waiting[thread := Round(s, thread)]) }

  /**
   The pools that a call has seen are those of the system: at each wait, with the other threads' actions
   behind it, and at the end, where the variable for the result is free.
   */
  predicate Witnessed(s: System, thread: nat, slot: nat, waited: seq<Pool>, others: seq<seq<Action>>, seen: Pool)
    decreases |waited|
  {
    |waited| == |others| &&
    if waited == [] then s.pool == seen && slot !in s.held
    else
      && s.pool == waited[0] && Legal(Waiting(s, thread), others[0]) && Others(others[0], thread)
      && Witnessed(After(Waiting(s, thread), others[0]), thread, slot, waited[1..], others[1..], seen)
  }

  /** The call as the protocol takes it: every wait with what the others do, and the last step. */
  function CallRun(thread: nat, others: seq<seq<Action>>, last: Action): seq<Action> {
    if others == [] then [last] else [Wait(thread)] + others[0] + CallRun(thread, others[1..], last)
  }

  lemma {:induction false} LegalConcat(s: System, a: seq<Action>, b: seq<Action>)
    requires Legal(s, a) && Legal(After(s, a), b)
    ensures Legal(s, a + b) && After(s, a + b) == After(After(s, a), b)
    decreases |a|
  {
    if a == [] {
      assert a + b == b;
    } else {
      assert (a + b)[1..] == a[1..] + b;
      LegalConcat(Step(s, a[0]), a[1..], b);
    }
  }

  /**
   A call of GetConn, with what its contract promises of the pools it has seen, is a legal run of the
   protocol whatever the other threads do in between, and it ends with the same pool and the same handle.
   */
  lemma {:induction false} CallIsRun(s: System, thread: nat, slot: nat, waited: seq<Pool>, others: seq<seq<Action>>,
                                     seen: Pool, pick: Pick)
    requires Inv(s) && Witnessed(s, thread, slot, waited, others, seen)
    requires forall i | 0 <= i < |waited| :: waited[i].MustWait(Round(s, thread) + i)
    requires !seen.MustWait(Round(s, thread) + |waited|) && PickAllowed(seen, pick) && PoolInv(seen)
    ensures var run := CallRun(thread, others, GetConn(thread, slot, pick));
      && Legal(s, run) && slot in After(s, run).held
      && (After(s, run).pool, After(s, run).held[slot]) == Take(seen, pick)
    decreases |waited|
  {
    var last := GetConn(thread, slot, pick);
    if waited == [] {
      RunOfOne(s, last);
    } else {
      assert waited[0].MustWait(Round(s, thread) + 0);
      var later := After(Waiting(s, thread), others[0]);
      WaitKeeps(s, thread, others[0]);
      assert forall i | 0 <= i < |waited[1..]| :: waited[1..][i] == waited[i + 1];
      CallIsRun(later, thread, slot, waited[1..], others[1..], seen, pick);
      WaitFirst(s, thread, others[0], CallRun(thread, others[1..], last));
    }
  }

  /** A wait is a step, and nothing the others do behind it changes its number. */
  lemma WaitKeeps(s: System, thread: nat, others: seq<Action>)
    requires Inv(s) && Enabled(s, Wait(thread)) && Legal(Waiting(s, thread), others) && Others(others, thread)
    ensures Inv(After(Waiting(s, thread), others))
    ensures Round(After(Waiting(s, thread), others), thread) == Round(s, thread) + 1
  {
    StepInv(s, Wait(thread));
    assert Step(s, Wait(thread)) == Waiting(s, thread);
    OthersKeepRound(Waiting(s, thread), others, thread);
    RunInv(Waiting(s, thread), others);
  }

  lemma WaitFirst(s: System, thread: nat, others: seq<Action>, rest: seq<Action>)
    requires Enabled(s, Wait(thread)) && Legal(Waiting(s, thread), others)
    requires Legal(After(Waiting(s, thread), others), rest)
    ensures Legal(s, [Wait(thread)] + others + rest)
    ensures After(s, [Wait(thread)] + others + rest) == After(After(Waiting(s, thread), others), rest)
  {
    LegalConcat(Waiting(s, thread), others, rest);
    assert ([Wait(thread)] + others + rest)[1..] == others + rest;
    assert Step(s, Wait(thread)) == Waiting(s, thread);
  }
}
