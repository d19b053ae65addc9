/** The connection pool as a state machine of atomic steps, taken by any number of threads. */
module PoolProtocol {
  import opened Basics

  /** What a SqlConn object holds; `ptr` is the open connection, known by the id it was opened with. */
  datatype Handle = Handle(id: int, ptr: Option<int>, pooled: bool)

  /** What a move leaves behind. */
  function MovedFrom(h: Handle): Handle { Handle(h.id, None, false) }

  datatype Pool = Pool(idle: set<int>, used: set<int>, connections: map<int, Handle>, nextId: int,
                       size: nat, maxRetry: nat)
  {
    function Total(): nat { |idle| + |used| }

    /** Condition of the retry loop before its wait number `i`. */
    predicate MustWait(i: nat) { i < maxRetry && idle == {} && Total() == size }
  }

  // ---------------------------------------------------------------- getConn and releaseConn

  /** How getConn ends; opening a connection and testing it are up to the database. */
  datatype Pick = Reuse(id: int) | Connect | ConnectFailed | ConnTestFailed | Exhausted

  predicate PickAllowed(p: Pool, pick: Pick) {
    match pick
    case Reuse(id) => id in p.idle
    case Exhausted => p.idle == {} && p.Total() >= p.size
    case _ => p.idle == {} && p.Total() < p.size
  }

  /** getConn behind its retry loop: the pool afterwards, and the handle it returns. */
  function Take(p: Pool, pick: Pick): (Pool, Handle)
    requires PickAllowed(p, pick) && p.idle <= p.connections.Keys
  {
    match pick
    case Reuse(id) =>
      (p.(idle := p.idle - {id}, connections := p.connections - {id}, used := p.used + {id}), p.connections[id])
    case Connect =>
      (p.(used := p.used + {p.nextId}, nextId := p.nextId + 1), Handle(p.nextId, Some(p.nextId), true))
    case ConnTestFailed => // an open handle the pool does not count
      (p.(nextId := p.nextId + 1), Handle(p.nextId, Some(p.nextId), true))
    case ConnectFailed => (p.(nextId := p.nextId + 1), Handle(p.nextId, None, false))
    case Exhausted => (p.(nextId := p.nextId + 1), Handle(p.nextId, None, false))
  }

  /** close: releaseConn when there is a pool; it takes back only what it counts as used. */
  function Release(p: Pool, h: Handle): (Pool, Handle) {
    if h.pooled && h.id in p.used then
      (p.(connections := p.connections[h.id := h], used := p.used - {h.id}, idle := p.idle + {h.id}), MovedFrom(h))
    else
      (p, h)
  }

  // ---------------------------------------------------------------- all threads together

  /**
   `held` are the handles clients hold, by variable; `waiting` the threads inside the retry loop with
   the number of their wait; `lost` the ids whose handle was destroyed without being closed.
   */
  datatype System = System(pool: Pool, held: map<nat, Handle>, waiting: map<nat, nat>, lost: set<int>)

  datatype Action =
    | GetConn(thread: nat, slot: nat, pick: Pick)      // without a wait, or after the last one
    | Wait(thread: nat)                                // drops the lock
    | Close(slot: nat)
    | MoveTo(src: nat, dst: nat)                       // move constructor or move assignment
    | Destroy(slot: nat)
    | OpenOther(slot: nat, ok: bool)                   // a connection outside the pool

  /** The wait a thread would make next. */
  function Round(s: System, thread: nat): nat {
    if thread in s.waiting then s.waiting[thread] + 1 else 0
  }

  predicate Enabled(s: System, a: Action) {
    match a
    case GetConn(t, slot, pick) =>
      slot !in s.held && !s.pool.MustWait(Round(s, t)) && PickAllowed(s.pool, pick)
      && s.pool.idle <= s.pool.connections.Keys
    case Wait(t) => s.pool.MustWait(Round(s, t))
    case Close(slot) => slot in s.held
    case MoveTo(src, _) => src in s.held
    case Destroy(slot) => slot in s.held
    case OpenOther(slot, _) => slot !in s.held
  }

  /** Ids that are lost when the handle in a variable is overwritten or destroyed. */
  function LostWith(s: System, slot: nat): set<int> {
    if slot in s.held && s.held[slot].ptr.Some? && s.held[slot].id in s.pool.used then {s.held[slot].id} else {}
  }

  function Step(s: System, a: Action): System
    requires Enabled(s, a)
  {
    match a
    case GetConn(t, slot, pick) =>
      var (p, h) := Take(s.pool, pick);
      s.(pool := p, held := s.held[slot := h], waiting := s.waiting - {t})
    case Wait(t) =>
      s.(waiting := s.waiting[t := Round(s, t)])
    case Close(slot) =>
      var (p, h) := Release(s.pool, s.held[slot]);
      s.(pool := p, held := s.held[slot := h])
    case MoveTo(src, dst) =>
      if src == dst then s else
        s.(held := s.held[dst := s.held[src]][src := MovedFrom(s.held[src])], lost := s.lost + LostWith(s, dst))
    case Destroy(slot) =>
      s.(held := s.held - {slot}, lost := s.lost + LostWith(s, slot))
    case OpenOther(slot, ok) =>
      s.(pool := s.pool.(nextId := s.pool.nextId + 1),
         held := s.held[slot := Handle(s.pool.nextId, if ok then Some(s.pool.nextId) else None, false)])
  }

  // ---------------------------------------------------------------- invariants

  predicate PoolInv(p: Pool) {
    && p.idle !! p.used
    && p.connections.Keys == p.idle
    && (forall id | id in p.idle :: id < p.nextId)
    && (forall id | id in p.used :: id < p.nextId)
    && (forall id | id in p.idle :: p.connections[id] == Handle(id, Some(id), true))
    && p.Total() <= p.size
  }

  /** An open handle holds the connection of its own id, which is neither in the pool nor given up. */
  ghost predicate HandleInv(s: System, slot: nat)
    requires slot in s.held
  {
    var h := s.held[slot];
    && (h.pooled ==> h.ptr.Some?)
    && (h.ptr.Some? ==> h.ptr == Some(h.id) && h.id < s.pool.nextId && h.id !in s.pool.idle && h.id !in s.lost)
  }

  /** No connection is open in two handles. */
  ghost predicate Exclusive(s: System) {
    forall x, y | x in s.held && y in s.held && x != y && s.held[x].ptr.Some? && s.held[y].ptr.Some? ::
      s.held[x].id != s.held[y].id
  }

  ghost predicate HeldBySomeone(s: System, id: int) {
    exists slot | slot in s.held :: s.held[slot] == Handle(id, Some(id), true)
  }

  /** Every id in use is held through exactly one open handle, or lost; an open one outside the pool is not in use. */
  ghost predicate Accounted(s: System) {
    && s.lost <= s.pool.used
    && (forall id :: id in s.pool.used && id !in s.lost ==> HeldBySomeone(s, id))
    && (forall slot | slot in s.held && s.held[slot].ptr.Some? && s.held[slot].id in s.pool.used ::
          s.held[slot].pooled)
  }

  ghost predicate WaitInv(s: System) {
    forall t | t in s.waiting :: s.waiting[t] < s.pool.maxRetry
  }

  ghost predicate Inv(s: System) {
    PoolInv(s.pool) && HandlesInv(s)
    && Exclusive(s) && Accounted(s) && WaitInv(s)
  }

  ghost predicate Init(s: System) {
    s.pool.idle == {} && s.pool.used == {} && s.pool.connections == map[]
    && s.held == map[] && s.waiting == map[] && s.lost == {}
  }

  lemma InitInv(s: System)
    requires Init(s)
    ensures Inv(s)
  {
  }

  lemma TakeInv(p: Pool, pick: Pick)
    requires PoolInv(p) && PickAllowed(p, pick)
    ensures var (p', h) := Take(p, pick);
      && PoolInv(p')
      && p'.size == p.size && p'.maxRetry == p.maxRetry
      && p.used <= p'.used && p.nextId <= p'.nextId && p'.idle <= p.idle
      && (h.pooled <==> h.ptr.Some?)
      && (h.ptr.Some? ==> h.ptr == Some(h.id) && h.id < p'.nextId && h.id !in p'.idle && h.id !in p.used
                          && (h.id in p.idle || h.id == p.nextId))
      && (forall id :: id in p'.used && id !in p.used ==> h == Handle(id, Some(id), true))
  {
    match pick
    case Reuse(id) => MoveOne(p.idle, p.used, id);
    case _ =>
  }

  /** Moving an element from one set to a disjoint one keeps the number of elements. */
  lemma MoveOne(a: set<int>, b: set<int>, x: int)
    requires a !! b && x in a
    ensures |a - {x}| + |b + {x}| == |a| + |b|
    ensures (a - {x}) !! (b + {x})
  {
  }

  // Only the pool counts what it has; the other parts of the invariant look at sets alone.
  ghost predicate HandlesInv(s: System) {
    forall slot | slot in s.held :: HandleInv(s, slot)
  }

  lemma GetConnHandles(s: System, s': System, slot: nat)
    requires HandlesInv(s) && Exclusive(s) && Accounted(s) && slot !in s.held && slot in s'.held
    requires s'.held == s.held[slot := s'.held[slot]] && s'.lost == s.lost
    requires var h, p, p' := s'.held[slot], s.pool, s'.pool;
      && p.used <= p'.used && p.nextId <= p'.nextId && p'.idle <= p.idle
      && (h.pooled <==> h.ptr.Some?)
      && (h.ptr.Some? ==> h.ptr == Some(h.id) && h.id < p'.nextId && h.id !in p'.idle && h.id !in p.used
                          && (h.id in p.idle || h.id == p.nextId))
      && (forall id :: id in p'.used && id !in p.used ==> h == Handle(id, Some(id), true))
    ensures HandlesInv(s') && Exclusive(s') && Accounted(s')
  {
    var h := s'.held[slot];
    forall x | x in s'.held ensures HandleInv(s', x) {
      if x != slot { assert HandleInv(s, x); }
    }
    forall x | x in s.held && s.held[x].ptr.Some? && h.ptr.Some? ensures s.held[x].id != h.id {
      assert HandleInv(s, x);
    }
    forall id | id in s'.pool.used && id !in s'.lost ensures HeldBySomeone(s', id) {
      if id in s.pool.used { StillHeld(s, s', id, slot); } else { assert s'.held[slot] == Handle(id, Some(id), true); }
    }
  }

  /** An id stays held when no handle but that of another id has changed. */
  lemma StillHeld(s: System, s': System, id: int, changed: nat)
    requires HeldBySomeone(s, id)
    requires forall x | x in s.held && x != changed :: x in s'.held && s'.held[x] == s.held[x]
    requires changed in s.held ==> s.held[changed] != Handle(id, Some(id), true)
    ensures HeldBySomeone(s', id)
  {
    var x :| x in s.held && s.held[x] == Handle(id, Some(id), true);
    assert s'.held[x] == Handle(id, Some(id), true);
  }

  lemma GetConnStep(s: System, a: Action)
    requires Inv(s) && a.GetConn? && Enabled(s, a)
    ensures Inv(Step(s, a))
  {
    TakeInv(s.pool, a.pick);
    GetConnHandles(s, Step(s, a), a.slot);
  }

  lemma ReleasePoolInv(p: Pool, h: Handle)
    requires PoolInv(p) && h == Handle(h.id, Some(h.id), true) && h.id in p.used
    ensures PoolInv(Release(p, h).0)
    ensures Release(p, h).0.Total() == p.Total()
  {
    MoveOne(p.used, p.idle, h.id);
  }

  lemma CloseHandles(s: System, s': System, slot: nat)
    requires HandlesInv(s) && Exclusive(s) && Accounted(s) && slot in s.held
    requires s.held[slot].pooled && s.held[slot].id in s.pool.used
    requires s' == s.(pool := Release(s.pool, s.held[slot]).0, held := s.held[slot := MovedFrom(s.held[slot])])
    ensures HandlesInv(s') && Exclusive(s') && Accounted(s')
  {
    assert HandleInv(s, slot);
    forall x | x in s'.held ensures HandleInv(s', x) { assert HandleInv(s, x); }
    forall id | id in s'.pool.used && id !in s'.lost ensures HeldBySomeone(s', id) { StillHeld(s, s', id, slot); }
  }

  lemma CloseStep(s: System, a: Action)
    requires Inv(s) && a.Close? && Enabled(s, a)
    ensures Inv(Step(s, a))
  {
    var h := s.held[a.slot];
    assert HandleInv(s, a.slot);
    if h.pooled && h.id in s.pool.used {
      ReleasePoolInv(s.pool, h);
      CloseHandles(s, Step(s, a), a.slot);
    } else {
      assert s.held[a.slot := h] == s.held;
    }
  }

  lemma DestroyStep(s: System, a: Action)
    requires Inv(s) && a.Destroy? && Enabled(s, a)
    ensures Inv(Step(s, a))
  {
    var s' := Step(s, a);
    assert HandleInv(s, a.slot);
    forall x | x in s'.held ensures HandleInv(s', x) { LostElsewhere(s, x, a.slot); }
    forall id | id in s'.pool.used && id !in s'.lost ensures HeldBySomeone(s', id) { StillHeld(s, s', id, a.slot); }
  }

  /** What is lost with one handle is not what another one holds. */
  lemma LostElsewhere(s: System, x: nat, slot: nat)
    requires HandlesInv(s) && Exclusive(s) && x in s.held && x != slot
    ensures HandleInv(s, x)
    ensures s.held[x].ptr.Some? ==> s.held[x].id !in s.lost + LostWith(s, slot)
  {
    assert HandleInv(s, x);
  }

  lemma MoveStep(s: System, a: Action)
    requires Inv(s) && a.MoveTo? && Enabled(s, a)
    ensures Inv(Step(s, a))
  {
    if a.src != a.dst { MoveHandles(s, Step(s, a), a.src, a.dst); }
  }

  lemma MoveHandles(s: System, s': System, src: nat, dst: nat)
    requires HandlesInv(s) && Exclusive(s) && Accounted(s) && src in s.held && src != dst
    requires s' == s.(held := s.held[dst := s.held[src]][src := MovedFrom(s.held[src])],
                      lost := s.lost + LostWith(s, dst))
    ensures HandlesInv(s') && Exclusive(s') && Accounted(s')
  {
    LostElsewhere(s, src, dst);
    forall x | x in s'.held ensures HandleInv(s', x) {
      if x != src && x != dst { LostElsewhere(s, x, dst); }
    }
    if dst in s.held { assert HandleInv(s, dst); }
    forall id | id in s'.pool.used && id !in s'.lost ensures HeldBySomeone(s', id) {
      var x :| x in s.held && s.held[x] == Handle(id, Some(id), true);
      assert s'.held[if x == src then dst else x] == Handle(id, Some(id), true);
    }
  }

  lemma OpenOtherStep(s: System, a: Action)
    requires Inv(s) && a.OpenOther? && Enabled(s, a)
    ensures Inv(Step(s, a))
  {
    var s' := Step(s, a);
    forall x | x in s'.held ensures HandleInv(s', x) {
      if x != a.slot { assert HandleInv(s, x); }
    }
    forall x | x in s.held && s.held[x].ptr.Some? ensures s.held[x].id != s.pool.nextId {
      assert HandleInv(s, x);
    }
    forall id | id in s'.pool.used && id !in s'.lost ensures HeldBySomeone(s', id) { StillHeld(s, s', id, a.slot); }
  }

  /** Every step of every thread keeps the invariant. */
  lemma StepInv(s: System, a: Action)
    requires Inv(s) && Enabled(s, a)
    ensures Inv(Step(s, a))
  {
    match a
    case GetConn(_, _, _) => GetConnStep(s, a);
    case Wait(_) =>
    case Close(_) => CloseStep(s, a);
    case MoveTo(_, _) => MoveStep(s, a);
    case Destroy(_) => DestroyStep(s, a);
    case OpenOther(_, _) => OpenOtherStep(s, a);
  }

  // ---------------------------------------------------------------- runs

  /** An interleaving: each action is possible when its turn comes. */
  predicate Legal(s: System, run: seq<Action>)
    decreases |run|
  {
    run == [] || (Enabled(s, run[0]) && Legal(Step(s, run[0]), run[1..]))
  }

  function After(s: System, run: seq<Action>): System
    requires Legal(s, run)
    decreases |run|
  {
    if run == [] then s else After(Step(s, run[0]), run[1..])
  }

  lemma RunOfOne(s: System, a: Action)
    requires Enabled(s, a)
    ensures Legal(s, [a]) && After(s, [a]) == Step(s, a)
  {
    assert [a][0] == a && [a][1..] == [];
    assert Legal(Step(s, a), []) && After(Step(s, a), []) == Step(s, a);
  }

  lemma {:induction false} RunInv(s: System, run: seq<Action>)
    requires Inv(s) && Legal(s, run)
    ensures Inv(After(s, run))
    decreases |run|
  {
    if run != [] {
      StepInv(s, run[0]);
      RunInv(Step(s, run[0]), run[1..]);
    }
  }

  /** Safety over all interleavings from an empty pool. */
  lemma PoolSafety(s: System, run: seq<Action>)
    requires Init(s) && Legal(s, run)
    ensures var e := After(s, run);
      && e.pool.idle !! e.pool.used && e.pool.connections.Keys == e.pool.idle
      && (forall id :: id in e.pool.idle || id in e.pool.used ==> id < e.pool.nextId)
      && |e.pool.idle| + |e.pool.used| <= e.pool.size
      && Exclusive(e)
      && (forall slot | slot in e.held && e.held[slot].ptr.Some? :: e.held[slot].id !in e.pool.idle)
  {
    InitInv(s);
    RunInv(s, run);
    var e := After(s, run);
    forall slot | slot in e.held && e.held[slot].ptr.Some? ensures e.held[slot].id !in e.pool.idle {
      assert HandleInv(e, slot);
    }
  }

  /** getConn gives up only when no connection is idle and all the pool may have are in use. */
  lemma ExhaustedOnlyWhenFull(s: System, a: Action)
    requires Inv(s) && a.GetConn? && Enabled(s, a) && a.pick.Exhausted?
    ensures s.pool.idle == {} && |s.pool.used| == s.pool.size
    ensures Round(s, a.thread) >= s.pool.maxRetry
  {
  }

  /** A thread waits at most maxRetry times: each wait has a higher number, and the number is bounded. */
  lemma WaitsBounded(s: System, t: nat)
    requires Inv(s) && Enabled(s, Wait(t))
    ensures var s' := Step(s, Wait(t));
      t in s'.waiting && s'.waiting[t] == Round(s, t) < s.pool.maxRetry && Round(s', t) == Round(s, t) + 1
  {
  }

  /** A second close changes nothing. */
  lemma CloseTwice(s: System, slot: nat)
    requires slot in s.held
    ensures Enabled(Step(s, Close(slot)), Close(slot))
    ensures Step(Step(s, Close(slot)), Close(slot)) == Step(s, Close(slot))
  {
    var s' := Step(s, Close(slot));
    assert s'.held[slot := s'.held[slot]] == s'.held;
  }

  /** Closing a handle that the pool counts makes its connection available to the next getConn. */
  lemma CloseMakesIdle(s: System, slot: nat)
    requires Inv(s) && slot in s.held && s.held[slot].pooled && s.held[slot].id in s.pool.used
    ensures var s' := Step(s, Close(slot));
      && PickAllowed(s'.pool, Reuse(s.held[slot].id))
      && Take(s'.pool, Reuse(s.held[slot].id)).1 == s.held[slot]
      && !s'.held[slot].pooled && s'.held[slot].ptr == None
      && s'.pool.Total() == s.pool.Total()
  {
    assert HandleInv(s, slot);
    ReleasePoolInv(s.pool, s.held[slot]);
  }

  // ---------------------------------------------------------------- lost connections

  /** What is lost stays lost and keeps its place among the connections in use. */
  lemma {:induction false} LostForever(s: System, run: seq<Action>)
    requires Inv(s) && Legal(s, run)
    ensures s.lost <= After(s, run).lost <= After(s, run).pool.used
    ensures After(s, run).pool.size == s.pool.size
    decreases |run|
  {
    RunInv(s, run);
    if run != [] {
      StepInv(s, run[0]);
      LostForever(Step(s, run[0]), run[1..]);
    }
  }

  /** Once as many handles have been dropped as the pool may have connections, every later getConn is refused. */
  lemma AllLost(s: System, run: seq<Action>, a: Action)
    requires Inv(s) && Legal(s, run) && |s.lost| >= s.pool.size
    requires a.GetConn? && Enabled(After(s, run), a)
    ensures a.pick.Exhausted?
  {
    LostForever(s, run);
    RunInv(s, run);
    var e := After(s, run);
    SubsetSize(s.lost, e.pool.used);
  }

  lemma SubsetSize(a: set<int>, b: set<int>)
    requires a <= b
    ensures |a| <= |b|
  {
    var rest := b - a;
    assert b == a + rest;
  }

  lemma SomeMember(s: set<int>)
    requires s != {}
    ensures exists x :: x in s
  {
    if forall x :: x !in s { assert false; }
  }

  /** An id in use that is not lost can be given back by the client that holds its handle. */
  lemma SomeUsedHeld(s: System) returns (slot: nat)
    requires Inv(s) && |s.lost| < |s.pool.used|
    ensures slot in s.held && s.held[slot].pooled && s.held[slot].id in s.pool.used
  {
    if forall id | id in s.pool.used :: id in s.lost {
      SubsetSize(s.pool.used, s.lost);
      assert false;
    }
    var id :| id in s.pool.used && id !in s.lost;
    assert HeldBySomeone(s, id);
    slot :| slot in s.held && s.held[slot] == Handle(id, Some(id), true);
  }

  /** A getConn that is not refused can follow at once, or after one handle has been closed. */
  ghost predicate CanServe(s: System, thread: nat, slot: nat) {
    exists run: seq<Action>, pick: Pick ::
      |run| <= 1 && (forall i | 0 <= i < |run| :: run[i].Close?) && Legal(s, run)
      && !pick.Exhausted? && Enabled(After(s, run), GetConn(thread, slot, pick))
  }

  lemma ServeIdle(s: System, thread: nat, slot: nat)
    requires Inv(s) && slot !in s.held && (s.pool.idle != {} || s.pool.Total() < s.pool.size)
    ensures exists pick: Pick :: !pick.Exhausted? && Enabled(s, GetConn(thread, slot, pick))
  {
    if s.pool.idle != {} {
      SomeMember(s.pool.idle);
      var id :| id in s.pool.idle;
      assert Enabled(s, GetConn(thread, slot, Reuse(id)));
    } else {
      assert Enabled(s, GetConn(thread, slot, Connect));
    }
  }

  lemma ServeAfterClose(s: System, thread: nat, slot: nat)
    requires Inv(s) && slot !in s.held && s.pool.idle == {} && |s.lost| < |s.pool.used|
    ensures CanServe(s, thread, slot)
  {
    var other := SomeUsedHeld(s);
    var pick := ClosedServes(s, other, thread, slot);
    RunOfOne(s, Close(other));
    var run := [Close(other)];
    assert Legal(s, run) && Enabled(After(s, run), GetConn(thread, slot, pick));
  }

  lemma ClosedServes(s: System, other: nat, thread: nat, slot: nat) returns (pick: Pick)
    requires Inv(s) && slot !in s.held && other in s.held && s.held[other].pooled && s.held[other].id in s.pool.used
    ensures !pick.Exhausted? && Enabled(Step(s, Close(other)), GetConn(thread, slot, pick))
  {
    CloseMakesIdle(s, other);
    StepInv(s, Close(other));
    pick := Reuse(s.held[other].id);
  }

  /**
   The pool can still serve a request, if need be after a client has closed its handle, exactly as long as
   not all of its places have been lost to handles that were dropped.
   */
  lemma ServesUnlessLost(s: System, thread: nat, slot: nat)
    requires Inv(s) && slot !in s.held
    ensures CanServe(s, thread, slot) <==> |s.lost| < s.pool.size
  {
    if |s.lost| >= s.pool.size {
      forall run, pick | Legal(s, run) && Enabled(After(s, run), GetConn(thread, slot, pick)) ensures pick.Exhausted? {
        AllLost(s, run, GetConn(thread, slot, pick));
      }
    } else if s.pool.idle != {} || s.pool.Total() < s.pool.size {
      ServeIdle(s, thread, slot);
      var pick: Pick :| !pick.Exhausted? && Enabled(s, GetConn(thread, slot, pick));
      assert Legal(s, []) && After(s, []) == s;
    } else {
      ServeAfterClose(s, thread, slot);
    }
  }

  /** A pool of one place, whose only connection is opened and then dropped; another thread waits once. */
  const ONE_PLACE := System(Pool({}, {}, map[], 1, 1, 1), map[], map[], {})

  const DROPPED := [GetConn(0, 0, Connect), Destroy(0), Wait(1)]

  lemma DroppedExample(run: seq<Action>, a: Action)
    ensures Init(ONE_PLACE) && Legal(ONE_PLACE, DROPPED) && After(ONE_PLACE, DROPPED).lost == {1}
    ensures Enabled(After(ONE_PLACE, DROPPED), GetConn(1, 0, Exhausted))
    ensures a.GetConn? && Legal(After(ONE_PLACE, DROPPED), run) && Enabled(After(After(ONE_PLACE, DROPPED), run), a) ==>
      a.pick.Exhausted?
  {
    var s := Step(ONE_PLACE, DROPPED[0]);
    assert DROPPED[1..] == [Destroy(0), Wait(1)] && DROPPED[1..][1..] == [Wait(1)] && [Wait(1)][1..] == [];
    assert s.held[0] == Handle(1, Some(1), true) && s.pool.used == {1};
    var e := After(ONE_PLACE, DROPPED);
    assert e == Step(Step(s, Destroy(0)), Wait(1));
    InitInv(ONE_PLACE);
    RunInv(ONE_PLACE, DROPPED);
    if a.GetConn? && Legal(e, run) && Enabled(After(e, run), a) { AllLost(e, run, a); }
  }

  /** When every handle is closed and none was dropped, no connection is in use. */
  lemma AllClosed(s: System)
    requires Inv(s) && s.lost == {} && forall slot | slot in s.held :: !s.held[slot].pooled
    ensures s.pool.used == {}
  {
    forall id ensures id !in s.pool.used {
      if id in s.pool.used { NotHeld(s, id); }
    }
    assert s.pool.used == {};
  }

  lemma NotHeld(s: System, id: int)
    requires forall slot | slot in s.held :: !s.held[slot].pooled
    ensures !HeldBySomeone(s, id)
  {
  }
}
