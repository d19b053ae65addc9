/** What a client gets from each step of the pool protocol, and what the pool then holds. */
module PoolOutcomes {
  import opened Basics
  import opened PoolProtocol

  /**
   getConn hands out a pooled connection that is open: an idle one whenever there is one, without a new
   number being drawn; otherwise one with the next number, which the pool counts unless its test failed. It
   hands out a closed handle only when no connection is idle, and the database refused or the pool is full.
   */
  lemma GetConnOutcome(s: System, a: Action)
    requires Inv(s) && a.GetConn? && Enabled(s, a)
    ensures var p, p', h := s.pool, Step(s, a).pool, Step(s, a).held[a.slot];
      && (p.idle != {} ==>
            && h.id in p.idle && h == Handle(h.id, Some(h.id), true) && p'.nextId == p.nextId
            && p'.idle == p.idle - {h.id} && p'.used == p.used + {h.id} && p'.connections == p.connections - {h.id})
      && (p.idle == {} ==>
            && h.id == p.nextId && p'.nextId == p.nextId + 1 && p'.idle == {} && p'.connections == p.connections
            && (h.ptr == Some(h.id) || h.ptr == None) && (h.pooled <==> h.ptr.Some?)
            && (a.pick.Connect? ==> h.ptr.Some? && p'.used == p.used + {h.id})
            && (!a.pick.Connect? ==> p'.used == p.used)
            && (a.pick.ConnTestFailed? <==> h.ptr.Some? && !a.pick.Connect?))
      && (|p.used| == p.size && p.idle == {} ==> a.pick.Exhausted? && h.ptr == None)
      && (|p.used| < p.size && p.idle == {} ==> !a.pick.Exhausted?)
  {
    assert s.pool.connections.Keys == s.pool.idle;
  }

  /** A thread has to wait only when nothing is idle and the pool is full, and not more than maxRetry times. */
  lemma WaitOnlyWhenFull(s: System, t: nat)
    requires Inv(s)
    ensures Enabled(s, Wait(t)) <==>
            s.pool.idle == {} && |s.pool.used| == s.pool.size && Round(s, t) < s.pool.maxRetry
    ensures Enabled(s, Wait(t)) ==> Step(s, Wait(t)).pool == s.pool && Step(s, Wait(t)).held == s.held
  {
  }

  /** A thread can always go on: it waits, or it gets an answer. */
  lemma NeverStuck(s: System, t: nat, slot: nat) returns (pick: Pick)
    requires Inv(s) && slot !in s.held && !Enabled(s, Wait(t))
    ensures Enabled(s, GetConn(t, slot, pick))
  {
    if s.pool.idle != {} {
      SomeMember(s.pool.idle);
      var id :| id in s.pool.idle;
      pick := Reuse(id);
    } else {
      pick := if s.pool.Total() < s.pool.size then Connect else Exhausted;
    }
  }

  /** close gives a counted connection back, and leaves everything as it is in every other case. */
  lemma CloseOutcome(s: System, slot: nat)
    requires Inv(s) && slot in s.held
    ensures var h, s' := s.held[slot], Step(s, Close(slot));
      && (h.pooled && h.id in s.pool.used ==>
            && s'.pool.idle == s.pool.idle + {h.id} && s'.pool.used == s.pool.used - {h.id}
            && s'.pool.connections == s.pool.connections[h.id := h] && s'.pool.nextId == s.pool.nextId
            && s'.held == s.held[slot := Handle(h.id, None, false)] && s'.lost == s.lost)
      && (!h.pooled || h.id !in s.pool.used ==> s' == s)
  {
    assert s.held[slot := s.held[slot]] == s.held;
  }

  /** A move hands everything over and leaves a closed handle; what the target held before is lost if it counted. */
  lemma MoveOutcome(s: System, src: nat, dst: nat)
    requires Inv(s) && src in s.held && src != dst
    ensures var s' := Step(s, MoveTo(src, dst));
      && s'.held[dst] == s.held[src] && s'.held[src] == Handle(s.held[src].id, None, false) && s'.pool == s.pool
      && (forall x | x != src && x != dst ::
            (x in s'.held <==> x in s.held) && (x in s.held ==> s'.held[x] == s.held[x]))
      && forall id :: id in s'.lost <==>
           id in s.lost || (dst in s.held && s.held[dst] == Handle(id, Some(id), true) && id in s.pool.used)
  {
    if dst in s.held {
      assert HandleInv(s, dst);
      if s.held[dst].ptr.Some? && s.held[dst].id in s.pool.used { assert s.held[dst].pooled; }
    }
  }

  /** The same for a handle that goes out of scope. */
  lemma DestroyOutcome(s: System, slot: nat)
    requires Inv(s) && slot in s.held
    ensures var s' := Step(s, Destroy(slot));
      && s'.held == s.held - {slot} && s'.pool == s.pool
      && forall id :: id in s'.lost <==>
           id in s.lost || (s.held[slot] == Handle(id, Some(id), true) && id in s.pool.used)
  {
    assert HandleInv(s, slot);
    if s.held[slot].ptr.Some? && s.held[slot].id in s.pool.used { assert s.held[slot].pooled; }
  }

  /** After a close, the next getConn of any thread takes an idle connection and opens none. */
  lemma CloseThenReuse(s: System, slot: nat, a: Action)
    requires Inv(s) && slot in s.held && s.held[slot].pooled && s.held[slot].id in s.pool.used
    requires a.GetConn? && Enabled(Step(s, Close(slot)), a)
    ensures a.pick.Reuse? && Step(Step(s, Close(slot)), a).pool.nextId == s.pool.nextId
  {
    CloseMakesIdle(s, slot);
    StepInv(s, Close(slot));
    CloseOutcome(s, slot);
    assert s.held[slot].id in Step(s, Close(slot)).pool.idle;
  }
}
