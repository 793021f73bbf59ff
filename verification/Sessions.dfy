// A broadcast session as the server keeps it: the accounting, the bounded
// result channel, and the three ways a terminal event gets into it.
module Sessions {
  import opened Agents
  import opened Forest
  import opened MeshTopology
  import opened Accounting
  import opened Broadcast
  import opened PeerEvents

  class BroadcastSession {
    const accounting: SessionAccounting
    const capacity: nat
    var results: seq<Result>

    // Whoever may still be claimed has room kept for its result.
    ghost predicate Valid()
      reads this, accounting, accounting.arrivals
    {
      accounting.Valid() && |results| + |accounting.pending| <= capacity
    }

    constructor (targetIDs: seq<AgentId>)
      ensures Valid() && results == [] && capacity == |targetIDs| && accounting.pending == Elems(targetIDs)
      ensures fresh(accounting) && accounting.arrivals == null
    {
      accounting := new SessionAccounting(targetIDs);
      capacity, results := |targetIDs|, [];
      DistinctSize(targetIDs);
    }

    // One terminal event, claim and send together: the agent leaves the pending
    // set and its result, if this is its first, is queued.  The send that finds
    // the channel full and drops is never taken.
    twostate predicate Terminated(agent: AgentId, source: Source)
      reads this, accounting
    {
      && accounting.pending == old(accounting.pending) - {agent}
      && results == if agent in old(accounting.pending) then old(results) + [Result(agent, source)] else old(results)
    }

    method Terminate(agent: AgentId, source: Source, now: int)
      requires Valid()
      modifies this, accounting, accounting.arrivals
      ensures Valid() && (accounting.arrivals == old(accounting.arrivals) || fresh(accounting.arrivals))
      ensures Terminated(agent, source)
    {
      var first := accounting.ClaimAgent(agent, now);
      if first {
        if |results| < capacity {
          results := results + [Result(agent, source)];
        }
      }
    }

    // What the dispatcher does with a waiting result.
    method Receive() returns (r: Result)
      requires Valid() && results != []
      modifies this
      ensures Valid() && [r] + results == old(results)
    {
      r := results[0];
      results := results[1..];
    }

    // Origin first: a response the sender may not speak for never reaches the
    // claim, so it cannot use up its victim's slot.
    method HandleResponse(t: MeshTopology, mode: OriginMode, origin: AgentId, agent: AgentId, now: int)
      requires Valid() && t.Valid()
      modifies this, accounting, accounting.arrivals
      ensures Valid() && (accounting.arrivals == old(accounting.arrivals) || fresh(accounting.arrivals))
      ensures OriginOk(t.View(), mode, origin, agent) ==> Terminated(agent, Real)
      ensures !OriginOk(t.View(), mode, origin, agent) ==> results == old(results) && accounting.pending == old(accounting.pending)
    {
      hide Valid, OriginOk;
      var allowed := OriginAllows(t, mode, origin, agent);
      if allowed {
        Terminate(agent, Real, now);
      }
    }

    // The notifier's call for each of the agents it was told are gone.
    method MarkAllGone(agents: seq<AgentId>, now: int)
      requires Valid()
      modifies this, accounting, accounting.arrivals
      ensures Valid() && (accounting.arrivals == old(accounting.arrivals) || fresh(accounting.arrivals))
      ensures accounting.pending == old(accounting.pending) - Elems(agents)
      ensures results == old(results) + Failures(agents, old(accounting.pending))
    {
      hide Elems, Failures, Valid;
      ElemsSnoc([], NoAgent);
      FailuresNone(accounting.pending);
      assert results + [] == results;
      ghost var pending := accounting.pending;
      for i := 0 to |agents|
        invariant Valid() && (accounting.arrivals == old(accounting.arrivals) || fresh(accounting.arrivals))
        invariant accounting.pending == pending - Elems(agents[..i])
        invariant results == old(results) + Failures(agents[..i], pending)
      {
        ElemsSnoc(agents[..i], agents[i]);
        FailuresSnoc(agents[..i], agents[i], pending);
        assert agents[..i + 1] == agents[..i] + [agents[i]];
        ghost var more := if agents[i] in accounting.pending then [Result(agents[i], Synthetic)] else [];
        assert old(results) + Failures(agents[..i + 1], pending) == results + more;
        Terminate(agents[i], Synthetic, now);
      }
      assert agents[..|agents|] == agents;
    }

    // Gives up on everyone beneath a leader the message could not be handed to.
    method GiveUpOn(t: MeshTopology, zl: AgentId, now: int) returns (ghost failures: seq<Result>)
      requires Valid() && t.Valid() && Coherent(t.View())
      ensures t.Valid() && t.View() == old(t.View())
      modifies this, accounting, accounting.arrivals
      ensures Valid() && (accounting.arrivals == old(accounting.arrivals) || fresh(accounting.arrivals))
      ensures accounting.pending == old(accounting.pending) - Beneath(t.View(), zl)
      ensures results == old(results) + failures && FailsExactly(failures, old(accounting.pending) * Beneath(t.View(), zl))
    {
      hide Coherent, ChildTree, FailsExactly, Failures, Valid;
      var ids := t.SubtreeIDs(zl);
      ghost var pending := accounting.pending;
      assert Elems(ids) == Beneath(t.View(), zl);
      FailuresFailExactly(ids, pending);
      failures := Failures(ids, pending);
      MarkAllGone(ids, now);
    }

    // Hands the message to every leader stream.  A leader whose send buffer is
    // full cannot relay to its subtree, so everyone beneath it is given up on.
    method BroadcastToZoneLeaders(t: MeshTopology, streams: map<AgentId, nat>, sendBuffer: nat, now: int)
      returns (sent: set<AgentId>, ghost failures: seq<Result>)
      requires Valid() && t.Valid() && Coherent(t.View())
      modifies this, accounting, accounting.arrivals
      ensures Valid() && (accounting.arrivals == old(accounting.arrivals) || fresh(accounting.arrivals))
      ensures forall s :: s in sent <==> s in streams && streams[s] < sendBuffer
      ensures accounting.pending == old(accounting.pending) - BeneathAny(t.View(), streams.Keys - sent)
      ensures results == old(results) + failures
      ensures FailsExactly(failures, old(accounting.pending) * BeneathAny(t.View(), streams.Keys - sent))
    {
      hide Coherent, ChildTree, Beneath, BeneathAny, FailsExactly, Valid, MeshTopology.View, MeshTopology.Valid;
      ghost var m, pending := t.View(), accounting.pending;
      sent := set s | s in streams && streams[s] < sendBuffer;
      var failed := streams.Keys - sent;
      ghost var done: set<AgentId> := {};
      failures := [];
      NobodyBeneath(m, pending);
      while failed != {}
        invariant failed + done == streams.Keys - sent
        invariant Valid() && (accounting.arrivals == old(accounting.arrivals) || fresh(accounting.arrivals))
        invariant t.Valid() && t.View() == m
        invariant accounting.pending == pending - BeneathAny(m, done)
        invariant results == old(results) + failures && FailsExactly(failures, pending * BeneathAny(m, done))
        decreases failed
      {
        var zl :| zl in failed;
        failed := failed - {zl};
        ghost var more := GiveUpOn(t, zl, now);
        MoreBeneath(m, done, zl, pending, failures, more);
        failures := failures + more;
        done := done + {zl};
      }
    }
  }

  ghost function Beneath(m: Mesh, zl: AgentId): set<AgentId> {
    if zl in m.nodes then ChildTree(m, zl) else {}
  }

  ghost function BeneathAny(m: Mesh, leaders: set<AgentId>): set<AgentId> {
    set a | a in m.nodes && exists zl <- leaders :: a in Beneath(m, zl)
  }

  // On a linked mesh those given up on are the agents whose walk upwards meets one
  // of the leaders.
  lemma BeneathAnyMeans(m: Mesh, leaders: set<AgentId>)
    requires Linked(m) && leaders <= m.nodes.Keys
    ensures forall a :: a in BeneathAny(m, leaders) <==> a in m.nodes && exists zl <- leaders :: Reaches(m, a, zl)
  {
    LinkedAgrees(m);
  }

  lemma NobodyBeneath(m: Mesh, pending: set<AgentId>)
    ensures BeneathAny(m, {}) == {} && FailsExactly([], pending * BeneathAny(m, {})) && pending - BeneathAny(m, {}) == pending
  {}

  lemma MoreBeneath(m: Mesh, done: set<AgentId>, zl: AgentId, pending: set<AgentId>, failures: seq<Result>, more: seq<Result>)
    requires FailsExactly(failures, pending * BeneathAny(m, done))
    requires FailsExactly(more, (pending - BeneathAny(m, done)) * Beneath(m, zl))
    ensures BeneathAny(m, done + {zl}) == BeneathAny(m, done) + Beneath(m, zl)
    ensures pending - BeneathAny(m, done + {zl}) == (pending - BeneathAny(m, done)) - Beneath(m, zl)
    ensures FailsExactly(failures + more, pending * BeneathAny(m, done + {zl}))
  {
    assert BeneathAny(m, done + {zl}) == BeneathAny(m, done) + Beneath(m, zl) by { BeneathOneMore(m, done, zl); }
    var a, b := pending * BeneathAny(m, done), (pending - BeneathAny(m, done)) * Beneath(m, zl);
    assert pending * BeneathAny(m, done + {zl}) == a + b;
    FailTogether(failures, a, more, b);
  }

  lemma BeneathOneMore(m: Mesh, done: set<AgentId>, zl: AgentId)
    ensures BeneathAny(m, done + {zl}) == BeneathAny(m, done) + Beneath(m, zl)
  {
    assert zl in done + {zl};
  }

  // The synthetic failures that naming these agents in turn queues: one for each
  // that is pending, where it is first named.
  function Failures(agents: seq<AgentId>, pending: set<AgentId>): seq<Result>
    decreases |agents|
  {
    if agents == [] then []
    else
      var init, last := agents[..|agents| - 1], agents[|agents| - 1];
      Failures(init, pending) + if last in pending && last !in init then [Result(last, Synthetic)] else []
  }

  lemma FailuresNone(pending: set<AgentId>)
    ensures Failures([], pending) == []
  {}

  lemma FailuresSnoc(agents: seq<AgentId>, a: AgentId, pending: set<AgentId>)
    ensures Failures(agents + [a], pending) == Failures(agents, pending) + if a in pending - Elems(agents) then [Result(a, Synthetic)] else []
  {
    assert (agents + [a])[..|agents|] == agents;
  }

  // rs is one synthetic failure for each of these agents.
  ghost predicate FailsExactly(rs: seq<Result>, agents: set<AgentId>) {
    && (forall r <- rs :: r.source == Synthetic && r.agent in agents)
    && (forall a <- agents :: Result(a, Synthetic) in rs)
    && (forall i, j | 0 <= i < j < |rs| :: rs[i].agent != rs[j].agent)
  }

  lemma {:induction false} FailuresFailExactly(agents: seq<AgentId>, pending: set<AgentId>)
    ensures FailsExactly(Failures(agents, pending), pending * Elems(agents))
    decreases |agents|
  {
    if agents != [] {
      var init, last := agents[..|agents| - 1], agents[|agents| - 1];
      assert agents == init + [last];
      FailuresFailExactly(init, pending);
    }
  }

  // They come in the order in which the agents are first named.
  lemma {:induction false} FailuresInOrder(agents: seq<AgentId>, pending: set<AgentId>) returns (at: seq<nat>)
    ensures |at| == |Failures(agents, pending)|
    ensures forall j | 0 <= j < |at| :: at[j] < |agents| && Failures(agents, pending)[j].agent == agents[at[j]] && agents[at[j]] !in agents[..at[j]]
    ensures forall i, j | 0 <= i < j < |at| :: at[i] < at[j]
    decreases |agents|
  {
    at := [];
    if agents != [] {
      var n := |agents| - 1;
      at := FailuresInOrder(agents[..n], pending);
      forall j | 0 <= j < |at| ensures agents[..n][..at[j]] == agents[..at[j]] {}
      if agents[n] in pending && agents[n] !in agents[..n] {
        at := at + [n];
      }
    }
  }

  lemma FailTogether(rs: seq<Result>, a: set<AgentId>, qs: seq<Result>, b: set<AgentId>)
    requires FailsExactly(rs, a) && FailsExactly(qs, b) && a !! b
    ensures FailsExactly(rs + qs, a + b)
  {
    forall i, j | 0 <= i < |rs| && 0 <= j < |qs| ensures rs[i].agent != qs[j].agent {
      assert rs[i] in rs && qs[j] in qs;
    }
  }
}
