// What a batch of registrations does to the forest when some of its agents are
// already part of it.
module ReRegistration {
  import opened Agents
  import opened Forest
  import opened MeshWalks
  import opened PeerEvents
  import opened LeaderSelection
  import opened BatchAssignment

  // The mesh after the leaders were promoted and k of the others answered.
  ghost function AtTurn(m: Mesh, batch: seq<Reg>, chosen: seq<nat>, out: map<nat, PeerResponse>, k: nat): Mesh
    requires k <= |Rest(|batch|, chosen)|
  {
    AfterTurns(m, batch, out, chosen + Rest(|batch|, chosen)[..k])
  }

  // The k-th of the others is not put beneath itself.
  ghost predicate GoodTurn(m: Mesh, batch: seq<Reg>, chosen: seq<nat>, out: map<nat, PeerResponse>, k: nat)
    requires k < |Rest(|batch|, chosen)|
  {
    var i := Rest(|batch|, chosen)[k];
    i < |batch| && i in out && out[i].JoinParent? && batch[i].agent in m.nodes ==>
      out[i].parentID !in Subtree(AtTurn(m, batch, chosen, out, k), batch[i].agent)
  }

  lemma {:induction false} PromotedForest(m: Mesh, batch: seq<Reg>, chosen: seq<nat>, out: map<nat, PeerResponse>)
    requires IsForest(m) && forall i <- chosen :: i in out && out[i] == BecomeLeader
    ensures IsForest(AfterTurns(m, batch, out, chosen)) && AfterTurns(m, batch, out, chosen).nodes.Keys == m.nodes.Keys
    decreases |chosen|
  {
    hide IsForest, Answered;
    if chosen != [] {
      var init, i := chosen[..|chosen| - 1], chosen[|chosen| - 1];
      PromotedForest(m, batch, init, out);
      assert i in chosen;
      if i < |batch| {
        PromotionForest(AfterTurns(m, batch, out, init), batch[i].agent);
      }
    }
  }

  lemma PromotionForest(m: Mesh, id: AgentId)
    requires IsForest(m)
    ensures IsForest(Answered(m, id, BecomeLeader)) && Answered(m, id, BecomeLeader).nodes.Keys == m.nodes.Keys
  {
    hide Linked, Acyclic;
    ApplyForestIff(m, PromoteStep(id));
    AnswerSeats(m, id, BecomeLeader);
  }

  lemma TurnStep(m: Mesh, cfg: Placement, batch: seq<Reg>, chosen: seq<nat>, out: map<nat, PeerResponse>, k: nat)
    requires Assigned(m, cfg, batch, chosen, out) && k < |Rest(|batch|, chosen)|
    ensures var i, before := Rest(|batch|, chosen)[k], AtTurn(m, batch, chosen, out, k);
            && i < |batch| && i in out && RelayAnswer(before, cfg, batch[i].agent, out[i])
            && AtTurn(m, batch, chosen, out, k + 1) == Answered(before, batch[i].agent, out[i])
  {
    hide AfterTurns, Answered, RelayAnswer;
    var rest := Rest(|batch|, chosen);
    assert chosen + rest[..k + 1] == (chosen + rest[..k]) + [rest[k]];
    TurnsSnoc(m, batch, out, chosen + rest[..k], rest[k]);
  }

  lemma {:induction false} TurnsKnow(m: Mesh, cfg: Placement, batch: seq<Reg>, chosen: seq<nat>, out: map<nat, PeerResponse>, k: nat)
    requires IsForest(m) && Assigned(m, cfg, batch, chosen, out) && k <= |Rest(|batch|, chosen)|
    ensures Linked(AtTurn(m, batch, chosen, out, k)) && AtTurn(m, batch, chosen, out, k).nodes.Keys == m.nodes.Keys
  {
    hide Linked, Acyclic, Answered, AfterTurns, Rest;
    if k == 0 {
      assert chosen + Rest(|batch|, chosen)[..0] == chosen;
      PromotedForest(m, batch, chosen, out);
    } else {
      TurnsKnow(m, cfg, batch, chosen, out, k - 1);
      TurnStep(m, cfg, batch, chosen, out, k - 1);
      var i, before := Rest(|batch|, chosen)[k - 1], AtTurn(m, batch, chosen, out, k - 1);
      AnsweredKept(before, batch[i].agent, out[i]);
      AnswerSeats(before, batch[i].agent, out[i]);
    }
  }

  lemma TurnKeepsIff(m: Mesh, cfg: Placement, batch: seq<Reg>, chosen: seq<nat>, out: map<nat, PeerResponse>, k: nat)
    requires IsForest(m) && Assigned(m, cfg, batch, chosen, out) && k < |Rest(|batch|, chosen)|
    requires IsForest(AtTurn(m, batch, chosen, out, k))
    ensures IsForest(AtTurn(m, batch, chosen, out, k + 1)) <==> GoodTurn(m, batch, chosen, out, k)
  {
    hide Linked, Acyclic, Answered, AfterTurns, Rest, Subtree, Assigned;
    TurnStep(m, cfg, batch, chosen, out, k);
    TurnsKnow(m, cfg, batch, chosen, out, k);
    var i := Rest(|batch|, chosen)[k];
    AnsweredForestIff(AtTurn(m, batch, chosen, out, k), cfg, batch[i].agent, out[i]);
  }

  // A batch, with re-registrations or without, leaves a forest after each turn
  // up to n exactly when none of these turns put an agent beneath itself.
  lemma {:induction false} TurnsForestIff(m: Mesh, cfg: Placement, batch: seq<Reg>, chosen: seq<nat>, out: map<nat, PeerResponse>, n: nat)
    requires IsForest(m) && Assigned(m, cfg, batch, chosen, out) && n <= |Rest(|batch|, chosen)|
    ensures (forall k | 0 <= k <= n :: IsForest(AtTurn(m, batch, chosen, out, k))) <==> forall k | 0 <= k < n :: GoodTurn(m, batch, chosen, out, k)
  {
    hide IsForest, AtTurn, GoodTurn, Assigned, Rest;
    if n == 0 {
      FirstTurnForest(m, cfg, batch, chosen, out);
    } else {
      TurnsForestIff(m, cfg, batch, chosen, out, n - 1);
      if IsForest(AtTurn(m, batch, chosen, out, n - 1)) {
        TurnKeepsIff(m, cfg, batch, chosen, out, n - 1);
      }
    }
  }

  lemma FirstTurnForest(m: Mesh, cfg: Placement, batch: seq<Reg>, chosen: seq<nat>, out: map<nat, PeerResponse>)
    requires IsForest(m) && Assigned(m, cfg, batch, chosen, out)
    ensures IsForest(AtTurn(m, batch, chosen, out, 0))
  {
    hide IsForest, AfterTurns, RestAnswered;
    assert chosen + Rest(|batch|, chosen)[..0] == chosen;
    PromotedForest(m, batch, chosen, out);
  }

  // A registration alone in its batch is promoted exactly when a slot is open,
  // it is stable and no online leader listens on its source IP.
  ghost predicate WinsSlot(m: Mesh, cfg: Placement, reg: Reg, maxZoneLeaders: int, domainOf: Domains) {
    maxZoneLeaders > |OnlineLeaders(m)| && reg.agent !in cfg.flaky && reg.sourceIP !in OccupiedBy(m, domainOf).ips
  }

  lemma LoneChoice(m: Mesh, cfg: Placement, reg: Reg, maxZoneLeaders: int, domainOf: Domains, chosen: seq<nat>)
    requires var openZL, taken := maxZoneLeaders - |OnlineLeaders(m)|, OccupiedBy(m, domainOf);
             Sound([reg], cfg.flaky, openZL, taken, chosen) && Maximal([reg], cfg.flaky, openZL, taken, chosen)
    ensures chosen == if WinsSlot(m, cfg, reg, maxZoneLeaders, domainOf) then [0] else []
  {
    hide OnlineLeaders, OccupiedBy;
    forall k | 0 <= k < |chosen| ensures chosen[k] == 0 {
      assert chosen[k] in chosen && IsRep([reg], cfg.flaky, chosen[k]);
    }
    DistinctIPs([reg], chosen);
    assert IPsOf([reg], chosen) <= {reg.sourceIP};
    SubsetSize(IPsOf([reg], chosen), {reg.sourceIP});
    assert [reg][0] == reg && Seen([reg], reg.sourceIP);
    if chosen == [] {
      assert IPsOf([reg], chosen) == {};
      assert AllFlaky([reg], cfg.flaky, reg.sourceIP) ==> reg.agent in cfg.flaky by { assert [reg][0].agent == reg.agent; }
    } else {
      assert chosen == [0];
      assert 0 in chosen;
    }
  }

  lemma LoneOutcome(m: Mesh, cfg: Placement, reg: Reg, maxZoneLeaders: int, domainOf: Domains, chosen: seq<nat>, spread: nat, out: map<nat, PeerResponse>)
    requires Outcome(m, cfg, [reg], maxZoneLeaders, domainOf, chosen, spread, out)
    ensures 0 in out && AfterTurns(m, [reg], out, AllTurns([reg], chosen)) == Answered(m, reg.agent, out[0])
    ensures if WinsSlot(m, cfg, reg, maxZoneLeaders, domainOf) then out[0] == BecomeLeader else RelayAnswer(m, cfg, reg.agent, out[0])
  {
    hide WinsSlot, OnlineLeaders, OccupiedBy, Answered, RelayAnswer;
    LoneChoice(m, cfg, reg, maxZoneLeaders, domainOf, chosen);
    TurnsSnoc(m, [reg], out, [], 0);
    assert [] + [0] == [0];
    LoneTurns(reg, chosen);
    if chosen == [] {
      assert Rest(1, chosen)[..0] == [] && chosen + [] == [];
      assert RelayAnswer(AfterTurns(m, [reg], out, chosen + Rest(1, chosen)[..0]), cfg, reg.agent, out[Rest(1, chosen)[0]]);
    }
  }

  lemma LoneTurns(reg: Reg, chosen: seq<nat>)
    requires chosen == [] || chosen == [0]
    ensures AllTurns([reg], chosen) == [0] && Rest(1, chosen) == if chosen == [] then [0] else []
  {
    assert Rest(0, chosen) == [];
  }

  // So a known agent registering again keeps the mesh a forest, whatever the map
  // order, exactly when it wins a slot or no unbeaten parent is in its own
  // subtree, where it is itself.
  lemma ReRegistrationForestIff(m: Mesh, cfg: Placement, reg: Reg, maxZoneLeaders: int, domainOf: Domains)
    requires IsForest(m) && reg.agent in m.nodes
    ensures (forall chosen, spread: nat, out | Outcome(m, cfg, [reg], maxZoneLeaders, domainOf, chosen, spread, out) ::
               IsForest(AfterTurns(m, [reg], out, AllTurns([reg], chosen))))
       <==> WinsSlot(m, cfg, reg, maxZoneLeaders, domainOf) || forall p | Unbeaten(m, cfg, p) :: p !in Subtree(m, reg.agent)
  {
    hide IsForest, Answered, Unbeaten, NobodyHasRoom, Outcome, WinsSlot, Subtree;
    RelayKeepsForestIff(m, cfg, reg.agent);
    PromotionForest(m, reg.agent);
    forall chosen, spread: nat, out | Outcome(m, cfg, [reg], maxZoneLeaders, domainOf, chosen, spread, out)
      ensures WinsSlot(m, cfg, reg, maxZoneLeaders, domainOf) || (forall p | Unbeaten(m, cfg, p) :: p !in Subtree(m, reg.agent))
              ==> IsForest(AfterTurns(m, [reg], out, AllTurns([reg], chosen)))
    {
      LoneOutcome(m, cfg, reg, maxZoneLeaders, domainOf, chosen, spread, out);
    }
    if !WinsSlot(m, cfg, reg, maxZoneLeaders, domainOf) {
      forall r | RelayAnswer(m, cfg, reg.agent, r)
        ensures exists chosen, spread: nat, out :: Outcome(m, cfg, [reg], maxZoneLeaders, domainOf, chosen, spread, out)
                  && AfterTurns(m, [reg], out, AllTurns([reg], chosen)) == Answered(m, reg.agent, r)
      {
        LoneOutcomeExists(m, cfg, reg, maxZoneLeaders, domainOf, r);
        LoneOutcome(m, cfg, reg, maxZoneLeaders, domainOf, [], 0, map[0 := r]);
      }
    }
  }

  lemma LoneOutcomeExists(m: Mesh, cfg: Placement, reg: Reg, maxZoneLeaders: int, domainOf: Domains, r: PeerResponse)
    requires !WinsSlot(m, cfg, reg, maxZoneLeaders, domainOf) && RelayAnswer(m, cfg, reg.agent, r)
    ensures Outcome(m, cfg, [reg], maxZoneLeaders, domainOf, [], 0, map[0 := r])
  {
    hide OnlineLeaders, OccupiedBy, RelayAnswer;
    var openZL, taken := maxZoneLeaders - |OnlineLeaders(m)|, OccupiedBy(m, domainOf);
    forall ip | Seen([reg], ip) && 0 < openZL ensures ip in taken.ips || AllFlaky([reg], cfg.flaky, ip) {
      assert ip == reg.sourceIP;
    }
    LoneTurns(reg, []);
    assert [] + Rest(1, [])[..0] == [];
    assert AfterTurns(m, [reg], map[0 := r], []) == m;
  }

  // When every unbeaten parent is in the agent's own subtree, re-registering
  // breaks the forest for certain.
  lemma ReRegistrationMustBreak(m: Mesh, cfg: Placement, reg: Reg, maxZoneLeaders: int, domainOf: Domains, chosen: seq<nat>, spread: nat, out: map<nat, PeerResponse>)
    requires IsForest(m) && reg.agent in m.nodes && !WinsSlot(m, cfg, reg, maxZoneLeaders, domainOf)
    requires !NobodyHasRoom(m, cfg) && forall p | Unbeaten(m, cfg, p) :: p in Subtree(m, reg.agent)
    requires Outcome(m, cfg, [reg], maxZoneLeaders, domainOf, chosen, spread, out)
    ensures out[0].JoinParent? && Unbeaten(m, cfg, out[0].parentID)
    ensures !IsForest(AfterTurns(m, [reg], out, AllTurns([reg], chosen)))
  {
    hide Linked, Acyclic, Subtree, WinsSlot, Outcome, Answered, AfterTurns;
    LoneOutcome(m, cfg, reg, maxZoneLeaders, domainOf, chosen, spread, out);
    AnsweredForestIff(m, cfg, reg.agent, out[0]);
  }

  // --------------------------------------------------------------------
  // Two runs that end in a cycle
  // --------------------------------------------------------------------

  // The mesh once agent a has registered, become the only leader, and called
  // Register again: it is refreshed in place.
  function SoleLeader(a: AgentId, addr: string): Mesh {
    AddAgent(AssignZoneLeader(AddAgent(EMPTY_MESH, a, addr), a), a, addr)
  }

  // A sole stable leader with room that registers again from the address it
  // listens on is offered itself: it ends up its own parent, and the mesh has no
  // leader left, however many slots are open.
  lemma SoleLeaderBecomesItsOwnParent(a: AgentId, addr: string, cfg: Placement, maxZoneLeaders: int, domainOf: Domains,
      chosen: seq<nat>, spread: nat, out: map<nat, PeerResponse>)
    requires a != NoAgent && addr != "" && a !in cfg.flaky && cfg.maxChildren > 0
    requires Outcome(SoleLeader(a, addr), cfg, [Reg(a, IpOfListen(addr), addr)], maxZoneLeaders, domainOf, chosen, spread, out)
    ensures IsForest(SoleLeader(a, addr)) && SoleLeader(a, addr).leaders == {a}
    ensures out[0] == JoinParent(a)
    ensures var m' := AfterTurns(SoleLeader(a, addr), [Reg(a, IpOfListen(addr), addr)], out, AllTurns([Reg(a, IpOfListen(addr), addr)], chosen));
            m'.leaders == {} && !IsForest(m') && a in m'.nodes && m'.nodes[a].parent == a
  {
    var m, reg := SoleLeader(a, addr), Reg(a, IpOfListen(addr), addr);
    DepthsGrowAcyclic(m);
    assert m.nodes[a] == Node(ZoneLeader, NoAgent, {}, 0, true, addr);
    assert m.nodes.Keys == {a};
    LedFromItsOwnAddress(m, cfg, reg, maxZoneLeaders, domainOf);
    assert Unbeaten(m, cfg, a);
    assert Up(m, a, 0) == a;
    ReRegistrationMustBreak(m, cfg, reg, maxZoneLeaders, domainOf, chosen, spread, out);
    LoneOutcome(m, cfg, reg, maxZoneLeaders, domainOf, chosen, spread, out);
  }

  // A leader registering from the host it listens on never wins a slot.
  lemma LedFromItsOwnAddress(m: Mesh, cfg: Placement, reg: Reg, maxZoneLeaders: int, domainOf: Domains)
    requires reg.agent in m.leaders && reg.agent in m.nodes && m.nodes[reg.agent].online
    requires reg.sourceIP == IpOfListen(m.nodes[reg.agent].listenAddr)
    ensures !WinsSlot(m, cfg, reg, maxZoneLeaders, domainOf)
  {
    assert reg.agent in OnlineLeaders(m);
  }

  // Agent b has joined beneath the leader a, and a registers again.
  function LeaderWithChild(a: AgentId, b: AgentId, addrA: string, addrB: string): Mesh {
    AddAgent(Place(Joining(a, b, addrA, addrB), b, a), a, addrA)
  }

  function Joining(a: AgentId, b: AgentId, addrA: string, addrB: string): Mesh {
    AddAgent(AssignZoneLeader(AddAgent(EMPTY_MESH, a, addrA), a), b, addrB)
  }

  // With room for one child each, b's own registration can only be answered with
  // a, and a's second one only with b: each is then the other's parent, and no
  // walk up from either ever leaves the two.
  lemma ReRegistrationCycle(a: AgentId, b: AgentId, addrA: string, addrB: string, maxZoneLeaders: int, domainOf: Domains,
      chosen: seq<nat>, spread: nat, out: map<nat, PeerResponse>)
    requires NoAgent !in {a, b} && a != b && addrA != "" && addrB != ""
    requires Outcome(LeaderWithChild(a, b, addrA, addrB), Placement({}, {}, 1, 1), [Reg(a, IpOfListen(addrA), addrA)], maxZoneLeaders, domainOf, chosen, spread, out)
    ensures forall r :: RelayAnswer(Joining(a, b, addrA, addrB), Placement({}, {}, 1, 1), b, r) <==> r == JoinParent(a)
    ensures IsForest(LeaderWithChild(a, b, addrA, addrB)) && out[0] == JoinParent(b)
    ensures var m' := AfterTurns(LeaderWithChild(a, b, addrA, addrB), [Reg(a, IpOfListen(addrA), addrA)], out, AllTurns([Reg(a, IpOfListen(addrA), addrA)], chosen));
            m'.leaders == {} && !IsForest(m') && forall k: nat :: Up(m', a, k) in {a, b}
  {
    var m, reg, cfg := LeaderWithChild(a, b, addrA, addrB), Reg(a, IpOfListen(addrA), addrA), Placement({}, {}, 1, 1);
    FirstChild(a, b, addrA, addrB);
    TheirPlaces(a, b, addrA, addrB);
    LedFromItsOwnAddress(m, cfg, reg, maxZoneLeaders, domainOf);
    assert Up(m, b, 1) == Up(m, a, 0) == a;
    ReRegistrationMustBreak(m, cfg, reg, maxZoneLeaders, domainOf, chosen, spread, out);
    LoneOutcome(m, cfg, reg, maxZoneLeaders, domainOf, chosen, spread, out);
    LinkedHolds(m, a);
    PlaceMoves(m, a, b);
    forall k: nat ensures Up(Place(m, a, b), a, k) in {a, b} {
      TwoCycle(Place(m, a, b), a, b, k);
    }
  }

  lemma JoiningShape(a: AgentId, b: AgentId, addrA: string, addrB: string)
    requires NoAgent !in {a, b} && a != b
    ensures var m := Joining(a, b, addrA, addrB);
            && m.nodes.Keys == {a, b} && m.leaders == {a}
            && m.nodes[a] == Node(ZoneLeader, NoAgent, {}, 0, true, addrA)
            && m.nodes[b] == Node(Unassigned, NoAgent, {}, 0, true, addrB)
  {}

  lemma LeaderWithChildShape(a: AgentId, b: AgentId, addrA: string, addrB: string)
    requires NoAgent !in {a, b} && a != b
    ensures var m := LeaderWithChild(a, b, addrA, addrB);
            && m.leaders == {a} && m.nodes.Keys == {a, b}
            && m.nodes[a] == Node(ZoneLeader, NoAgent, {b}, 0, true, addrA)
            && m.nodes[b] == Node(Relay, a, {}, 1, true, addrB)
  {
    JoiningShape(a, b, addrA, addrB);
    PlaceNodes(Joining(a, b, addrA, addrB), b, a);
    hide Joining, Place;
  }

  lemma FirstChild(a: AgentId, b: AgentId, addrA: string, addrB: string)
    requires NoAgent !in {a, b} && a != b && addrA != "" && addrB != ""
    ensures forall r :: RelayAnswer(Joining(a, b, addrA, addrB), Placement({}, {}, 1, 1), b, r) <==> r == JoinParent(a)
  {
    JoiningShape(a, b, addrA, addrB);
    hide Joining;
    var m, cfg := Joining(a, b, addrA, addrB), Placement({}, {}, 1, 1);
    assert forall x :: IsCandidate(m, cfg, x) <==> x == a;
    assert Unbeaten(m, cfg, a);
  }

  lemma TheirPlaces(a: AgentId, b: AgentId, addrA: string, addrB: string)
    requires NoAgent !in {a, b} && a != b && addrA != "" && addrB != ""
    ensures var m, cfg := LeaderWithChild(a, b, addrA, addrB), Placement({}, {}, 1, 1);
            && IsForest(m) && m.leaders == {a} && m.nodes.Keys == {a, b}
            && m.nodes[a] == Node(ZoneLeader, NoAgent, {b}, 0, true, addrA)
            && m.nodes[b] == Node(Relay, a, {}, 1, true, addrB)
            && Unbeaten(m, cfg, b) && forall x :: IsCandidate(m, cfg, x) <==> x == b
  {
    LeaderWithChildShape(a, b, addrA, addrB);
    hide LeaderWithChild;
    var m, cfg := LeaderWithChild(a, b, addrA, addrB), Placement({}, {}, 1, 1);
    DepthsGrowAcyclic(m);
    assert forall x :: IsCandidate(m, cfg, x) <==> x == b;
  }
}
