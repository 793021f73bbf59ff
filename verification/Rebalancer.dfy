// What happens after a zone leader is lost: hints for its children and one
// promotion for its slot.
module Rebalancer {
  import opened Agents
  import opened Forest
  import opened MeshWalks
  import opened MeshTopology
  import opened PeerEvents
  import opened LeaderSelection
  import opened BatchAssignment
  import opened ByteOrder

  // --------------------------------------------------------------------
  // Orphans
  // --------------------------------------------------------------------

  ghost function OnlineChildren(m: Mesh, parentID: AgentId): set<AgentId> {
    if parentID in m.nodes then OnlineAmong(m, m.nodes[parentID].children) else {}
  }

  method ChildrenOf(t: MeshTopology, parentID: AgentId) returns (out: seq<AgentId>)
    requires t.Valid()
    ensures NoDups(out) && Elems(out) == OnlineChildren(t.View(), parentID)
  {
    out := [];
    if parentID !in t.nodes {
      return;
    }
    ghost var m := t.View();
    var todo := t.nodes[parentID].children;
    assert todo == m.nodes[parentID].children;
    while todo != {}
      invariant todo <= m.nodes[parentID].children
      invariant NoDups(out) && Elems(out) == OnlineAmong(m, m.nodes[parentID].children - todo)
      decreases todo
    {
      var c :| c in todo;
      var was := todo;
      todo := todo - {c};
      if c in t.nodes && t.nodes[c].online {
        assert m.nodes[c].online;
        NoDupsSnoc(out, c);
        ElemsSnoc(out, c);
        assert OnlineAmong(m, m.nodes[parentID].children - todo) == OnlineAmong(m, m.nodes[parentID].children - was) + {c};
        out := out + [c];
      } else {
        assert c in t.nodes ==> t.nodes[c].View() == m.nodes[c];
        assert OnlineAmong(m, m.nodes[parentID].children - todo) == OnlineAmong(m, m.nodes[parentID].children - was);
      }
    }
    assert m.nodes[parentID].children - {} == m.nodes[parentID].children;
  }

  datatype Told = Told(child: AgentId, answer: PeerResponse)

  // The promotions among what was told, applied in order; hints write nothing.
  function PromoteTold(m: Mesh, told: seq<Told>): Mesh
    decreases |told|
  {
    if told == [] then m
    else
      var before := PromoteTold(m, told[..|told| - 1]);
      var last := told[|told| - 1];
      if last.answer.BecomeLeader? then Forest.AssignZoneLeader(before, last.child) else before
  }

  // Each child was told what RequestPeers might tell it on the mesh as it then
  // stood.
  ghost predicate AllRightlyTold(m: Mesh, cfg: Placement, told: seq<Told>) {
    forall i | 0 <= i < |told| :: PeersAnswer(PromoteTold(m, told[..i]), cfg, told[i].child, told[i].answer)
  }

  lemma ToldSnoc(m: Mesh, cfg: Placement, told: seq<Told>, x: Told)
    requires AllRightlyTold(m, cfg, told) && PeersAnswer(PromoteTold(m, told), cfg, x.child, x.answer)
    ensures AllRightlyTold(m, cfg, told + [x])
    ensures PromoteTold(m, told + [x]) == if x.answer.BecomeLeader? then Forest.AssignZoneLeader(PromoteTold(m, told), x.child) else PromoteTold(m, told)
  {
    hide PeersAnswer, Forest.AssignZoneLeader;
    var more := told + [x];
    assert more[..|told|] == told;
    forall i | 0 <= i < |told| ensures more[..i] == told[..i] {}
  }

  ghost function ChildrenTold(told: seq<Told>): set<AgentId> {
    set i | 0 <= i < |told| :: told[i].child
  }

  lemma SomebodyTold(told: seq<Told>)
    requires told != []
    ensures ChildrenTold(told) != {}
  {
    assert told[0].child in ChildrenTold(told);
  }

  // A direct stream: whether its agent has been told to move, and what waits to
  // be sent on it.
  datatype Stream = Stream(reassigned: bool, queued: seq<Told>)

  type Streams = map<AgentId, Stream>

  // A hinted agent's stream is marked, so that its closing is no loss; the
  // message itself is dropped when the send buffer is full.
  function Sent(streams: Streams, x: Told, sendBuffer: nat): Streams {
    if x.child !in streams then streams
    else
      var s := streams[x.child];
      streams[x.child := Stream(s.reassigned || x.answer.JoinParent?, if |s.queued| < sendBuffer then s.queued + [x] else s.queued)]
  }

  function AllSent(streams: Streams, told: seq<Told>, sendBuffer: nat): Streams
    decreases |told|
  {
    if told == [] then streams else Sent(AllSent(streams, told[..|told| - 1], sendBuffer), told[|told| - 1], sendBuffer)
  }

  // Different children have different streams, so each stream sees one message.
  lemma {:induction false} SentOnce(streams: Streams, told: seq<Told>, sendBuffer: nat)
    requires forall i, j | 0 <= i < j < |told| :: told[i].child != told[j].child
    ensures AllSent(streams, told, sendBuffer).Keys == streams.Keys
    ensures forall x <- told | x.child in streams ::
              var before, after := streams[x.child], AllSent(streams, told, sendBuffer)[x.child];
              && (after.reassigned <==> before.reassigned || x.answer.JoinParent?)
              && after.queued == before.queued + if |before.queued| < sendBuffer then [x] else []
    ensures forall c <- streams | c !in ChildrenTold(told) :: AllSent(streams, told, sendBuffer)[c] == streams[c]
    decreases |told|
  {
    if told != [] {
      var init, last := told[..|told| - 1], told[|told| - 1];
      assert told == init + [last];
      SentOnce(streams, init, sendBuffer);
      assert last.child !in ChildrenTold(init);
      assert forall c :: c in ChildrenTold(told) <==> c in ChildrenTold(init) || c == last.child;
    }
  }

  method SendTo(streams: Streams, x: Told, sendBuffer: nat) returns (streams': Streams)
    ensures streams' == Sent(streams, x, sendBuffer)
  {
    streams' := streams;
    if x.child in streams' {
      var s := streams'[x.child];
      if x.answer.JoinParent? {
        s := s.(reassigned := true);
      }
      if |s.queued| < sendBuffer {
        s := s.(queued := s.queued + [x]);
      }
      streams' := streams'[x.child := s];
    }
  }

  // A hint is not recorded; the mesh learns of the move when it happens.
  method AnswerOrphan(t: MeshTopology, child: AgentId, flaky: set<AgentId>, hot: set<AgentId>) returns (r: PeerResponse)
    requires t.Valid()
    modifies t`zoneLeaders, t.nodes.Values
    ensures t.Valid() && Kept(old(t.View()), t.View()) && (IsForest(old(t.View())) ==> IsForest(t.View()))
    ensures PeersAnswer(old(t.View()), Placement(flaky, hot, t.maxChildren, t.probationCap), child, r)
    ensures t.View() == if r.BecomeLeader? then Forest.AssignZoneLeader(old(t.View()), child) else old(t.View())
  {
    hide Coherent, Linked, Acyclic, Forest.AssignZoneLeader;
    var ok, parentID := t.FindShallowestParentWithRoom(flaky, hot);
    if !ok || parentID == child {
      ApplyKeeps(t.View(), PromoteStep(child));
      if IsForest(t.View()) { ApplyForestIff(t.View(), PromoteStep(child)); }
      t.AssignZoneLeader(child);
      return BecomeLeader;
    }
    return JoinParent(parentID);
  }

  // One message for each online child of the lost agent: a parent with room
  // if there is one besides the child itself, a leader slot otherwise.
  method ReassignOrphans(t: MeshTopology, deadID: AgentId, flaky: set<AgentId>, hot: set<AgentId>, streams: Streams, sendBuffer: nat)
    returns (told: seq<Told>, streams': Streams)
    requires t.Valid()
    modifies t`zoneLeaders, t.nodes.Values
    ensures t.Valid() && Kept(old(t.View()), t.View()) && (IsForest(old(t.View())) ==> IsForest(t.View()))
    ensures t.View() == PromoteTold(old(t.View()), told)
    ensures AllRightlyTold(old(t.View()), Placement(flaky, hot, t.maxChildren, t.probationCap), told)
    ensures forall i, j | 0 <= i < j < |told| :: told[i].child != told[j].child
    ensures ChildrenTold(told) == OnlineChildren(old(t.View()), deadID)
    ensures streams' == AllSent(streams, told, sendBuffer)
  {
    hide Coherent, Linked, Acyclic, OnlineChildren, AllRightlyTold, PromoteTold, PeersAnswer, Sent, Forest.AssignZoneLeader;
    ghost var m0 := t.View();
    ghost var cfg := Placement(flaky, hot, t.maxChildren, t.probationCap);
    var children := ChildrenOf(t, deadID);
    told, streams' := [], streams;
    NothingTold(m0, cfg);
    for i := 0 to |children|
      invariant t.Valid() && Kept(m0, t.View()) && t.View() == PromoteTold(m0, told)
      invariant IsForest(m0) ==> IsForest(t.View())
      invariant AllRightlyTold(m0, cfg, told)
      invariant |told| == i && forall j | 0 <= j < i :: told[j].child == children[j]
      invariant streams' == AllSent(streams, told, sendBuffer)
    {
      var child := children[i];
      var answer := AnswerOrphan(t, child, flaky, hot);
      var x := Told(child, answer);
      ToldSnoc(m0, cfg, told, x);
      streams' := SendTo(streams', x, sendBuffer);
      assert (told + [x])[..|told|] == told;
      told := told + [x];
    }
    assert forall c :: c in children <==> c in OnlineChildren(m0, deadID) by { assert forall c :: c in Elems(children) <==> c in children; }
    assert forall c | c in children :: exists j | 0 <= j < |told| :: told[j].child == c;
  }

  lemma NothingTold(m: Mesh, cfg: Placement)
    ensures AllRightlyTold(m, cfg, []) && PromoteTold(m, []) == m
  {}

  // The loss that triggers the reassignment has just taken everyone beneath
  // offline, children included.
  lemma LossLeavesNoOnlineChild(m: Mesh, id: AgentId)
    requires Coherent(m)
    ensures OnlineChildren(Forest.MarkSubtreeOffline(m, id), id) == {}
  {
    if id in m.nodes {
      forall c <- m.nodes[id].children ensures c in ChildTree(m, id) {
        assert Agreed(m).nodes[c].parent == id;
        assert Up(Agreed(m), c, 1) == Up(Agreed(m), id, 0) == id;
      }
    }
  }

  // So unless some child comes back online in between, closing a stream hints
  // nobody and promotes nobody: the reassignment is without effect.
  method CloseThenReassign(t: MeshTopology, streams: Streams, id: AgentId, flaky: set<AgentId>, hot: set<AgentId>, sendBuffer: nat)
    returns (told: seq<Told>, streams': Streams)
    requires t.Valid() && Coherent(t.View()) && id in streams && !streams[id].reassigned
    modifies t`zoneLeaders, t.nodes.Values
    ensures told == [] && streams' == streams - {id}
    ensures t.View() == Forest.MarkSubtreeOffline(old(t.View()), id)
  {
    hide *;
    ghost var m := t.View();
    var _, notified := CloseAgentStream(t, streams.Keys, id, streams[id].reassigned);
    LostMarks(m, t.View(), id, notified);
    LossLeavesNoOnlineChild(m, id);
    ghost var lost := t.View();
    told, streams' := ReassignOrphans(t, id, flaky, hot, streams - {id}, sendBuffer);
    if told != [] { SomebodyTold(told); }
    NothingTold(lost, Placement(flaky, hot, t.maxChildren, t.probationCap));
    NothingSent(streams - {id}, sendBuffer);
  }

  lemma NothingSent(streams: Streams, sendBuffer: nat)
    ensures AllSent(streams, [], sendBuffer) == streams
  {}

  lemma LostMarks(m: Mesh, m': Mesh, id: AgentId, notified: seq<AgentId>)
    requires LostSubtree(m, m', id, notified)
    ensures m' == Forest.MarkSubtreeOffline(m, id)
  {}

  // --------------------------------------------------------------------
  // The vacant slot
  // --------------------------------------------------------------------

  predicate MayPromote(m: Mesh, flaky: set<AgentId>, id: AgentId) {
    id in m.nodes && m.nodes[id].online && m.nodes[id].role != ZoneLeader && id !in flaky
  }

  // Children matter most, a failure domain without a leader next.
  function Score(m: Mesh, leaderDomains: set<string>, domainOf: Domains, id: AgentId): nat
    requires id in m.nodes
  {
    var d := domainOf(m.nodes[id].listenAddr);
    (if |m.nodes[id].children| > 0 then 2 else 0) + (if d == "" || d !in leaderDomains then 1 else 0)
  }

  function KeyText(id: AgentId): string {
    if id.Agent? then id.key else ""
  }

  // a wins over b: a higher score, or the same and the smaller key.
  predicate Outranks(m: Mesh, leaderDomains: set<string>, domainOf: Domains, a: AgentId, b: AgentId)
    requires a in m.nodes && b in m.nodes
  {
    var x, y := Score(m, leaderDomains, domainOf, a), Score(m, leaderDomains, domainOf, b);
    x > y || (x == y && StrCmp(KeyText(a), KeyText(b)) < 0)
  }

  ghost predicate IsBest(m: Mesh, flaky: set<AgentId>, leaderDomains: set<string>, domainOf: Domains, id: AgentId) {
    MayPromote(m, flaky, id) && forall x | MayPromote(m, flaky, x) && x != id :: Outranks(m, leaderDomains, domainOf, id, x)
  }

  lemma OutranksOrder(m: Mesh, leaderDomains: set<string>, domainOf: Domains, a: AgentId, b: AgentId, c: AgentId)
    requires a in m.nodes && b in m.nodes && c in m.nodes && NoAgent !in m.nodes
    ensures Outranks(m, leaderDomains, domainOf, a, b) && Outranks(m, leaderDomains, domainOf, b, c) ==> Outranks(m, leaderDomains, domainOf, a, c)
    ensures a != b ==> Outranks(m, leaderDomains, domainOf, a, b) != Outranks(m, leaderDomains, domainOf, b, a)
  {
    StrCmpOrder(KeyText(a), KeyText(b), KeyText(c));
    StrCmpZero(KeyText(a), KeyText(b));
  }

  // The agent's failure domain is known and has an online leader.
  ghost predicate DomainLed(m: Mesh, leaderDomains: set<string>, domainOf: Domains, id: AgentId)
    requires id in m.nodes
  {
    var d := domainOf(m.nodes[id].listenAddr);
    d != "" && d in leaderDomains
  }

  // In the fields of the nodes: id has children if x has; if they agree in that it
  // brings a new failure domain if x does; if in that too its key is the smaller.
  ghost predicate Precedes(m: Mesh, leaderDomains: set<string>, domainOf: Domains, id: AgentId, x: AgentId)
    requires id in m.nodes && x in m.nodes
  {
    && (m.nodes[x].children != {} ==> m.nodes[id].children != {})
    && ((m.nodes[x].children != {}) == (m.nodes[id].children != {}) ==>
          && (DomainLed(m, leaderDomains, domainOf, id) ==> DomainLed(m, leaderDomains, domainOf, x))
          && (DomainLed(m, leaderDomains, domainOf, id) == DomainLed(m, leaderDomains, domainOf, x) ==>
                exists i :: SmallerAt(KeyText(id), KeyText(x), i)))
  }

  lemma OutranksMeans(m: Mesh, leaderDomains: set<string>, domainOf: Domains, id: AgentId, x: AgentId)
    requires id in m.nodes && x in m.nodes
    ensures Outranks(m, leaderDomains, domainOf, id, x) <==> Precedes(m, leaderDomains, domainOf, id, x)
  {
    StrCmpMeans(KeyText(id), KeyText(x));
    hide StrCmp, SmallerAt, KeyText;
    assert |m.nodes[x].children| > 0 <==> m.nodes[x].children != {};
    assert |m.nodes[id].children| > 0 <==> m.nodes[id].children != {};
  }

  // The best is an online non-leader that is not on probation and precedes every
  // other one.
  lemma BestMeans(m: Mesh, flaky: set<AgentId>, leaderDomains: set<string>, domainOf: Domains, id: AgentId)
    ensures IsBest(m, flaky, leaderDomains, domainOf, id) <==>
              && id in m.nodes && m.nodes[id].online && m.nodes[id].role != ZoneLeader && id !in flaky
              && forall x <- m.nodes | m.nodes[x].online && m.nodes[x].role != ZoneLeader && x !in flaky && x != id ::
                   Precedes(m, leaderDomains, domainOf, id, x)
  {
    hide Outranks, Precedes;
    if id in m.nodes {
      forall x <- m.nodes ensures Outranks(m, leaderDomains, domainOf, id, x) <==> Precedes(m, leaderDomains, domainOf, id, x) {
        OutranksMeans(m, leaderDomains, domainOf, id, x);
      }
    }
  }

  // Map order does not matter: the ranking is total, so the winner is unique.
  method FindPromotionCandidate(t: MeshTopology, flaky: set<AgentId>, domainOf: Domains) returns (found: bool, best: AgentId)
    requires t.Valid()
    ensures found <==> exists x :: MayPromote(t.View(), flaky, x)
    ensures found ==> IsBest(t.View(), flaky, OccupiedBy(t.View(), domainOf).domains, domainOf, best)
  {
    hide OccupiedBy, Score, Outranks;
    ghost var m := t.View();
    var taken := SurveyLeaders(t, domainOf);
    var leaderDomains := taken.domains;
    found, best := false, NoAgent;
    var bestScore: int := -1;
    var rest := t.nodes.Keys;
    while rest != {}
      invariant rest <= t.nodes.Keys
      invariant found ==> best !in rest && MayPromote(m, flaky, best) && bestScore == Score(m, leaderDomains, domainOf, best)
      invariant !found ==> bestScore == -1
      invariant forall x | MayPromote(m, flaky, x) && x !in rest :: found && (x == best || Outranks(m, leaderDomains, domainOf, best, x))
      decreases rest
    {
      var id :| id in rest;
      rest := rest - {id};
      var n := t.nodes[id];
      assert n.View() == m.nodes[id];
      if !n.online || n.role == ZoneLeader || id in flaky {
        continue;
      }
      var score := ScoreOf(n, leaderDomains, domainOf, m);
      if score > bestScore || (score == bestScore && StrCmp(KeyText(id), KeyText(best)) < 0) {
        forall x | MayPromote(m, flaky, x) && x !in rest && x != id ensures Outranks(m, leaderDomains, domainOf, id, x) {
          OutranksOf(m, leaderDomains, domainOf, id, best);
          OutranksOrder(m, leaderDomains, domainOf, id, best, x);
        }
        found, best, bestScore := true, id, score;
      } else {
        OutranksOf(m, leaderDomains, domainOf, id, best);
        OutranksOrder(m, leaderDomains, domainOf, best, id, id);
      }
    }
    assert t.View() == m && (found ==> MayPromote(t.View(), flaky, best));
  }

  lemma OutranksOf(m: Mesh, leaderDomains: set<string>, domainOf: Domains, a: AgentId, b: AgentId)
    requires a in m.nodes && b in m.nodes
    ensures Outranks(m, leaderDomains, domainOf, a, b) <==>
              Score(m, leaderDomains, domainOf, a) > Score(m, leaderDomains, domainOf, b)
              || (Score(m, leaderDomains, domainOf, a) == Score(m, leaderDomains, domainOf, b) && StrCmp(KeyText(a), KeyText(b)) < 0)
  {}

  method ScoreOf(n: MeshNode, leaderDomains: set<string>, domainOf: Domains, ghost m: Mesh) returns (score: nat)
    requires n.id in m.nodes && m.nodes[n.id] == n.View()
    ensures score == Score(m, leaderDomains, domainOf, n.id)
  {
    score := 0;
    if |n.children| > 0 {
      score := score + 2;
    }
    var d := domainOf(n.listenAddr);
    if d == "" || d !in leaderDomains {
      score := score + 1;
    }
  }

  // At most one promotion, only into an open slot: the online leaders gain
  // exactly the best candidate, its subtree moves with it, and nobody else is
  // reparented.  That it adds one to their number takes a leader set without
  // agents of another role, as every linked mesh has.
  method FillVacantZoneLeaderSlot(t: MeshTopology, want: int, flaky: set<AgentId>, domainOf: Domains) returns (promoted: seq<AgentId>)
    requires t.Valid()
    modifies t`zoneLeaders, t.nodes.Values
    ensures t.Valid() && Kept(old(t.View()), t.View()) && (IsForest(old(t.View())) ==> IsForest(t.View()))
    ensures promoted == [] <==> |OnlineLeaders(old(t.View()))| >= want || forall x :: !MayPromote(old(t.View()), flaky, x)
    ensures promoted == [] ==> t.View() == old(t.View())
    ensures promoted != [] ==>
              && |promoted| == 1
              && IsBest(old(t.View()), flaky, OccupiedBy(old(t.View()), domainOf).domains, domainOf, promoted[0])
              && TookSlot(old(t.View()), t.View(), promoted[0])
              && (LeadersHaveRole(old(t.View())) ==> |OnlineLeaders(t.View())| == |OnlineLeaders(old(t.View()))| + 1 <= want)
  {
    hide Coherent, Linked, Acyclic, OnlineLeaders, IsBest, OccupiedBy, TookSlot, LeadersHaveRole;
    promoted := [];
    var have := CountOnlineZoneLeaders(t);
    if have >= want {
      return;
    }
    var ok, id := FindPromotionCandidate(t, flaky, domainOf);
    if !ok {
      return;
    }
    ghost var m := t.View();
    BestMayBePromoted(m, flaky, OccupiedBy(m, domainOf).domains, domainOf, id);
    ApplyKeeps(m, PromoteStep(id));
    if IsForest(m) { ApplyForestIff(m, PromoteStep(id)); }
    t.AssignZoneLeader(id);
    PromotionTakesSlot(m, id);
    promoted := [id];
  }

  lemma BestMayBePromoted(m: Mesh, flaky: set<AgentId>, leaderDomains: set<string>, domainOf: Domains, id: AgentId)
    requires IsBest(m, flaky, leaderDomains, domainOf, id)
    ensures MayPromote(m, flaky, id)
  {}

  ghost predicate TookSlot(m: Mesh, m': Mesh, id: AgentId) {
    && OnlineLeaders(m') == OnlineLeaders(m) + {id}
    && m'.nodes.Keys == m.nodes.Keys
    && (forall x <- m.nodes :: m'.nodes[x].parent == if x == id then NoAgent else m.nodes[x].parent)
    && Subtree(m', id) == Subtree(m, id)
  }

  // An agent whose role is not that of a leader is not in the leader set.
  ghost predicate LeadersHaveRole(m: Mesh) {
    forall id <- m.leaders :: id in m.nodes && m.nodes[id].role == ZoneLeader
  }

  lemma PromotionTakesSlot(m: Mesh, id: AgentId)
    requires NoAgent !in m.nodes && id in m.nodes && m.nodes[id].online && m.nodes[id].role != ZoneLeader
    ensures TookSlot(m, Forest.AssignZoneLeader(m, id), id)
    ensures LeadersHaveRole(m) ==> |OnlineLeaders(Forest.AssignZoneLeader(m, id))| == |OnlineLeaders(m)| + 1
  {
    var m' := Forest.AssignZoneLeader(m, id);
    assert m'.nodes.Keys == m.nodes.Keys && m'.leaders == m.leaders + {id};
    assert forall x <- m.nodes :: m'.nodes[x].online == m.nodes[x].online && (x != id ==> m'.nodes[x].parent == m.nodes[x].parent);
    hide Forest.AssignZoneLeader, Subtree;
    assert OnlineLeaders(m') == OnlineLeaders(m) + {id};
    ReparentKeepsSubtree(m, m', id);
  }
}
