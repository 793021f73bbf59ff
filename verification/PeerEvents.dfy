// What the server does to the topology when agents report that they attached,
// were lost, closed their stream, or need a new parent.
module PeerEvents {
  import opened Agents
  import opened Forest
  import opened MeshWalks
  import opened MeshTopology

  datatype OriginMode = Off | Observe | Enforce

  // May the sender of a message speak for the agent it names?
  ghost predicate OriginOk(m: Mesh, mode: OriginMode, origin: AgentId, claimed: AgentId) {
    || mode != Enforce
    || (origin != NoAgent && (claimed == origin || (origin in m.nodes && Reaches(m, claimed, origin))))
  }

  // Where it is enforced, an agent on a forest may speak for those beneath it and for
  // itself, never for one above it or beside it, and without an origin for nobody.
  lemma OriginSpeaksDownwards(m: Mesh, origin: AgentId, claimed: AgentId)
    requires IsForest(m) && origin in m.nodes && claimed in m.nodes
    ensures OriginOk(m, Enforce, origin, claimed) <==> claimed in Subtree(m, origin)
    ensures OriginOk(m, Enforce, origin, claimed) && origin != claimed ==> !OriginOk(m, Enforce, claimed, origin)
    ensures !OriginOk(m, Enforce, NoAgent, claimed) && OriginOk(m, Observe, NoAgent, claimed) && OriginOk(m, Off, NoAgent, claimed)
  {
    assert Up(m, origin, 0) == origin;
    if i: nat, j: nat :| Up(m, claimed, i) == origin && Up(m, origin, j) == claimed && origin != claimed {
      UpCompose(m, claimed, i, j);
      assert false;
    }
  }

  method OriginAllows(t: MeshTopology, mode: OriginMode, origin: AgentId, claimed: AgentId) returns (ok: bool)
    requires t.Valid()
    ensures ok <==> OriginOk(t.View(), mode, origin, claimed)
  {
    if mode == Off {
      return true;
    }
    if origin != NoAgent {
      if claimed == origin {
        return true;
      }
      var within := t.IsWithinSubtree(origin, claimed);
      if within {
        return true;
      }
    }
    return mode != Enforce;
  }

  // The mesh after an accepted attachment report: the link is recorded when it
  // can be, and the agent is reachable again with all whom child sets lead to from
  // it, on a linked mesh its whole subtree.
  ghost function Reattached(m: Mesh, id: AgentId, parentID: AgentId): Mesh {
    var placed := AttachObserved(m, id, parentID);
    SetOnline(placed, ChildTree(placed, id), true)
  }

  // Whether the walk the report triggers stops; on a forest it always does.
  ghost predicate ReportEnds(m: Mesh, id: AgentId, parentID: AgentId) {
    id != parentID && id in m.nodes && parentID in m.nodes ==> WalkEnds(m, parentID, id)
  }

  lemma ForestReportsEnd(m: Mesh, id: AgentId, parentID: AgentId)
    requires IsForest(m)
    ensures ReportEnds(m, id, parentID)
  {
    AcyclicWalksEnd(m, parentID, id);
  }

  method HandlePeerConnected(t: MeshTopology, mode: OriginMode, origin: AgentId, id: AgentId, parentID: AgentId)
    requires t.Valid() && Coherent(t.View())
    requires OriginOk(t.View(), mode, origin, parentID) ==> ReportEnds(t.View(), id, parentID)
    modifies t`zoneLeaders, t.nodes.Values
    ensures t.Valid() && Kept(old(t.View()), t.View()) && (IsForest(old(t.View())) ==> IsForest(t.View()))
    ensures t.View() ==
              if id == NoAgent || parentID == NoAgent || !OriginOk(old(t.View()), mode, origin, parentID) then old(t.View())
              else Reattached(old(t.View()), id, parentID)
  {
    hide OriginOk, Coherent, Linked, Acyclic, ReportEnds;
    if id == NoAgent || parentID == NoAgent {
      return;
    }
    var allowed := OriginAllows(t, mode, origin, parentID);
    if !allowed {
      return;
    }
    CommitReattachment(t, id, parentID);
  }

  method CommitReattachment(t: MeshTopology, id: AgentId, parentID: AgentId)
    requires t.Valid() && Coherent(t.View()) && id != NoAgent && ReportEnds(t.View(), id, parentID)
    modifies t`zoneLeaders, t.nodes.Values
    ensures t.Valid() && Kept(old(t.View()), t.View()) && (IsForest(old(t.View())) ==> IsForest(t.View()))
    ensures t.View() == Reattached(old(t.View()), id, parentID)
  {
    hide SetOnline, Coherent, Linked, Acyclic, ChildTree, Elems, AttachObserved, MayAttachObserved, MeshTopology.View, MeshTopology.Valid;
    t.KeysAreNodes();
    ghost var m := t.View();
    var recorded := t.AttachObserved(id, parentID);
    ApplyKeeps(m, ObserveStep(id, parentID));
    if IsForest(m) { ApplyForestIff(m, ObserveStep(id, parentID)); }
    ghost var placed := t.View();
    t.KeysAreNodes();
    var subtree := t.SubtreeIDs(id);
    ElemsCons(id, subtree);
    MarkAllOnline(t, [id] + subtree);
    OnlyKnownMatter(placed, id, Elems([id] + subtree));
    ApplyKeeps(placed, OnlineStep(ChildTree(placed, id), true));
    if IsForest(m) { OnlineForest(placed, ChildTree(placed, id), true); }
  }

  method MarkAllOnline(t: MeshTopology, ids: seq<AgentId>)
    requires t.Valid()
    modifies t.nodes.Values
    ensures t.Valid() && t.View() == SetOnline(old(t.View()), Elems(ids), true)
  {
    hide SetOnline, Elems;
    ghost var m := t.View();
    ElemsSnoc<AgentId>([], NoAgent);
    SetOnlineNone(m);
    for i := 0 to |ids|
      invariant t.Valid() && t.View() == SetOnline(m, Elems(ids[..i]), true)
    {
      SetOnlineMore(m, Elems(ids[..i]), ids[i], true);
      ElemsSnoc(ids[..i], ids[i]);
      assert ids[..i + 1] == ids[..i] + [ids[i]];
      t.MarkOnline(ids[i]);
    }
    assert ids[..|ids|] == ids;
  }

  lemma SetOnlineNone(m: Mesh)
    ensures SetOnline(m, {}, true) == m
  {}

  lemma ElemsCons(x: AgentId, s: seq<AgentId>)
    ensures Elems([x] + s) == {x} + Elems(s)
    ensures Elems<AgentId>([]) == {}
  {}

  // Marking an unknown agent online does nothing; a known one is in its child tree.
  lemma OnlyKnownMatter(m: Mesh, id: AgentId, ids: set<AgentId>)
    requires Coherent(m) && id != NoAgent
    requires ids == {id} + (if id in m.nodes then ChildTree(m, id) else {})
    ensures SetOnline(m, ids, true) == SetOnline(m, ChildTree(m, id), true)
  {
    assert Up(Agreed(m), id, 0) == id;
    if id !in m.nodes {
      forall x, k: nat | x in m.nodes ensures Up(Agreed(m), x, k) != id {
        AgreedUpKnown(m, x, k);
      }
    }
  }

  lemma {:induction false} AgreedUpKnown(m: Mesh, x: AgentId, k: nat)
    requires Coherent(m) && x in m.nodes
    ensures Up(Agreed(m), x, k) in m.nodes || Up(Agreed(m), x, k) == NoAgent
    decreases k
  {
    if k > 0 {
      var p := Agreed(m).nodes[x].parent;
      if p == NoAgent { UpEnds(Agreed(m), k - 1); } else { AgreedUpKnown(m, p, k - 1); }
    }
  }

  lemma OnlineForest(m: Mesh, ids: set<AgentId>, online: bool)
    requires IsForest(m)
    ensures IsForest(SetOnline(m, ids, online))
  {
    OnlineLinked(m, ids, online);
    PruneAcyclic(m, SetOnline(m, ids, online));
  }

  // Reparenting an agent takes its subtree along unchanged.
  lemma ReparentKeepsSubtree(m: Mesh, m': Mesh, id: AgentId)
    requires id in m.nodes && m'.nodes.Keys == m.nodes.Keys
    requires forall x <- m.nodes :: x != id ==> m'.nodes[x].parent == m.nodes[x].parent
    ensures Subtree(m', id) == Subtree(m, id)
  {
    forall x <- m.nodes ensures Reaches(m, x, id) <==> Reaches(m', x, id) {
      if b: nat :| Up(m, x, b) == id {
        var k := FirstMeeting(m, x, id, b);
        UpAgree(m, m', id, x, k);
      }
      if b: nat :| Up(m', x, b) == id {
        var k := FirstMeeting(m', x, id, b);
        UpAgree(m', m, id, x, k);
      }
    }
  }

  lemma MoveKeepsSubtree(m: Mesh, id: AgentId, parentID: AgentId)
    requires IsForest(m) && MayAttachObserved(m, id, parentID)
    ensures Subtree(Place(m, id, parentID), id) == Subtree(m, id)
  {
    LinkedHolds(m, id);
    PlaceMoves(m, id, parentID);
    ReparentKeepsSubtree(m, Place(m, id, parentID), id);
  }

  // A loss report followed by the agent's reattachment undoes the outage for
  // exactly the agents it hit: afterwards the lost subtree is online beneath
  // its new parent, and nobody else has changed.
  lemma LossThenReattach(m: Mesh, id: AgentId, parentID: AgentId)
    requires IsForest(m) && MayAttachObserved(m, id, parentID)
    ensures var back := Reattached(Forest.MarkSubtreeOffline(m, id), id, parentID);
            && back.nodes.Keys == m.nodes.Keys
            && forall x <- m.nodes ::
                 && back.nodes[x].online == (x in Subtree(m, id) || m.nodes[x].online)
                 && back.nodes[x].parent == (if x == id then parentID else m.nodes[x].parent)
  {
    hide Place, Coherent, Linked, Acyclic, Reaches, Agreed, ChildTree;
    var lost := Forest.MarkSubtreeOffline(m, id);
    LinkedAgrees(m);
    OnlineForest(m, Subtree(m, id), false);
    OnlineSameChains(m, Subtree(m, id), false);
    LinkedHolds(lost, id);
    PlaceNodes(lost, id, parentID);
    PlaceLinked(lost, id, parentID);
    LinkedAgrees(Place(lost, id, parentID));
    MoveKeepsSubtree(lost, id, parentID);
  }

  lemma OnlineSameChains(m: Mesh, ids: set<AgentId>, online: bool)
    ensures forall x, k: nat :: Up(SetOnline(m, ids, online), x, k) == Up(m, x, k)
    ensures forall root :: Subtree(SetOnline(m, ids, online), root) == Subtree(m, root)
  {
    var m' := SetOnline(m, ids, online);
    forall x, k: nat ensures Up(m', x, k) == Up(m, x, k) {
      SameParentsUp(m, m', x, k);
    }
    forall root ensures Subtree(m', root) == Subtree(m, root) {
      forall x <- m.nodes ensures Reaches(m', x, root) <==> Reaches(m, x, root) {}
    }
  }

  // notified: whom in-flight broadcasts are told to stop waiting for.
  method HandlePeerDisconnected(t: MeshTopology, mode: OriginMode, origin: AgentId, deadID: AgentId) returns (notified: seq<AgentId>)
    requires t.Valid() && Coherent(t.View())
    modifies t.nodes.Values
    ensures t.Valid() && Kept(old(t.View()), t.View()) && (IsForest(old(t.View())) ==> IsForest(t.View()))
    ensures deadID == NoAgent || !OriginOk(old(t.View()), mode, origin, deadID) ==> notified == [] && t.View() == old(t.View())
    ensures deadID != NoAgent && OriginOk(old(t.View()), mode, origin, deadID) ==> LostSubtree(old(t.View()), t.View(), deadID, notified)
  {
    hide Coherent, Linked, Acyclic, OriginOk, LostSubtree, MeshTopology.View, MeshTopology.Valid;
    if deadID == NoAgent {
      return [];
    }
    var allowed := OriginAllows(t, mode, origin, deadID);
    if !allowed {
      return [];
    }
    notified := LoseSubtree(t, deadID);
  }

  // All whom child sets lead to are offline, on a linked mesh the whole subtree,
  // and the notified agents are those of them that were online, or the lost agent
  // alone when that is nobody.
  ghost predicate LostSubtree(m: Mesh, m': Mesh, id: AgentId, notified: seq<AgentId>) {
    var hit := if id in m.nodes then OnlineAmong(m, ChildTree(m, id)) else {};
    && m' == Forest.MarkSubtreeOffline(m, id)
    && NoDups(notified)
    && Elems(notified) == if hit == {} then {id} else hit
  }

  ghost predicate Lost(m: Mesh, id: AgentId, x: AgentId) {
    x in m.nodes && m.nodes[x].online && Reaches(m, x, id)
  }

  // In the fields of the nodes, on a linked mesh.
  lemma LossMeans(m: Mesh, m': Mesh, id: AgentId, notified: seq<AgentId>)
    requires Linked(m) && id != NoAgent && LostSubtree(m, m', id, notified)
    ensures m'.nodes.Keys == m.nodes.Keys
    ensures forall x <- m.nodes :: m'.nodes[x].online == (m.nodes[x].online && !Lost(m, id, x))
    ensures NoDups(notified)
    ensures forall x :: x in notified <==> if exists y :: Lost(m, id, y) then Lost(m, id, x) else x == id
  {
    LinkedAgrees(m);
    if id !in m.nodes {
      forall x, k: nat | x in m.nodes ensures Up(m, x, k) != id { AgreedUpKnown(m, x, k); }
    }
    var hit := if id in m.nodes then OnlineAmong(m, Subtree(m, id)) else {};
    forall x ensures x in hit <==> Lost(m, id, x) {}
    forall x ensures x in notified <==> x in Elems(notified) {}
  }

  method LoseSubtree(t: MeshTopology, id: AgentId) returns (notified: seq<AgentId>)
    requires t.Valid() && Coherent(t.View())
    modifies t.nodes.Values
    ensures t.Valid() && Kept(old(t.View()), t.View()) && (IsForest(old(t.View())) ==> IsForest(t.View()))
    ensures LostSubtree(old(t.View()), t.View(), id, notified)
  {
    hide SetOnline, Coherent, Linked, Acyclic, ChildTree, OnlineAmong, NoDups, MeshTopology.View, MeshTopology.Valid;
    t.KeysAreNodes();
    ghost var m := t.View();
    notified := t.MarkSubtreeOffline(id);
    ApplyKeeps(m, SubtreeOfflineStep(id));
    if IsForest(m) { OnlineForest(m, ChildTree(m, id), false); }
    if notified == [] {
      notified := [id];
      OnlyOne(id);
    } else {
      assert notified[0] in Elems(notified);
    }
  }

  lemma OnlyOne(id: AgentId)
    ensures NoDups([id]) && Elems([id]) == {id}
  {}

  // reassigned: the agent was told to move, so its stream closing is no loss.
  method CloseAgentStream(t: MeshTopology, streams: set<AgentId>, id: AgentId, reassigned: bool)
    returns (remaining: set<AgentId>, notified: seq<AgentId>)
    requires t.Valid() && Coherent(t.View())
    modifies t.nodes.Values
    ensures t.Valid() && Kept(old(t.View()), t.View()) && (IsForest(old(t.View())) ==> IsForest(t.View()))
    ensures remaining == streams - {id}
    ensures reassigned ==> notified == [] && t.View() == old(t.View())
    ensures !reassigned ==> LostSubtree(old(t.View()), t.View(), id, notified)
  {
    remaining, notified := streams - {id}, [];
    if !reassigned {
      notified := LoseSubtree(t, id);
    }
  }

  // --------------------------------------------------------------------
  // Asking for a parent
  // --------------------------------------------------------------------

  datatype PeerResponse = BecomeLeader | JoinParent(parentID: AgentId)

  // What an answer makes of the mesh.
  ghost function Answered(m: Mesh, id: AgentId, r: PeerResponse): Mesh {
    match r
    case BecomeLeader => AssignZoneLeader(m, id)
    case JoinParent(p) => if id in m.nodes && p in m.nodes then Place(m, id, p) else m
  }

  // The answers RequestPeers may give: an unbeaten parent, or a leader slot when
  // there is none or the unbeaten parent that came up is the asker itself.
  ghost predicate PeersAnswer(m: Mesh, cfg: Placement, id: AgentId, r: PeerResponse) {
    match r
    case JoinParent(p) => p != id && Unbeaten(m, cfg, p)
    case BecomeLeader => NobodyHasRoom(m, cfg) || Unbeaten(m, cfg, id)
  }

  // The answers a registration may get: an unbeaten parent, the agent itself
  // not excluded, and a leader slot only when nobody has room.
  ghost predicate RelayAnswer(m: Mesh, cfg: Placement, id: AgentId, r: PeerResponse) {
    match r
    case JoinParent(p) => id in m.nodes && Unbeaten(m, cfg, p)
    case BecomeLeader => id !in m.nodes || NobodyHasRoom(m, cfg)
  }

  // Nobody is sent to a parent without room, and RequestPeers sends nobody to itself;
  // a leader is made where nobody has room, of a known agent that registers only
  // there, and of one that asks for a parent otherwise only if it could be one itself.
  lemma AnswersMean(m: Mesh, cfg: Placement, id: AgentId, r: PeerResponse)
    requires id in m.nodes
    ensures r.JoinParent? && (PeersAnswer(m, cfg, id, r) || RelayAnswer(m, cfg, id, r)) ==> HasRoom(m, cfg, r.parentID)
    ensures PeersAnswer(m, cfg, id, r) ==> r != JoinParent(id)
    ensures RelayAnswer(m, cfg, id, BecomeLeader) <==> forall x :: !HasRoom(m, cfg, x)
    ensures PeersAnswer(m, cfg, id, BecomeLeader) ==> HasRoom(m, cfg, id) || forall x :: !HasRoom(m, cfg, x)
    ensures (forall x :: !HasRoom(m, cfg, x)) ==> (PeersAnswer(m, cfg, id, r) <==> r == BecomeLeader)
  {
    UnbeatenMeans(m, cfg, id);
    if r.JoinParent? { UnbeatenMeans(m, cfg, r.parentID); }
  }

  lemma AnsweredKept(m: Mesh, id: AgentId, r: PeerResponse)
    ensures Kept(m, Answered(m, id, r))
  {
    hide Coherent, Linked, AssignZoneLeader, Place;
    ApplyKeeps(m, PromoteStep(id));
    if r.JoinParent? && id in m.nodes && r.parentID in m.nodes {
      if Coherent(m) { PlaceCoherent(m, id, r.parentID); }
      if Linked(m) { PlaceLinked(m, id, r.parentID); }
    }
  }

  // An answer keeps a forest exactly when it does not offer a known agent a
  // parent beneath it.
  lemma AnsweredForestIff(m: Mesh, cfg: Placement, id: AgentId, r: PeerResponse)
    requires IsForest(m) && (r.JoinParent? ==> Unbeaten(m, cfg, r.parentID))
    ensures IsForest(Answered(m, id, r)) <==> (r.JoinParent? && id in m.nodes ==> r.parentID !in Subtree(m, id))
  {
    hide Linked, Acyclic, Subtree;
    ApplyForestIff(m, PromoteStep(id));
    if r.JoinParent? { ApplyForestIff(m, AssignStep(id, r.parentID, cfg.CapacityOf(r.parentID))); }
  }

  // No answer RequestPeers may give breaks a forest exactly when no unbeaten
  // parent other than the asker is in the asker's subtree.
  lemma RequestKeepsForestIff(m: Mesh, cfg: Placement, id: AgentId)
    requires IsForest(m)
    ensures (forall r | PeersAnswer(m, cfg, id, r) :: IsForest(Answered(m, id, r)))
       <==> forall p | Unbeaten(m, cfg, p) && p != id && id in m.nodes :: p !in Subtree(m, id)
  {
    hide IsForest, Unbeaten, Answered, NobodyHasRoom, Subtree;
    forall r | PeersAnswer(m, cfg, id, r)
      ensures IsForest(Answered(m, id, r)) <==> (r.JoinParent? && id in m.nodes ==> r.parentID !in Subtree(m, id))
    {
      AnsweredForestIff(m, cfg, id, r);
    }
    forall p | Unbeaten(m, cfg, p) && p != id ensures PeersAnswer(m, cfg, id, JoinParent(p)) {}
  }

  // For a registration the agent itself counts too: it is in its own subtree.
  lemma RelayKeepsForestIff(m: Mesh, cfg: Placement, id: AgentId)
    requires IsForest(m)
    ensures (forall r | RelayAnswer(m, cfg, id, r) :: IsForest(Answered(m, id, r)))
       <==> forall p | Unbeaten(m, cfg, p) && id in m.nodes :: p !in Subtree(m, id)
  {
    hide IsForest, Unbeaten, Answered, NobodyHasRoom, Subtree;
    forall r | RelayAnswer(m, cfg, id, r)
      ensures IsForest(Answered(m, id, r)) <==> (r.JoinParent? && id in m.nodes ==> r.parentID !in Subtree(m, id))
    {
      AnsweredForestIff(m, cfg, id, r);
    }
    forall p | Unbeaten(m, cfg, p) && id in m.nodes ensures RelayAnswer(m, cfg, id, JoinParent(p)) {}
  }

  // Leaders l and z, and a just added.
  function TwoLeadersAnd(l: AgentId, a: AgentId, z: AgentId, addr: string): Mesh {
    var one := AssignZoneLeader(AddAgent(EMPTY_MESH, l, addr), l);
    AddAgent(AssignZoneLeader(AddAgent(one, z, addr), z), a, addr)
  }

  // Then a has joined beneath l, and l is lost.
  function LostItsLeader(l: AgentId, a: AgentId, z: AgentId, addr: string): Mesh
    requires {l, a} <= TwoLeadersAnd(l, a, z, addr).nodes.Keys
  {
    SetOnline(Place(TwoLeadersAnd(l, a, z, addr), a, l), {l}, false)
  }

  lemma BeforeTheLoss(l: AgentId, a: AgentId, z: AgentId, addr: string)
    requires NoAgent !in {l, a, z} && l != a && a != z && z != l
    ensures var m := TwoLeadersAnd(l, a, z, addr);
            && m.nodes.Keys == {l, a, z} && m.leaders == {l, z}
            && m.nodes[l] == m.nodes[z] == Node(ZoneLeader, NoAgent, {}, 0, true, addr)
            && m.nodes[a] == Node(Unassigned, NoAgent, {}, 0, true, addr)
  {}

  lemma LostShape(l: AgentId, a: AgentId, z: AgentId, addr: string)
    requires NoAgent !in {l, a, z} && l != a && a != z && z != l
    ensures {l, a} <= TwoLeadersAnd(l, a, z, addr).nodes.Keys
    ensures var m := LostItsLeader(l, a, z, addr);
            && m.nodes.Keys == {l, a, z} && m.leaders == {l, z}
            && m.nodes[l] == Node(ZoneLeader, NoAgent, {a}, 0, false, addr)
            && m.nodes[a] == Node(Relay, l, {}, 1, true, addr)
            && m.nodes[z] == Node(ZoneLeader, NoAgent, {}, 0, true, addr)
  {
    hide TwoLeadersAnd, Place;
    BeforeTheLoss(l, a, z, addr);
    OnceJoined(TwoLeadersAnd(l, a, z, addr), l, a, z, addr);
  }

  lemma OnceJoined(before: Mesh, l: AgentId, a: AgentId, z: AgentId, addr: string)
    requires NoAgent !in {l, a, z} && l != a && a != z && z != l
    requires before.nodes.Keys == {l, a, z} && before.leaders == {l, z}
    requires before.nodes[l] == before.nodes[z] == Node(ZoneLeader, NoAgent, {}, 0, true, addr)
    requires before.nodes[a] == Node(Unassigned, NoAgent, {}, 0, true, addr)
    ensures var m := Place(before, a, l);
            && m.nodes.Keys == {l, a, z} && m.leaders == {l, z}
            && m.nodes[l] == Node(ZoneLeader, NoAgent, {a}, 0, true, addr)
            && m.nodes[a] == Node(Relay, l, {}, 1, true, addr)
            && m.nodes[z] == Node(ZoneLeader, NoAgent, {}, 0, true, addr)
  {
    PlaceNodes(before, a, l);
    hide Place;
  }

  // Then a asking for a parent is promoted for certain while z is on probation,
  // although z has room and taking it would have kept the forest: the search
  // comes up with a itself.
  lemma AskerBeatsTheOnlyParent(l: AgentId, a: AgentId, z: AgentId, addr: string, cfg: Placement)
    requires NoAgent !in {l, a, z} && l != a && a != z && z != l && addr != ""
    requires cfg.flaky == {z} && cfg.hot == {} && cfg.maxChildren > 0 && cfg.probationCap > 0
    ensures {l, a} <= TwoLeadersAnd(l, a, z, addr).nodes.Keys
    ensures var m := LostItsLeader(l, a, z, addr);
            && IsForest(m) && {a, z} <= m.nodes.Keys && IsForest(Place(m, a, z)) && IsCandidate(m, cfg, z)
            && forall r :: PeersAnswer(m, cfg, a, r) <==> r == BecomeLeader
  {
    hide TwoLeadersAnd, LostItsLeader, Place;
    LostShape(l, a, z, addr);
    var m := LostItsLeader(l, a, z, addr);
    DepthsGrowAcyclic(m);
    ParentlessNotBeneath(m, a, z);
    PlaceAcyclicIff(m, a, z);
    assert Preferred(m, cfg, a, z);
    assert Unbeaten(m, cfg, a);
  }

  lemma ParentlessNotBeneath(m: Mesh, a: AgentId, z: AgentId)
    requires NoAgent !in m.nodes && a in m.nodes && z in m.nodes && a != z && m.nodes[z].parent == NoAgent
    ensures z !in Subtree(m, a)
  {
    forall k: nat ensures Up(m, z, k) != a {
      if k > 0 { UpEnds(m, k - 1); }
    }
  }

  // The second half of RequestPeers, on the mesh as it is by then.  The parent
  // is named whether or not it still takes the child.
  method AnswerRequest(t: MeshTopology, id: AgentId, found: bool, parentID: AgentId, isFlaky: bool) returns (r: PeerResponse)
    requires t.Valid()
    modifies t`zoneLeaders, t.nodes.Values
    ensures t.Valid() && Kept(old(t.View()), t.View())
    ensures r == if found && parentID != id then JoinParent(parentID) else BecomeLeader
    ensures t.View() ==
              if r.BecomeLeader? then Forest.AssignZoneLeader(old(t.View()), id)
              else Forest.AssignChild(old(t.View()), id, parentID, Capacity(isFlaky, t.maxChildren, t.probationCap))
  {
    hide Coherent, Linked, Forest.AssignZoneLeader, Forest.AssignChild;
    ghost var m := t.View();
    if !found || parentID == id {
      ApplyKeeps(m, PromoteStep(id));
      t.AssignZoneLeader(id);
      return BecomeLeader;
    }
    ApplyKeeps(m, AssignStep(id, parentID, Capacity(isFlaky, t.maxChildren, t.probationCap)));
    var recorded := t.AssignChild(id, parentID, isFlaky);
    return JoinParent(parentID);
  }

  // The second half of a registration's: a parent that no longer takes the child
  // means a leader slot.
  method AnswerRelay(t: MeshTopology, id: AgentId, found: bool, parentID: AgentId, isFlaky: bool) returns (r: PeerResponse)
    requires t.Valid()
    modifies t`zoneLeaders, t.nodes.Values
    ensures t.Valid() && Kept(old(t.View()), t.View())
    ensures r == if found && MayAssignChild(old(t.View()), id, parentID, Capacity(isFlaky, t.maxChildren, t.probationCap)) then JoinParent(parentID) else BecomeLeader
    ensures t.View() == Answered(old(t.View()), id, r)
  {
    hide Coherent, Linked, Forest.AssignZoneLeader, Place;
    AnsweredKept(t.View(), id, BecomeLeader);
    AnsweredKept(t.View(), id, JoinParent(parentID));
    if found {
      var recorded := t.AssignChild(id, parentID, isFlaky);
      if recorded {
        return JoinParent(parentID);
      }
    }
    t.AssignZoneLeader(id);
    return BecomeLeader;
  }

  // When two agents are offered the last place beneath p before either is
  // recorded, both are told p, and the mesh shows only the first one there.
  lemma LastPlaceOfferedTwice(m: Mesh, a: AgentId, b: AgentId, p: AgentId, capacity: int)
    requires Coherent(m) && a != b && b in m.nodes && m.nodes[b].parent != p
    requires MayAssignChild(m, a, p, capacity) && a !in m.nodes[p].children && |m.nodes[p].children| + 1 == capacity
    ensures var m' := Forest.AssignChild(m, a, p, capacity);
            && p in m'.nodes && m'.nodes[p].children == m.nodes[p].children + {a}
            && Forest.AssignChild(m', b, p, capacity) == m' && b !in m'.nodes[p].children
  {
    CoherentHolds(m, a);
    PlaceNodes(m, a, p);
    hide Place;
    assert Place(m, a, p).nodes[p].children == m.nodes[p].children + {a};
  }

  // An agent that lost its parent asks for another.  The answer is recorded
  // without a look at the asker's own subtree.
  method RequestPeers(t: MeshTopology, id: AgentId, flaky: set<AgentId>, hot: set<AgentId>) returns (r: PeerResponse)
    requires t.Valid()
    modifies t`zoneLeaders, t.nodes.Values
    ensures t.Valid() && Kept(old(t.View()), t.View())
    ensures PeersAnswer(old(t.View()), Placement(flaky, hot, t.maxChildren, t.probationCap), id, r)
    ensures t.View() == Answered(old(t.View()), id, r)
  {
    hide Coherent, Linked, Forest.AssignZoneLeader, Place;
    var found, parentID := t.FindShallowestParentWithRoom(flaky, hot);
    r := AnswerRequest(t, id, found, parentID, parentID in flaky);
  }

  // Where a registration that did not win a leader slot ends up: under a parent
  // with room, or promoted when there is none.
  method ApplyRelayAssignment(t: MeshTopology, id: AgentId, flaky: set<AgentId>, hot: set<AgentId>) returns (r: PeerResponse)
    requires t.Valid()
    modifies t`zoneLeaders, t.nodes.Values
    ensures t.Valid() && Kept(old(t.View()), t.View())
    ensures RelayAnswer(old(t.View()), Placement(flaky, hot, t.maxChildren, t.probationCap), id, r)
    ensures t.View() == Answered(old(t.View()), id, r)
  {
    hide Coherent, Linked, Forest.AssignZoneLeader, Place;
    var found, parentID := t.FindShallowestParentWithRoom(flaky, hot);
    r := AnswerRelay(t, id, found, parentID, parentID in flaky);
  }
}
