// Role assignment for a whole batch: leaders by selection, everyone else
// beneath a parent with room.
module BatchAssignment {
  import opened Agents
  import opened Forest
  import opened MeshWalks
  import opened MeshTopology
  import opened PeerEvents
  import opened LeaderSelection

  // The host part of a listen address: what precedes its last colon.
  ghost predicate IsHostOf(host: string, addr: string) {
    || (':' !in addr && host == addr)
    || (host + ":" <= addr && ':' !in addr[|host| + 1..])
  }

  lemma HostUnique(h: string, k: string, addr: string)
    requires IsHostOf(h, addr) && IsHostOf(k, addr)
    ensures h == k
  {
    assert h + ":" <= addr ==> (h + ":")[|h|] == addr[|h|];
    assert k + ":" <= addr ==> (k + ":")[|k|] == addr[|k|];
    if ':' in addr {
      assert forall i | |h| < i < |addr| :: addr[i] == addr[|h| + 1..][i - |h| - 1];
      assert forall i | |k| < i < |addr| :: addr[i] == addr[|k| + 1..][i - |k| - 1];
      assert h == (h + ":")[..|h|] == addr[..|h|] && k == (k + ":")[..|k|] == addr[..|k|];
    }
  }

  function LastColon(s: string): (i: int)
    ensures -1 <= i < |s|
    ensures i >= 0 ==> s[i] == ':' && ':' !in s[i + 1..]
    ensures i == -1 ==> ':' !in s
  {
    if s == [] then -1
    else if s[|s| - 1] == ':' then |s| - 1
    else
      var i := LastColon(s[..|s| - 1]);
      assert s == s[..|s| - 1] + [s[|s| - 1]];
      i
  }

  function IpOfListen(addr: string): (host: string)
    ensures IsHostOf(host, addr)
  {
    var i := LastColon(addr);
    if i >= 0 then addr[..i] else addr
  }

  // How registration writes an agent's listen address: the source IP it saw and
  // the port the agent named, with brackets round an IP that contains colons.
  function JoinHostPort(host: string, port: string): string {
    if ':' in host then "[" + host + "]:" + port else host + ":" + port
  }

  // So a leader's listen address names its source IP only without the brackets:
  // an IPv6 leader never counts as occupying its own IP.
  lemma OwnIPRecognisedIff(host: string, port: string)
    requires ':' !in port
    ensures IpOfListen(JoinHostPort(host, port)) == host <==> ':' !in host
  {
    var inner := if ':' in host then "[" + host + "]" else host;
    var addr := JoinHostPort(host, port);
    assert addr == inner + ":" + port && addr[|inner| + 1..] == port;
    HostUnique(inner, IpOfListen(addr), addr);
    assert ':' in host ==> |inner| == |host| + 2;
  }

  ghost function OnlineLeaders(m: Mesh): set<AgentId> {
    set id | id in m.leaders && id in m.nodes && m.nodes[id].online
  }

  // The IPs and failure domains these agents listen in.
  ghost function OccupiedAmong(m: Mesh, ids: set<AgentId>, domainOf: Domains): Occupied {
    Occupied(
      set id <- ids | id in m.nodes :: IpOfListen(m.nodes[id].listenAddr),
      (set id <- ids | id in m.nodes :: domainOf(m.nodes[id].listenAddr)) - {""})
  }

  ghost function OccupiedBy(m: Mesh, domainOf: Domains): Occupied {
    OccupiedAmong(m, OnlineLeaders(m), domainOf)
  }

  // An IP or a failure domain is occupied exactly when some online leader listens on
  // it or in it.
  lemma OccupiedMeans(m: Mesh, domainOf: Domains, ip: string, domain: string)
    ensures ip in OccupiedBy(m, domainOf).ips <==>
              exists z <- m.leaders :: z in m.nodes && m.nodes[z].online && IsHostOf(ip, m.nodes[z].listenAddr)
    ensures domain in OccupiedBy(m, domainOf).domains <==>
              domain != "" && exists z <- m.leaders :: z in m.nodes && m.nodes[z].online && domainOf(m.nodes[z].listenAddr) == domain
  {
    forall z <- m.leaders | z in m.nodes ensures IsHostOf(ip, m.nodes[z].listenAddr) <==> IpOfListen(m.nodes[z].listenAddr) == ip {
      if IsHostOf(ip, m.nodes[z].listenAddr) { HostUnique(ip, IpOfListen(m.nodes[z].listenAddr), m.nodes[z].listenAddr); }
    }
    hide IsHostOf, IpOfListen;
  }

  lemma OneMoreOccupies(m: Mesh, ids: set<AgentId>, id: AgentId, domainOf: Domains)
    requires id in m.nodes
    ensures OccupiedAmong(m, ids + {id}, domainOf).ips == OccupiedAmong(m, ids, domainOf).ips + {IpOfListen(m.nodes[id].listenAddr)}
    ensures OccupiedAmong(m, ids + {id}, domainOf).domains == OccupiedAmong(m, ids, domainOf).domains + ({domainOf(m.nodes[id].listenAddr)} - {""})
  {
    assert id in ids + {id};
  }

  lemma NobodyOccupies(m: Mesh, domainOf: Domains)
    ensures OccupiedAmong(m, {}, domainOf) == Occupied({}, {})
  {}

  method CountOnlineZoneLeaders(t: MeshTopology) returns (count: nat)
    requires t.Valid()
    ensures count == |OnlineLeaders(t.View())|
  {
    ghost var m := t.View();
    ghost var done: set<AgentId> := {};
    count := 0;
    var rest := t.zoneLeaders;
    while rest != {}
      invariant rest <= t.zoneLeaders
      invariant done == (set id | id in OnlineLeaders(m) && id !in rest) && count == |done|
      decreases rest
    {
      var id :| id in rest;
      rest := rest - {id};
      if id in t.nodes && t.nodes[id].online {
        assert m.nodes[id].online;
        assert (set x | x in OnlineLeaders(m) && x !in rest) == done + {id};
        done := done + {id};
        count := count + 1;
      } else {
        assert id !in OnlineLeaders(m);
      }
    }
    assert done == OnlineLeaders(m);
  }

  method SurveyLeaders(t: MeshTopology, domainOf: Domains) returns (taken: Occupied)
    requires t.Valid()
    ensures taken == OccupiedBy(t.View(), domainOf)
  {
    hide OccupiedAmong;
    ghost var m := t.View();
    ghost var done: set<AgentId> := {};
    var ipHasZL: set<string>, domainHasZL: set<string> := {}, {};
    NobodyOccupies(m, domainOf);
    var rest := t.zoneLeaders;
    while rest != {}
      invariant rest <= t.zoneLeaders
      invariant done == (set id | id in OnlineLeaders(m) && id !in rest)
      invariant OccupiedAmong(m, done, domainOf) == Occupied(ipHasZL, domainHasZL)
      decreases rest
    {
      var id :| id in rest;
      rest := rest - {id};
      if id in t.nodes && t.nodes[id].online {
        var n := t.nodes[id];
        assert m.nodes[id] == n.View();
        assert (set x | x in OnlineLeaders(m) && x !in rest) == done + {id};
        OneMoreOccupies(m, done, id, domainOf);
        done := done + {id};
        ipHasZL := ipHasZL + {IpOfListen(n.listenAddr)};
        var d := domainOf(n.listenAddr);
        if d != "" {
          domainHasZL := domainHasZL + {d};
        }
      } else {
        assert id !in OnlineLeaders(m);
      }
    }
    assert done == OnlineLeaders(m);
    taken := Occupied(ipHasZL, domainHasZL);
  }

  // --------------------------------------------------------------------
  // Seats
  // --------------------------------------------------------------------

  // The mesh shows id in the place it was told to take.
  ghost predicate Seated(m: Mesh, id: AgentId, r: PeerResponse) {
    id in m.nodes && match r
      case BecomeLeader => m.nodes[id].role == ZoneLeader
      case JoinParent(p) => m.nodes[id].role == Relay && m.nodes[id].parent == p
  }

  // Without children and nobody's possible parent: not placed yet, as an agent is
  // right after AddAgent, or with no address to be reached at.
  ghost predicate OnlyLeaf(m: Mesh, id: AgentId) {
    id in m.nodes ==> m.nodes[id].children == {} && (m.nodes[id].role == Unassigned || m.nodes[id].listenAddr == "")
  }

  // A node without its child set.
  function Bare(n: Node): Node {
    n.(children := {})
  }

  lemma UnlinkWrites(m: Mesh, id: AgentId)
    requires id in m.nodes
    ensures Unlink(m, id).nodes.Keys == m.nodes.Keys && forall x <- m.nodes :: Bare(Unlink(m, id).nodes[x]) == Bare(m.nodes[x])
  {}

  lemma PromotionWrites(m: Mesh, id: AgentId)
    requires id in m.nodes
    ensures var m', n := Forest.AssignZoneLeader(m, id), m.nodes[id];
            && m'.nodes.Keys == m.nodes.Keys
            && forall x <- m.nodes :: Bare(m'.nodes[x]) == if x == id then Node(ZoneLeader, NoAgent, {}, 0, n.online, n.listenAddr) else Bare(m.nodes[x])
  {
    UnlinkWrites(m, id);
    hide Unlink;
  }

  lemma PlacementWrites(m: Mesh, id: AgentId, parentID: AgentId)
    requires id in m.nodes && parentID in m.nodes
    ensures var m', n := Place(m, id, parentID), m.nodes[id];
            && m'.nodes.Keys == m.nodes.Keys
            && forall x <- m.nodes :: Bare(m'.nodes[x]) == if x == id then Node(Relay, parentID, {}, m.nodes[parentID].depth + 1, n.online, n.listenAddr) else Bare(m.nodes[x])
  {
    UnlinkWrites(m, id);
    hide Unlink;
  }

  // What an answer writes about where agents sit, child sets aside.
  lemma AnswerWrites(m: Mesh, id: AgentId, r: PeerResponse)
    ensures var m' := Answered(m, id, r);
            && m'.nodes.Keys == m.nodes.Keys
            && (forall x <- m.nodes :: m'.nodes[x].listenAddr == m.nodes[x].listenAddr)
            && (forall x <- m.nodes | x != id :: m'.nodes[x].role == m.nodes[x].role && m'.nodes[x].parent == m.nodes[x].parent)
            && (id in m.nodes && r.BecomeLeader? ==> m'.nodes[id].role == ZoneLeader)
            && (id in m.nodes && r.JoinParent? && r.parentID in m.nodes ==> m'.nodes[id].role == Relay && m'.nodes[id].parent == r.parentID)
  {
    if id !in m.nodes {
      UnknownUnmoved(m, id);
    } else if r.BecomeLeader? {
      PromotionWrites(m, id);
      SeatsOf(m, Answered(m, id, r));
    } else if r.parentID in m.nodes {
      PlacementWrites(m, id, r.parentID);
      SeatsOf(m, Answered(m, id, r));
    }
  }

  lemma SeatsOf(m: Mesh, m': Mesh)
    ensures forall x <- m.nodes :: Bare(m.nodes[x]).role == m.nodes[x].role && Bare(m.nodes[x]).parent == m.nodes[x].parent && Bare(m.nodes[x]).listenAddr == m.nodes[x].listenAddr
    ensures forall x <- m'.nodes :: Bare(m'.nodes[x]).role == m'.nodes[x].role && Bare(m'.nodes[x]).parent == m'.nodes[x].parent && Bare(m'.nodes[x]).listenAddr == m'.nodes[x].listenAddr
  {}

  // An answer seats its agent and disturbs no other seat.
  lemma AnswerSeats(m: Mesh, id: AgentId, r: PeerResponse)
    requires r.JoinParent? ==> id in m.nodes && r.parentID in m.nodes
    ensures Answered(m, id, r).nodes.Keys == m.nodes.Keys
    ensures id in m.nodes ==> Seated(Answered(m, id, r), id, r)
    ensures forall x, q | x != id && Seated(m, x, q) :: Seated(Answered(m, id, r), x, q)
  {
    AnswerWrites(m, id, r);
    hide Answered;
  }

  lemma AnswerLeavesLeaf(m: Mesh, id: AgentId, r: PeerResponse)
    requires Coherent(m)
    requires r.JoinParent? ==> id in m.nodes && r.parentID in m.nodes && !OnlyLeaf(m, r.parentID)
    ensures forall x | x != id && OnlyLeaf(m, x) :: OnlyLeaf(Answered(m, id, r), x)
  {
    hide Place, Forest.AssignZoneLeader, HeldOnlyByParent;
    AnswerWrites(m, id, r);
    if id in m.nodes {
      CoherentHolds(m, id);
      if r.JoinParent? {
        PlaceMoves(m, id, r.parentID);
        MoveLeavesLeaf(m, Answered(m, id, r), id, r.parentID, Relay);
      } else {
        AssignZoneLeaderMoves(m, id);
        MoveLeavesLeaf(m, Answered(m, id, r), id, NoAgent, ZoneLeader);
      }
    } else {
      UnknownUnmoved(m, id);
    }
  }

  lemma UnknownUnmoved(m: Mesh, id: AgentId)
    requires id !in m.nodes
    ensures Forest.AssignZoneLeader(m, id) == m
  {}

  lemma MoveLeavesLeaf(m: Mesh, m': Mesh, id: AgentId, parent: AgentId, role: Role)
    requires id in m.nodes && Moved(m, m', id, parent, role)
    requires forall x <- m.nodes :: x in m'.nodes && m'.nodes[x].listenAddr == m.nodes[x].listenAddr
    requires parent in m.nodes ==> !OnlyLeaf(m, parent)
    ensures forall x | x != id && OnlyLeaf(m, x) :: OnlyLeaf(m', x)
  {}

  lemma LeafSubtree(m: Mesh, id: AgentId)
    requires Linked(m) && id in m.nodes && m.nodes[id].children == {}
    ensures Subtree(m, id) == {id}
  {
    assert Up(m, id, 0) == id;
    LinkedAgrees(m);
    ClosedIsChildTree(m, id, {id});
  }

  ghost predicate DistinctAgents(batch: seq<Reg>) {
    forall i, j | 0 <= i < j < |batch| :: batch[i].agent != batch[j].agent
  }

  ghost predicate AllOnlyLeaves(m: Mesh, batch: seq<Reg>, except: set<nat>) {
    forall i | 0 <= i < |batch| && i !in except :: OnlyLeaf(m, batch[i].agent)
  }

  // Every index answered so far is seated accordingly.
  ghost predicate AllSeated(m: Mesh, batch: seq<Reg>, out: map<nat, PeerResponse>) {
    forall i <- out :: i < |batch| && (batch[i].agent in m.nodes ==> Seated(m, batch[i].agent, out[i]))
  }

  ghost predicate Going(m: Mesh, m0: Mesh, batch: seq<Reg>, out: map<nat, PeerResponse>) {
    && Kept(m0, m) && m.nodes.Keys == m0.nodes.Keys
    && (DistinctAgents(batch) ==> AllSeated(m, batch, out))
    && (DistinctAgents(batch) && IsForest(m0) && AllOnlyLeaves(m0, batch, {}) ==> IsForest(m) && AllOnlyLeaves(m, batch, out.Keys))
  }

  lemma AnswerKeepsGoing(m: Mesh, m0: Mesh, cfg: Placement, batch: seq<Reg>, out: map<nat, PeerResponse>, i: nat, r: PeerResponse)
    requires Going(m, m0, batch, out) && i < |batch| && i !in out
    requires r.BecomeLeader? || RelayAnswer(m, cfg, batch[i].agent, r)
    ensures Going(Answered(m, batch[i].agent, r), m0, batch, out[i := r])
  {
    hide Coherent, Linked, Acyclic, Answered, Subtree;
    var id := batch[i].agent;
    AnsweredKept(m, id, r);
    AnswerSeats(m, id, r);
    if IsForest(m) {
      ForestLinked(m);
      AnsweredForestIff(m, cfg, id, r);
      AnswerLeavesLeaf(m, id, r);
      if r.JoinParent? && OnlyLeaf(m, id) {
        LeafSubtree(m, id);
      }
    }
  }

  // --------------------------------------------------------------------
  // Turns: the chosen leaders in order, then everyone else by index
  // --------------------------------------------------------------------

  ghost function Rest(n: nat, chosen: seq<nat>): seq<nat> {
    if n == 0 then [] else Rest(n - 1, chosen) + if n - 1 in chosen then [] else [n - 1]
  }

  // The mesh once these indices have had their turn.
  ghost function AfterTurns(m: Mesh, batch: seq<Reg>, out: map<nat, PeerResponse>, turns: seq<nat>): Mesh
    decreases |turns|
  {
    if turns == [] then m
    else
      var before, i := AfterTurns(m, batch, out, turns[..|turns| - 1]), turns[|turns| - 1];
      if i < |batch| && i in out then Answered(before, batch[i].agent, out[i]) else before
  }

  // Each index outside the selection got the answer the mesh of its turn calls
  // for: a leader slot only if nobody had room then, an unbeaten parent otherwise.
  ghost predicate RestAnswered(m: Mesh, cfg: Placement, batch: seq<Reg>, chosen: seq<nat>, out: map<nat, PeerResponse>, n: nat) {
    forall k | 0 <= k < |Rest(n, chosen)| ::
      var i := Rest(n, chosen)[k];
      i < |batch| && i in out && RelayAnswer(AfterTurns(m, batch, out, chosen + Rest(n, chosen)[..k]), cfg, batch[i].agent, out[i])
  }

  ghost predicate Assigned(m: Mesh, cfg: Placement, batch: seq<Reg>, chosen: seq<nat>, out: map<nat, PeerResponse>) {
    && (forall i :: i in out <==> 0 <= i < |batch|)
    && (forall i <- chosen :: i in out && out[i] == BecomeLeader)
    && RestAnswered(m, cfg, batch, chosen, out, |batch|)
  }

  ghost function AllTurns(batch: seq<Reg>, chosen: seq<nat>): seq<nat> {
    chosen + Rest(|batch|, chosen)
  }

  lemma TurnsSnoc(m: Mesh, batch: seq<Reg>, out: map<nat, PeerResponse>, turns: seq<nat>, i: nat)
    ensures AfterTurns(m, batch, out, turns + [i]) ==
              if i < |batch| && i in out then Answered(AfterTurns(m, batch, out, turns), batch[i].agent, out[i]) else AfterTurns(m, batch, out, turns)
  {
    assert (turns + [i])[..|turns|] == turns;
  }

  // An answer yet to come does not matter to the turns taken.
  lemma {:induction false} LaterAnswer(m: Mesh, batch: seq<Reg>, out: map<nat, PeerResponse>, turns: seq<nat>, i: nat, r: PeerResponse)
    requires i !in turns
    ensures AfterTurns(m, batch, out[i := r], turns) == AfterTurns(m, batch, out, turns)
    decreases |turns|
  {
    if turns != [] { LaterAnswer(m, batch, out, turns[..|turns| - 1], i, r); }
  }

  lemma {:induction false} RestBelow(n: nat, chosen: seq<nat>)
    ensures forall i <- Rest(n, chosen) :: i < n && i !in chosen
  {
    if n > 0 { RestBelow(n - 1, chosen); }
  }

  // The others take their turns in the order of the batch.
  lemma {:induction false} RestMeans(n: nat, chosen: seq<nat>)
    ensures forall i :: i in Rest(n, chosen) <==> 0 <= i < n && i !in chosen
    ensures forall j, k | 0 <= j < k < |Rest(n, chosen)| :: Rest(n, chosen)[j] < Rest(n, chosen)[k]
  {
    if n > 0 {
      RestMeans(n - 1, chosen);
      var before := Rest(n - 1, chosen);
      forall j | 0 <= j < |before| ensures before[j] < n - 1 { assert before[j] in before; }
    }
  }

  lemma RestStep(m: Mesh, cfg: Placement, batch: seq<Reg>, chosen: seq<nat>, out: map<nat, PeerResponse>, n: nat, r: PeerResponse)
    requires RestAnswered(m, cfg, batch, chosen, out, n) && n < |batch| && n !in chosen
    requires RelayAnswer(AfterTurns(m, batch, out, chosen + Rest(n, chosen)), cfg, batch[n].agent, r)
    ensures RestAnswered(m, cfg, batch, chosen, out[n := r], n + 1)
    ensures AfterTurns(m, batch, out[n := r], chosen + Rest(n + 1, chosen)) == Answered(AfterTurns(m, batch, out, chosen + Rest(n, chosen)), batch[n].agent, r)
  {
    hide RelayAnswer, Answered, AfterTurns;
    var rest, out' := Rest(n, chosen), out[n := r];
    RestBelow(n, chosen);
    assert Rest(n + 1, chosen) == rest + [n];
    forall k | 0 <= k <= |rest|
      ensures AfterTurns(m, batch, out', chosen + rest[..k]) == AfterTurns(m, batch, out, chosen + rest[..k])
      ensures (rest + [n])[..k] == rest[..k]
    {
      LaterAnswer(m, batch, out, chosen + rest[..k], n, r);
    }
    assert rest[..|rest|] == rest;
    assert chosen + (rest + [n]) == (chosen + rest) + [n];
    TurnsSnoc(m, batch, out', chosen + rest, n);
  }

  method PromoteChosen(t: MeshTopology, batch: seq<Reg>, chosen: seq<nat>, ghost cfg: Placement) returns (out: map<nat, PeerResponse>)
    requires t.Valid() && NoDups(chosen) && forall i <- chosen :: i < |batch|
    modifies t`zoneLeaders, t.nodes.Values
    ensures t.Valid() && Going(t.View(), old(t.View()), batch, out)
    ensures forall i :: i in out <==> i in chosen
    ensures forall i <- out :: out[i] == BecomeLeader
    ensures t.View() == AfterTurns(old(t.View()), batch, out, chosen)
  {
    hide Coherent, Linked, Acyclic, AllSeated, AllOnlyLeaves, Subtree, Going, AfterTurns, Forest.AssignZoneLeader;
    ghost var m0 := t.View();
    out := map[];
    Starts(m0, batch);
    for k := 0 to |chosen|
      invariant t.Valid() && Going(t.View(), m0, batch, out)
      invariant forall i :: i in out <==> i in chosen[..k]
      invariant forall i <- out :: out[i] == BecomeLeader
      invariant t.View() == AfterTurns(m0, batch, out, chosen[..k])
    {
      var i := chosen[k];
      assert i in chosen;
      assert chosen[..k + 1] == chosen[..k] + [i];
      AnswerKeepsGoing(t.View(), m0, cfg, batch, out, i, BecomeLeader);
      LaterAnswer(m0, batch, out, chosen[..k], i, BecomeLeader);
      TurnsSnoc(m0, batch, out[i := BecomeLeader], chosen[..k], i);
      t.AssignZoneLeader(batch[i].agent);
      out := out[i := BecomeLeader];
    }
    assert chosen[..|chosen|] == chosen;
  }

  lemma Starts(m: Mesh, batch: seq<Reg>)
    ensures Going(m, m, batch, map[])
    ensures AfterTurns(m, batch, map[], []) == m
  {}

  method PlaceRest(t: MeshTopology, batch: seq<Reg>, flaky: set<AgentId>, hot: set<AgentId>, chosen: seq<nat>, promoted: map<nat, PeerResponse>, ghost m0: Mesh)
    returns (out: map<nat, PeerResponse>)
    requires t.Valid() && Going(t.View(), m0, batch, promoted)
    requires (forall i :: i in promoted <==> i in chosen) && forall i <- chosen :: i < |batch|
    requires t.View() == AfterTurns(m0, batch, promoted, chosen)
    modifies t`zoneLeaders, t.nodes.Values
    ensures t.Valid() && Going(t.View(), m0, batch, out)
    ensures forall i :: i in out <==> 0 <= i < |batch|
    ensures forall i <- promoted :: out[i] == promoted[i]
    ensures RestAnswered(m0, Placement(flaky, hot, t.maxChildren, t.probationCap), batch, chosen, out, |batch|)
    ensures t.View() == AfterTurns(m0, batch, out, AllTurns(batch, chosen))
  {
    hide Coherent, Linked, Acyclic, AllSeated, AllOnlyLeaves, Subtree, Going, AfterTurns, RelayAnswer, Answered, RestAnswered;
    ghost var cfg := Placement(flaky, hot, t.maxChildren, t.probationCap);
    out := promoted;
    NothingRested(m0, cfg, batch, chosen, out);
    assert chosen + [] == chosen;
    for i := 0 to |batch|
      invariant t.Valid() && Going(t.View(), m0, batch, out)
      invariant forall j :: j in out <==> j in promoted || 0 <= j < i
      invariant forall j <- promoted :: out[j] == promoted[j]
      invariant RestAnswered(m0, cfg, batch, chosen, out, i)
      invariant t.View() == AfterTurns(m0, batch, out, chosen + Rest(i, chosen))
    {
      if i in promoted {
        ChosenSkipped(m0, cfg, batch, chosen, out, i);
        continue;
      }
      ghost var m := t.View();
      var r := ApplyRelayAssignment(t, batch[i].agent, flaky, hot);
      AnswerKeepsGoing(m, m0, cfg, batch, out, i, r);
      RestStep(m0, cfg, batch, chosen, out, i, r);
      out := out[i := r];
    }
  }

  lemma NothingRested(m: Mesh, cfg: Placement, batch: seq<Reg>, chosen: seq<nat>, out: map<nat, PeerResponse>)
    ensures RestAnswered(m, cfg, batch, chosen, out, 0) && Rest(0, chosen) == []
  {}

  lemma ChosenSkipped(m: Mesh, cfg: Placement, batch: seq<Reg>, chosen: seq<nat>, out: map<nat, PeerResponse>, n: nat)
    requires n in chosen
    ensures Rest(n + 1, chosen) == Rest(n, chosen)
    ensures RestAnswered(m, cfg, batch, chosen, out, n + 1) == RestAnswered(m, cfg, batch, chosen, out, n)
  {}

  // What the assignment of a batch may come out as: a sound, maximal and
  // domain-first choice of leaders, and every other index answered in turn.
  ghost predicate Outcome(m: Mesh, cfg: Placement, batch: seq<Reg>, maxZoneLeaders: int, domainOf: Domains, chosen: seq<nat>, spread: nat, out: map<nat, PeerResponse>) {
    var openZL, taken := maxZoneLeaders - |OnlineLeaders(m)|, OccupiedBy(m, domainOf);
    && Sound(batch, cfg.flaky, openZL, taken, chosen)
    && Maximal(batch, cfg.flaky, openZL, taken, chosen)
    && DomainsFirst(batch, cfg.flaky, taken, domainOf, chosen, spread)
    && FirstComeFirst(batch, cfg.flaky, taken, domainOf, chosen, spread)
    && Assigned(m, cfg, batch, chosen, out)
  }

  // The whole assignment.  When the batch names each agent once the mesh ends up
  // showing every known agent where it was told to go, still a forest if none of
  // the agents had children or could be a parent when the call began.
  method AssignBatchDiverse(t: MeshTopology, batch: seq<Reg>, maxZoneLeaders: int, flaky: set<AgentId>, hot: set<AgentId>, domainOf: Domains)
    returns (out: map<nat, PeerResponse>, ghost chosen: seq<nat>, ghost spread: nat)
    requires t.Valid()
    modifies t`zoneLeaders, t.nodes.Values
    ensures t.Valid() && Kept(old(t.View()), t.View())
    ensures Outcome(old(t.View()), Placement(flaky, hot, t.maxChildren, t.probationCap), batch, maxZoneLeaders, domainOf, chosen, spread, out)
    ensures t.View() == AfterTurns(old(t.View()), batch, out, AllTurns(batch, chosen))
    ensures DistinctAgents(batch) ==> AllSeated(t.View(), batch, out)
    ensures DistinctAgents(batch) && IsForest(old(t.View())) && AllOnlyLeaves(old(t.View()), batch, {}) ==> IsForest(t.View())
  {
    hide Coherent, Linked, Acyclic, AllSeated, AllOnlyLeaves, IsRep, Maximal, DomainsFirst, FirstComeFirst, OccupiedBy, OnlineLeaders, AfterTurns, RestAnswered;
    ghost var m0 := t.View();
    var count := CountOnlineZoneLeaders(t);
    var taken := SurveyLeaders(t, domainOf);
    var picked;
    picked, spread := SelectLeaders(batch, flaky, maxZoneLeaders - count, taken, domainOf);
    chosen := picked;
    ChosenDistinct(batch, flaky, maxZoneLeaders - count, taken, picked);
    var promoted := PromoteChosen(t, batch, picked, Placement(flaky, hot, t.maxChildren, t.probationCap));
    out := PlaceRest(t, batch, flaky, hot, picked, promoted, m0);
  }

  lemma ChosenDistinct(batch: seq<Reg>, flaky: set<AgentId>, openZL: int, taken: Occupied, chosen: seq<nat>)
    requires Sound(batch, flaky, openZL, taken, chosen)
    ensures NoDups(chosen) && forall i <- chosen :: i < |batch|
  {}
}
