// How a message travels: what each agent forwards to whom, and what that means
// for a command addressed to one agent along the route the server computed.
module Routing {
  import opened Agents
  import opened Forest
  import opened MeshWalks
  import opened MeshTopology

  // The parts of a server message that decide where it goes and who acts on it.
  // PointToPoint is a single-agent exec, put-file or fetch-file and may carry a
  // route; nothing else does.  Broadcast is a deploy or multi-target exec.  A
  // Query without targets is for everyone, a Rotate always is.  PeerUpdate is for
  // one agent, or for whoever receives it when it names none.
  datatype Message =
    | PointToPoint(target: AgentId, path: seq<AgentId>)
    | Broadcast(targets: seq<AgentId>)
    | Query(targets: seq<AgentId>)
    | Rotate
    | PeerUpdate(target: AgentId)

  function RelayPathOf(msg: Message): seq<AgentId> {
    if msg.PointToPoint? then msg.path else []
  }

  datatype Hop = Unrouted | Next(id: AgentId) | EndOfRoute

  // What the route asks of the agent `self`.
  ghost predicate HopFor(path: seq<AgentId>, self: AgentId, hop: Hop) {
    match hop
    case Unrouted => path == []
    case Next(id) => exists i :: 0 <= i < |path| - 1 && path[i] == self && path[i + 1] == id && self !in path[..i]
    case EndOfRoute => path != [] && (self !in path || (path[|path| - 1] == self && self !in path[..|path| - 1]))
  }

  method NextHop(path: seq<AgentId>, self: AgentId) returns (hop: Hop)
    ensures HopFor(path, self, hop)
  {
    if |path| == 0 {
      return Unrouted;
    }
    for i := 0 to |path|
      invariant self !in path[..i]
    {
      if path[i] == self {
        if i + 1 < |path| {
          return Next(path[i + 1]);
        }
        return EndOfRoute;
      }
      assert path[..i + 1] == path[..i] + [path[i]];
    }
    assert path[..|path|] == path;
    return EndOfRoute;
  }

  lemma HopUnique(path: seq<AgentId>, self: AgentId, a: Hop, b: Hop)
    requires HopFor(path, self, a) && HopFor(path, self, b)
    ensures a == b
  {}

  // Which of its connected peers an agent that relays msg sends it to.  A route
  // whose next hop is not connected falls back to flooding this agent's peers.
  ghost predicate SendsTo(peers: set<AgentId>, self: AgentId, msg: Message, to: AgentId) {
    exists hop ::
      && HopFor(RelayPathOf(msg), self, hop)
      && to in peers
      && (hop.Unrouted? || (hop.Next? && (hop.id == to || hop.id !in peers)))
  }

  ghost predicate Executes(self: AgentId, msg: Message) {
    match msg
    case PointToPoint(target, _) => target == self
    case Broadcast(targets) => self in targets
    case Query(targets) => targets == [] || self in targets
    case Rotate => true
    case PeerUpdate(target) => target == NoAgent || target == self
  }

  // What is for one agent is acted on there and relayed elsewhere; everything
  // else is relayed in any case.
  ghost predicate Relays(self: AgentId, msg: Message) {
    match msg
    case PointToPoint(target, _) => target != self
    case PeerUpdate(target) => target != NoAgent && target != self
    case _ => true
  }

  ghost function Recipients(peers: set<AgentId>, self: AgentId, msg: Message): set<AgentId> {
    set to | to in peers && SendsTo(peers, self, msg, to)
  }

  // The peers that get a copy of msg when self handles it.
  ghost function Heard(peers: set<AgentId>, self: AgentId, msg: Message): set<AgentId> {
    if Relays(self, msg) then Recipients(peers, self, msg) else {}
  }

  lemma UnroutedHeard(peers: set<AgentId>, self: AgentId, msg: Message)
    requires RelayPathOf(msg) == []
    ensures Heard(peers, self, msg) == if Relays(self, msg) then peers else {}
  {
    assert HopFor(RelayPathOf(msg), self, Unrouted);
  }

  lemma RouteEndHeard(peers: set<AgentId>, self: AgentId, msg: Message)
    requires msg.PointToPoint? && msg.path != [] && self !in msg.path[..|msg.path| - 1]
    ensures Heard(peers, self, msg) == {}
  {
    assert HopFor(msg.path, self, EndOfRoute);
    forall hop | HopFor(msg.path, self, hop) ensures hop == EndOfRoute { HopUnique(msg.path, self, hop, EndOfRoute); }
  }

  lemma RoutedHeard(peers: set<AgentId>, self: AgentId, msg: Message, i: nat)
    requires msg.PointToPoint? && msg.target != self
    requires i < |msg.path| - 1 && msg.path[i] == self && self !in msg.path[..i]
    ensures Heard(peers, self, msg) == if msg.path[i + 1] in peers then {msg.path[i + 1]} else peers
  {
    var next := Next(msg.path[i + 1]);
    assert HopFor(msg.path, self, next);
    forall hop | HopFor(msg.path, self, hop) ensures hop == next { HopUnique(msg.path, self, hop, next); }
  }

  const SEND_BUFFER := 64

  // The relay half of an agent: its connected downstream peers, each behind a
  // bounded send buffer.
  class RelayAgent {
    const id: AgentId
    var downstreams: map<AgentId, seq<Message>>

    ghost predicate Buffered(before: map<AgentId, seq<Message>>, peer: AgentId, msg: Message)
      reads this
      requires peer in before && peer in downstreams
    {
      downstreams[peer] == if |before[peer]| < SEND_BUFFER then before[peer] + [msg] else before[peer]
    }

    // One more copy of msg waits for each of these peers that had room, and
    // nothing else has changed.
    twostate predicate CopiedTo(peers: set<AgentId>, msg: Message)
      reads this
    {
      && downstreams.Keys == old(downstreams).Keys
      && forall p <- downstreams ::
           downstreams[p] == old(downstreams)[p] + if p in peers && |old(downstreams)[p]| < SEND_BUFFER then [msg] else []
    }

    twostate lemma Untouched(msg: Message)
      requires downstreams == old(downstreams)
      ensures CopiedTo({}, msg)
    {}

    // A send to a full buffer is dropped.
    method Send(peer: AgentId, msg: Message)
      requires peer in downstreams
      modifies this
      ensures downstreams.Keys == old(downstreams).Keys && Buffered(old(downstreams), peer, msg)
      ensures forall p <- downstreams :: p != peer ==> downstreams[p] == old(downstreams)[p]
    {
      if |downstreams[peer]| < SEND_BUFFER {
        downstreams := downstreams[peer := downstreams[peer] + [msg]];
      }
    }

    method FloodDownstreams(msg: Message)
      modifies this
      ensures downstreams.Keys == old(downstreams).Keys
      ensures forall p <- downstreams :: Buffered(old(downstreams), p, msg)
    {
      var rest := downstreams.Keys;
      while rest != {}
        invariant rest <= downstreams.Keys == old(downstreams).Keys
        invariant forall p <- downstreams :: if p in rest then downstreams[p] == old(downstreams)[p] else Buffered(old(downstreams), p, msg)
        decreases rest
      {
        var p :| p in rest;
        rest := rest - {p};
        Send(p, msg);
      }
    }

    method RelayToDownstreams(msg: Message)
      modifies this
      ensures CopiedTo(Recipients(old(downstreams).Keys, id, msg), msg)
    {
      var hop := NextHop(RelayPathOf(msg), id);
      forall other | HopFor(RelayPathOf(msg), id, other) ensures other == hop {
        HopUnique(RelayPathOf(msg), id, hop, other);
      }
      match hop
      case Unrouted => FloodDownstreams(msg);
      case EndOfRoute =>
      case Next(next) =>
        if next in downstreams {
          Send(next, msg);
        } else {
          FloodDownstreams(msg);
        }
    }

    // From the third clause on: what the rules about relaying and routes come to
    // for each kind of message, said with buffers and the route alone.
    method HandleServerMessage(msg: Message) returns (executes: bool)
      modifies this
      ensures executes <==> Executes(id, msg)
      ensures CopiedTo(Heard(old(downstreams).Keys, id, msg), msg)
      ensures msg.Broadcast? || msg.Query? || msg.Rotate? ==> CopiedTo(old(downstreams).Keys, msg)
      ensures msg.PeerUpdate? ==> CopiedTo(if msg.target in {NoAgent, id} then {} else old(downstreams).Keys, msg)
      ensures msg.PointToPoint? && msg.target == id ==> CopiedTo({}, msg)
      ensures msg.PointToPoint? && msg.target != id && msg.path == [] ==> CopiedTo(old(downstreams).Keys, msg)
      ensures msg.PointToPoint? && msg.path != [] && id !in msg.path[..|msg.path| - 1] ==> CopiedTo({}, msg)
      ensures forall i | msg.PointToPoint? && msg.target != id && 0 <= i < |msg.path| - 1 && msg.path[i] == id && id !in msg.path[..i] ::
                CopiedTo(if msg.path[i + 1] in old(downstreams) then {msg.path[i + 1]} else old(downstreams).Keys, msg)
    {
      hide Recipients, HopFor, CopiedTo;
      ghost var peers := downstreams.Keys;
      if RelayPathOf(msg) == [] { UnroutedHeard(peers, id, msg); }
      if msg.PointToPoint? && msg.path != [] && id !in msg.path[..|msg.path| - 1] { RouteEndHeard(peers, id, msg); }
      forall i | msg.PointToPoint? && msg.target != id && 0 <= i < |msg.path| - 1 && msg.path[i] == id && id !in msg.path[..i]
        ensures Heard(peers, id, msg) == if msg.path[i + 1] in peers then {msg.path[i + 1]} else peers
      {
        RoutedHeard(peers, id, msg, i);
      }
      Untouched(msg);
      match msg
      case PointToPoint(target, _) =>
        executes := target == id;
        if !executes {
          RelayToDownstreams(msg);
        }
      case Broadcast(targets) =>
        RelayToDownstreams(msg);
        executes := id in targets;
      case Query(targets) =>
        RelayToDownstreams(msg);
        executes := |targets| == 0 || id in targets;
      case Rotate =>
        RelayToDownstreams(msg);
        executes := true;
      case PeerUpdate(target) =>
        executes := target == NoAgent || target == id;
        if !executes {
          RelayToDownstreams(msg);
        }
    }
  }

  // --------------------------------------------------------------------
  // Journeys.  stops[i+1] got the message from stops[i]; peersAt[i] is who was
  // connected to stops[i] when it did, so the mesh may change under way.
  // --------------------------------------------------------------------

  ghost predicate Journey(msg: Message, stops: seq<AgentId>, peersAt: seq<set<AgentId>>) {
    && |stops| == |peersAt| + 1
    && forall i | 0 <= i < |peersAt| :: Relays(stops[i], msg) && SendsTo(peersAt[i], stops[i], msg, stops[i + 1])
  }

  // Whatever the peers look like and however they change, a routed message is
  // only ever seen on its route and one link beside it.
  lemma {:induction false} RouteContainment(msg: Message, stops: seq<AgentId>, peersAt: seq<set<AgentId>>)
    requires RelayPathOf(msg) != [] && Journey(msg, stops, peersAt)
    requires stops[0] in RelayPathOf(msg)
    ensures forall i | 0 <= i < |stops| - 1 :: stops[i] in RelayPathOf(msg)
    ensures var last := |stops| - 1;
            stops[last] in RelayPathOf(msg) || (last > 0 && stops[last] in peersAt[last - 1])
  {
    forall i | 0 <= i < |peersAt| ensures stops[i] in RelayPathOf(msg) {
      assert SendsTo(peersAt[i], stops[i], msg, stops[i + 1]);
    }
  }

  // Along a connected duplicate-free route the message visits exactly the route,
  // in order, and only the target executes it.
  lemma {:induction false} RouteFollowed(msg: Message, stops: seq<AgentId>, peersAt: seq<set<AgentId>>)
    requires msg.PointToPoint? && msg.path != [] && NoDups(msg.path) && msg.path[|msg.path| - 1] == msg.target
    requires Journey(msg, stops, peersAt) && stops[0] == msg.path[0]
    requires forall i | 0 <= i < |peersAt| && i + 1 < |msg.path| && stops[i] == msg.path[i] :: msg.path[i + 1] in peersAt[i]
    ensures |stops| <= |msg.path| && stops == msg.path[..|stops|]
    ensures forall i | 0 <= i < |stops| :: Executes(stops[i], msg) <==> i == |msg.path| - 1
    decreases |stops|
  {
    var n := |stops| - 1;
    if n > 0 {
      hide HopFor, SendsTo;
      RouteFollowed(msg, stops[..n], peersAt[..n - 1]);
      assert stops[n - 1] == stops[..n][n - 1] == msg.path[n - 1];
      assert Relays(stops[n - 1], msg);
      OnlyNextHears(msg, n - 1, peersAt[n - 1], stops[n]);
      assert stops == stops[..n] + [stops[n]];
    }
  }

  lemma OnlyNextHears(msg: Message, i: nat, peers: set<AgentId>, to: AgentId)
    requires msg.PointToPoint? && NoDups(msg.path) && i < |msg.path| && msg.path[|msg.path| - 1] == msg.target != msg.path[i]
    requires SendsTo(peers, msg.path[i], msg, to) && msg.path[i + 1] in peers
    ensures to == msg.path[i + 1]
  {
    var self, next := msg.path[i], Next(msg.path[i + 1]);
    var hop :| HopFor(msg.path, self, hop) && (hop.Unrouted? || (hop.Next? && (hop.id == to || hop.id !in peers)));
    assert HopFor(msg.path, self, next) by {
      assert forall j | 0 <= j < i :: msg.path[j] != self;
      assert self !in msg.path[..i];
    }
    HopUnique(msg.path, self, hop, next);
  }

  // A message always has somewhere to go until it is delivered: an agent on a
  // connected route that is not the target does forward it.
  lemma RouteContinues(msg: Message, i: nat, peers: set<AgentId>)
    requires msg.PointToPoint? && NoDups(msg.path) && i + 1 < |msg.path| && msg.path[|msg.path| - 1] == msg.target
    requires msg.path[i + 1] in peers
    ensures Relays(msg.path[i], msg) && forall to :: SendsTo(peers, msg.path[i], msg, to) <==> to == msg.path[i + 1]
  {
    var hop := Next(msg.path[i + 1]);
    assert HopFor(msg.path, msg.path[i], hop) by {
      assert forall j | 0 <= j < i :: msg.path[j] != msg.path[i];
      assert msg.path[i] !in msg.path[..i];
    }
    forall other | HopFor(msg.path, msg.path[i], other) ensures other == hop {
      HopUnique(msg.path, msg.path[i], hop, other);
    }
  }

  // --------------------------------------------------------------------
  // The server's side
  // --------------------------------------------------------------------

  // Where dispatchExec hands the message over.
  datatype Dispatch =
    | Direct(to: AgentId)
    | ViaLeader(leader: AgentId, path: seq<AgentId>)
    | FanOut(all: set<AgentId>)

  method RouteExec(t: MeshTopology, streams: set<AgentId>, target: AgentId) returns (d: Dispatch, msg: Message)
    requires t.Valid()
    ensures msg.PointToPoint? && msg.target == target
    ensures d.Direct? <==> target in streams
    ensures d.Direct? ==> d.to == target && msg.path == []
    ensures d.ViaLeader? <==> target !in streams && exists k: nat :: LeaderAt(t.View(), target, k) && Up(t.View(), target, k) in streams
    ensures d.ViaLeader? ==> IsRoute(t.View(), target, d.path) && msg.path == d.path && d.leader == d.path[0]
    ensures d.FanOut? ==> d.all == streams && msg.path == []
  {
    if target in streams {
      return Direct(target), PointToPoint(target, []);
    }
    var path := t.PathFromZoneLeader(target);
    if |path| > 0 {
      forall k: nat | LeaderAt(t.View(), target, k) ensures k == |path| - 1 {
        LeaderAtUnique(t.View(), target, k, |path| - 1);
      }
      assert LeaderAt(t.View(), target, |path| - 1);
      if path[0] in streams {
        return ViaLeader(path[0], path), PointToPoint(target, path);
      }
    }
    return FanOut(streams), PointToPoint(target, []);
  }

  // A routed command whose links are connected reaches its target along the
  // topology's parent links, is executed there and nowhere else, and is seen by
  // nobody off the route.
  lemma RoutedDelivery(m: Mesh, target: AgentId, path: seq<AgentId>, stops: seq<AgentId>, peersAt: seq<set<AgentId>>)
    requires NoAgent !in m.nodes && IsRoute(m, target, path)
    requires Journey(PointToPoint(target, path), stops, peersAt) && stops[0] == path[0]
    requires forall i, c | 0 <= i < |peersAt| && c in m.nodes && m.nodes[c].parent == stops[i] :: c in peersAt[i]
    ensures |stops| <= |path| && stops == path[..|stops|]
    ensures forall i | 0 <= i < |stops| :: stops[i] in m.nodes && (Executes(stops[i], PointToPoint(target, path)) <==> i == |path| - 1)
    ensures forall i | 0 <= i < |stops| - 1 :: m.nodes[stops[i + 1]].parent == stops[i]
    ensures path[|path| - 1] == target
  {
    RouteShape(m, target, path);
    var msg := PointToPoint(target, path);
    forall i | 0 <= i < |peersAt| && i + 1 < |path| && stops[i] == path[i] ensures path[i + 1] in peersAt[i] {
      assert m.nodes[path[i + 1]].parent == path[i];
    }
    RouteFollowed(msg, stops, peersAt);
  }
}
