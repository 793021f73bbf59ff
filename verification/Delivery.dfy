// Who acts on a message that carries no route: the rule by which an agent hands
// messages on, followed from agent to agent through the mesh.
module Delivery {
  import opened Agents
  import opened Forest
  import opened MeshWalks
  import opened Routing
  import opened Flooding

  // A run in which every agent handles msg as HandleServerMessage does, with its
  // children in the mesh connected; a copy may still be dropped at a full buffer.
  ghost predicate MessageRun(m: Mesh, msg: Message, f: Flood, arrivals: seq<Arrival>, f': Flood)
    decreases |arrivals|
  {
    if arrivals == [] then f' == f
    else
      var a := arrivals[0];
      && a.at in f.transit && a.at in m.nodes && a.to <= Heard(m.nodes[a.at].children, a.at, msg)
      && MessageRun(m, msg, Arrive(f, a), arrivals[1..], f')
  }

  ghost predicate NoneDropped(m: Mesh, msg: Message, arrivals: seq<Arrival>) {
    forall a <- arrivals :: a.at in m.nodes && a.to == Heard(m.nodes[a.at].children, a.at, msg)
  }

  // Who does not hand msg on.
  function KeepersOf(m: Mesh, msg: Message): set<AgentId> {
    match msg
    case PointToPoint(target, _) => {target}
    case PeerUpdate(target) => if target == NoAgent then m.nodes.Keys else {target}
    case _ => {}
  }

  lemma HeardIsPassedOn(m: Mesh, msg: Message, x: AgentId)
    requires RelayPathOf(msg) == [] && x in m.nodes
    ensures Heard(m.nodes[x].children, x, msg) == PassedOn(m, KeepersOf(m, msg), x)
  {
    UnroutedHeard(m.nodes[x].children, x, msg);
  }

  lemma {:induction false} MessageRunIsRun(m: Mesh, msg: Message, f: Flood, arrivals: seq<Arrival>, f': Flood)
    requires RelayPathOf(msg) == [] && MessageRun(m, msg, f, arrivals, f')
    ensures Flooding.Run(m, KeepersOf(m, msg), f, arrivals, f')
    ensures NoneDropped(m, msg, arrivals) ==> Lossless(m, KeepersOf(m, msg), arrivals)
    decreases |arrivals|
  {
    hide Heard, PassedOn, KeepersOf;
    if arrivals != [] {
      var a := arrivals[0];
      HeardIsPassedOn(m, msg, a.at);
      MessageRunIsRun(m, msg, Arrive(f, a), arrivals[1..], f');
      if NoneDropped(m, msg, arrivals) {
        forall b <- arrivals[1..] ensures b in arrivals {}
        forall b <- arrivals ensures b == a || b in arrivals[1..] {}
        assert a in arrivals;
      }
    }
  }

  // x acts on a copy of msg.
  ghost predicate Acts(f: Flood, msg: Message, x: AgentId) {
    f.received[x] > 0 && Executes(x, msg)
  }

  // The targets beneath the leaders it was handed to, or everyone beneath them when
  // it names none.  A peer update that names nobody is for these leaders alone.
  ghost predicate MeantFor(m: Mesh, streams: set<AgentId>, msg: Message, x: AgentId) {
    match msg
    case Broadcast(targets) => x in targets && Beneath(m, streams, x)
    case Query(targets) => (targets == [] || x in targets) && Beneath(m, streams, x)
    case Rotate => Beneath(m, streams, x)
    case PointToPoint(target, _) => x == target && Beneath(m, streams, x)
    case PeerUpdate(target) => if target == NoAgent then x in streams else x == target && Beneath(m, streams, x)
  }

  // Handed to any set of leaders, a message without a route never reaches an agent
  // twice; once it has died down with no copy dropped, exactly those it is meant for
  // act on it.
  lemma WhoActs(m: Mesh, streams: set<AgentId>, msg: Message, arrivals: seq<Arrival>, f: Flood)
    requires Linked(m) && streams <= m.leaders && RelayPathOf(msg) == []
    requires MessageRun(m, msg, Start(streams), arrivals, f)
    ensures forall x :: f.received[x] <= 1
    ensures f.transit == multiset{} && NoneDropped(m, msg, arrivals) ==> forall x <- m.nodes ::
              Acts(f, msg, x) <==> MeantFor(m, streams, msg, x)
  {
    hide Linked, MessageRun, Flooding.Run, Beneath, Reached, Lossless, NoneDropped;
    MessageRunIsRun(m, msg, Start(streams), arrivals, f);
    FloodDelivery(m, streams, KeepersOf(m, msg), arrivals, f);
    forall x <- m.nodes ensures
        && (Reached(m, streams, {}, x) <==> Beneath(m, streams, x))
        && (Reached(m, streams, {x}, x) <==> Beneath(m, streams, x))
        && (Reached(m, streams, m.nodes.Keys, x) <==> x in streams)
    {
      ReachedByAll(m, streams, x);
      ReachedAlone(m, streams, x);
      ReachedByNobody(m, streams, x);
    }
  }
}
