// A flood: the server hands a message to every connected leader stream and each
// agent passes it on to all its downstream peers, except those that keep it.
module Flooding {
  import opened Agents
  import opened Forest
  import opened MeshWalks

  // transit: copies sent but not yet received; received: copies that arrived.
  datatype Flood = Flood(transit: multiset<AgentId>, received: multiset<AgentId>)

  // One copy arrives at `at`, which passes the message on to `to`: the peers it
  // is for whose send buffer was not full.
  datatype Arrival = Arrival(at: AgentId, to: set<AgentId>)

  // x sits at or beneath one of the agents the server sent to.
  ghost predicate Beneath(m: Mesh, streams: set<AgentId>, x: AgentId) {
    exists root <- streams :: x in Subtree(m, root)
  }

  // Whom x passes the message on to; the agents in keepers keep it.
  ghost function PassedOn(m: Mesh, keepers: set<AgentId>, x: AgentId): set<AgentId> {
    if x in m.nodes && x !in keepers then m.nodes[x].children else {}
  }

  // Up from x to an agent the server sent to, nobody on the way keeps it.
  ghost predicate Open(m: Mesh, streams: set<AgentId>, keepers: set<AgentId>, x: AgentId, k: nat) {
    Up(m, x, k) in streams && forall i | 0 < i <= k :: Up(m, x, i) !in keepers
  }

  ghost predicate Reached(m: Mesh, streams: set<AgentId>, keepers: set<AgentId>, x: AgentId) {
    exists k: nat :: Open(m, streams, keepers, x, k)
  }

  ghost function Start(streams: set<AgentId>): Flood {
    Flood(multiset(streams), multiset{})
  }

  ghost predicate Possible(m: Mesh, keepers: set<AgentId>, f: Flood, a: Arrival) {
    a.at in f.transit && a.at in m.nodes && a.to <= PassedOn(m, keepers, a.at)
  }

  ghost function Arrive(f: Flood, a: Arrival): Flood {
    Flood(f.transit - multiset{a.at} + multiset(a.to), f.received + multiset{a.at})
  }

  ghost predicate Run(m: Mesh, keepers: set<AgentId>, f: Flood, arrivals: seq<Arrival>, f': Flood)
    decreases |arrivals|
  {
    if arrivals == [] then f' == f
    else Possible(m, keepers, f, arrivals[0]) && Run(m, keepers, Arrive(f, arrivals[0]), arrivals[1..], f')
  }

  // No send buffer was full.
  ghost predicate Lossless(m: Mesh, keepers: set<AgentId>, arrivals: seq<Arrival>) {
    forall a <- arrivals :: a.to == PassedOn(m, keepers, a.at)
  }

  // Nobody holds two copies, and whoever holds one that the server did not hand
  // out got it from a parent that has received its own.
  ghost predicate AtMostOnce(m: Mesh, streams: set<AgentId>, f: Flood) {
    && (forall x :: f.transit[x] + f.received[x] <= 1)
    && (forall x | f.transit[x] + f.received[x] > 0 ::
          x in m.nodes && (x in streams || f.received[m.nodes[x].parent] > 0))
  }

  // Every copy the server handed out or a received copy gave rise to is
  // accounted for.
  ghost predicate NothingLost(m: Mesh, streams: set<AgentId>, keepers: set<AgentId>, f: Flood) {
    && (forall x <- streams :: f.transit[x] + f.received[x] > 0)
    && (forall x, c | f.received[x] > 0 && c in PassedOn(m, keepers, x) :: f.transit[c] + f.received[c] > 0)
  }

  lemma ArriveOnce(m: Mesh, streams: set<AgentId>, keepers: set<AgentId>, f: Flood, a: Arrival)
    requires Linked(m) && streams <= m.leaders
    requires AtMostOnce(m, streams, f) && Possible(m, keepers, f, a)
    ensures AtMostOnce(m, streams, Arrive(f, a))
  {
    hide Linked;
    var f' := Arrive(f, a);
    assert f.transit[a.at] == 1 && f.received[a.at] == 0;
    forall x ensures f'.transit[x] + f'.received[x] <= 1
      ensures f'.transit[x] + f'.received[x] > 0 ==> x in m.nodes && (x in streams || f'.received[m.nodes[x].parent] > 0)
    {
      if x in a.to {
        ChildNotLeader(m, a.at, x);
        assert f.transit[x] + f.received[x] == 0;
      }
    }
  }

  lemma ChildNotLeader(m: Mesh, p: AgentId, c: AgentId)
    requires Linked(m) && p in m.nodes && c in m.nodes[p].children
    ensures c in m.nodes && m.nodes[c].parent == p && c !in m.leaders
  {}

  // At most once, in every run, buffers full or not.
  lemma {:induction false} RunAtMostOnce(m: Mesh, streams: set<AgentId>, keepers: set<AgentId>, f: Flood, arrivals: seq<Arrival>, f': Flood)
    requires Linked(m) && streams <= m.leaders
    requires AtMostOnce(m, streams, f) && Run(m, keepers, f, arrivals, f')
    ensures AtMostOnce(m, streams, f')
    decreases |arrivals|
  {
    if arrivals != [] {
      ArriveOnce(m, streams, keepers, f, arrivals[0]);
      RunAtMostOnce(m, streams, keepers, Arrive(f, arrivals[0]), arrivals[1..], f');
    }
  }

  lemma {:induction false} RunNothingLost(m: Mesh, streams: set<AgentId>, keepers: set<AgentId>, f: Flood, arrivals: seq<Arrival>, f': Flood)
    requires NothingLost(m, streams, keepers, f) && Run(m, keepers, f, arrivals, f') && Lossless(m, keepers, arrivals)
    ensures NothingLost(m, streams, keepers, f')
    decreases |arrivals|
  {
    if arrivals != [] {
      assert arrivals[0] in arrivals;
      assert forall a <- arrivals[1..] :: a in arrivals;
      RunNothingLost(m, streams, keepers, Arrive(f, arrivals[0]), arrivals[1..], f');
    }
  }

  lemma {:induction false} ReceivedIfOpen(m: Mesh, streams: set<AgentId>, keepers: set<AgentId>, f: Flood, x: AgentId, k: nat)
    requires Linked(m) && f.transit == multiset{} && NothingLost(m, streams, keepers, f)
    requires x in m.nodes && Open(m, streams, keepers, x, k) && streams <= m.nodes.Keys
    ensures f.received[x] > 0
    decreases k
  {
    if k > 0 {
      KnownBelow(m, x, 1, k);
      var p := m.nodes[x].parent;
      assert Up(m, x, 1) == Up(m, p, 0) == p;
      OpenAbove(m, streams, keepers, x, k);
      ReceivedIfOpen(m, streams, keepers, f, p, k - 1);
      assert x in m.nodes[p].children;
    }
  }

  lemma OpenAbove(m: Mesh, streams: set<AgentId>, keepers: set<AgentId>, x: AgentId, k: nat)
    requires x in m.nodes && k > 0 && Open(m, streams, keepers, x, k)
    ensures Open(m, streams, keepers, m.nodes[x].parent, k - 1)
  {
    forall i | 0 <= i < k ensures Up(m, m.nodes[x].parent, i) == Up(m, x, i + 1) {}
  }

  lemma {:induction false} OnlyReached(m: Mesh, streams: set<AgentId>, keepers: set<AgentId>, f: Flood, arrivals: seq<Arrival>, f': Flood)
    requires Linked(m) && Run(m, keepers, f, arrivals, f')
    requires forall x | f.transit[x] + f.received[x] > 0 :: Reached(m, streams, keepers, x)
    ensures forall x | f'.transit[x] + f'.received[x] > 0 :: Reached(m, streams, keepers, x)
    decreases |arrivals|
  {
    if arrivals != [] {
      hide Linked, Run, Reached;
      var a := arrivals[0];
      RunUnfold(m, keepers, f, arrivals, f');
      forall x | Arrive(f, a).transit[x] + Arrive(f, a).received[x] > 0 ensures Reached(m, streams, keepers, x) {
        if x in a.to {
          assert f.transit[a.at] > 0;
          ChildNotLeader(m, a.at, x);
          ReachedBelow(m, streams, keepers, a.at, x);
        }
      }
      OnlyReached(m, streams, keepers, Arrive(f, a), arrivals[1..], f');
    }
  }

  lemma RunUnfold(m: Mesh, keepers: set<AgentId>, f: Flood, arrivals: seq<Arrival>, f': Flood)
    requires arrivals != [] && Run(m, keepers, f, arrivals, f')
    ensures Possible(m, keepers, f, arrivals[0]) && Run(m, keepers, Arrive(f, arrivals[0]), arrivals[1..], f')
  {}

  lemma ReachedBelow(m: Mesh, streams: set<AgentId>, keepers: set<AgentId>, p: AgentId, c: AgentId)
    requires Reached(m, streams, keepers, p) && p !in keepers && c in m.nodes && m.nodes[c].parent == p
    ensures Reached(m, streams, keepers, c)
  {
    var k: nat :| Open(m, streams, keepers, p, k);
    assert Up(m, p, 0) == p;
    forall i | 0 <= i <= k ensures Up(m, c, i + 1) == Up(m, p, i) {}
    forall i | 0 < i <= k + 1 ensures Up(m, c, i) !in keepers {
      assert Up(m, c, i) == Up(m, p, i - 1);
    }
    assert Open(m, streams, keepers, c, k + 1);
  }

  // Handed to any set of leaders, a message reaches an agent at most once however
  // many sends are dropped; once it has died down with none dropped it has reached
  // exactly the agents to which no keeper above blocks the way, each exactly once.
  lemma FloodDelivery(m: Mesh, streams: set<AgentId>, keepers: set<AgentId>, arrivals: seq<Arrival>, f: Flood)
    requires Linked(m) && streams <= m.leaders
    requires Run(m, keepers, Start(streams), arrivals, f)
    ensures forall x :: f.received[x] <= 1
    ensures f.transit == multiset{} && Lossless(m, keepers, arrivals) ==>
              forall x <- m.nodes :: f.received[x] == if Reached(m, streams, keepers, x) then 1 else 0
  {
    hide Linked, Run, Lossless, NothingLost, Up, AtMostOnce, Reached, Open;
    StartInvariants(m, streams, keepers);
    RunAtMostOnce(m, streams, keepers, Start(streams), arrivals, f);
    OneCopy(m, streams, f);
    if f.transit == multiset{} && Lossless(m, keepers, arrivals) {
      RunNothingLost(m, streams, keepers, Start(streams), arrivals, f);
      OnlyReached(m, streams, keepers, Start(streams), arrivals, f);
      forall x <- m.nodes ensures f.received[x] > 0 <==> Reached(m, streams, keepers, x) {
        if Reached(m, streams, keepers, x) {
          ReceivedIfReached(m, streams, keepers, f, x);
        } else {
          assert f.transit[x] == 0;
        }
      }
    }
  }

  lemma ReceivedIfReached(m: Mesh, streams: set<AgentId>, keepers: set<AgentId>, f: Flood, x: AgentId)
    requires Linked(m) && f.transit == multiset{} && NothingLost(m, streams, keepers, f)
    requires x in m.nodes && Reached(m, streams, keepers, x) && streams <= m.nodes.Keys
    ensures f.received[x] > 0
  {
    hide Linked, NothingLost;
    var k: nat :| Open(m, streams, keepers, x, k);
    ReceivedIfOpen(m, streams, keepers, f, x, k);
  }

  lemma OneCopy(m: Mesh, streams: set<AgentId>, f: Flood)
    requires AtMostOnce(m, streams, f)
    ensures forall x :: f.received[x] <= 1
    ensures forall x | f.received[x] > 0 :: x in m.nodes
  {}

  lemma StartInvariants(m: Mesh, streams: set<AgentId>, keepers: set<AgentId>)
    requires Linked(m) && streams <= m.leaders
    ensures streams <= m.nodes.Keys
    ensures AtMostOnce(m, streams, Start(streams)) && NothingLost(m, streams, keepers, Start(streams))
    ensures forall x | Start(streams).transit[x] + Start(streams).received[x] > 0 :: Reached(m, streams, keepers, x)
  {
    forall x <- streams ensures Reached(m, streams, keepers, x) {
      assert Up(m, x, 0) == x;
      assert Open(m, streams, keepers, x, 0);
    }
  }

  // With nobody keeping it that is everyone beneath those leaders.
  lemma ReachedByAll(m: Mesh, streams: set<AgentId>, x: AgentId)
    requires x in m.nodes
    ensures Reached(m, streams, {}, x) <==> Beneath(m, streams, x)
  {
    if Reached(m, streams, {}, x) {
      var k: nat :| Open(m, streams, {}, x, k);
      assert Up(m, x, k) in streams && x in Subtree(m, Up(m, x, k));
    }
    if root :| root in streams && x in Subtree(m, root) {
      var k: nat :| Up(m, x, k) == root;
      assert Open(m, streams, {}, x, k);
    }
  }

  // An agent that keeps what is for it alone does not block its own way.
  lemma ReachedAlone(m: Mesh, streams: set<AgentId>, x: AgentId)
    requires Linked(m) && streams <= m.leaders && x in m.nodes
    ensures Reached(m, streams, {x}, x) <==> Beneath(m, streams, x)
  {
    ReachedByAll(m, streams, x);
    if k: nat :| Open(m, streams, {}, x, k) {
      forall i | 0 < i <= k ensures Up(m, x, i) != x {
        if Up(m, x, i) == x {
          assert Up(m, x, 0) == x;
          Shift(m, x, 0, i, k);
          TwoLeaders(m, x, k, k + i);
        }
      }
      assert Open(m, streams, {x}, x, k);
    }
    if k: nat :| Open(m, streams, {x}, x, k) {
      assert Open(m, streams, {}, x, k);
    }
  }

  // If everyone keeps it, it gets no further than the streams.
  lemma ReachedByNobody(m: Mesh, streams: set<AgentId>, x: AgentId)
    requires Linked(m) && streams <= m.leaders && x in m.nodes
    ensures Reached(m, streams, m.nodes.Keys, x) <==> x in streams
  {
    assert Up(m, x, 0) == x;
    if x in streams { assert Open(m, streams, m.nodes.Keys, x, 0); }
    if k: nat :| Open(m, streams, m.nodes.Keys, x, k) {
      assert k > 0 ==> Up(m, x, k) !in m.nodes.Keys;
    }
  }

  // So a broadcast that has died down with no send dropped has reached exactly the
  // agents beneath those leaders, each exactly once.
  lemma BroadcastDelivery(m: Mesh, streams: set<AgentId>, arrivals: seq<Arrival>, f: Flood)
    requires Linked(m) && streams <= m.leaders
    requires Run(m, {}, Start(streams), arrivals, f)
    ensures forall x :: f.received[x] <= 1
    ensures f.transit == multiset{} && Lossless(m, {}, arrivals) ==>
              forall x <- m.nodes :: f.received[x] == if Beneath(m, streams, x) then 1 else 0
  {
    hide Linked, Run, Lossless, Reached, Beneath;
    FloodDelivery(m, streams, {}, arrivals, f);
    forall x <- m.nodes ensures Reached(m, streams, {}, x) <==> Beneath(m, streams, x) {
      ReachedByAll(m, streams, x);
    }
  }

  // Different leaders have nothing in common beneath them.
  lemma LeaderSubtreesDisjoint(m: Mesh, a: AgentId, b: AgentId)
    requires Linked(m) && a in m.leaders && b in m.leaders && a != b
    ensures Subtree(m, a) !! Subtree(m, b)
  {
    forall x | x in Subtree(m, a) && x in Subtree(m, b) ensures false {
      var i: nat :| Up(m, x, i) == a;
      var j: nat :| Up(m, x, j) == b;
      TwoLeaders(m, x, i, j);
      TwoLeaders(m, x, j, i);
    }
  }

  lemma TwoLeaders(m: Mesh, x: AgentId, i: nat, j: nat)
    requires Linked(m) && Up(m, x, i) in m.leaders && Up(m, x, j) in m.leaders
    ensures i >= j
  {
    if i < j {
      UpNext(m, x, i);
      KnownBelow(m, x, i + 1, j);
    }
  }
}
