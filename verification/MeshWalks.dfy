// Facts about upward chains that hold on every mesh, cyclic ones included, and
// what the server's walks over parent pointers and child sets compute.
module MeshWalks {
  import opened Agents
  import opened Forest

  function ParentOf(m: Mesh, id: AgentId): AgentId {
    if id in m.nodes then m.nodes[id].parent else NoAgent
  }

  lemma {:induction false} UpNext(m: Mesh, id: AgentId, k: nat)
    requires NoAgent !in m.nodes
    ensures Up(m, id, k + 1) == ParentOf(m, Up(m, id, k))
    decreases k
  {
    if id in m.nodes {
      if k > 0 {
        UpNext(m, m.nodes[id].parent, k - 1);
      } else {
        assert Up(m, m.nodes[id].parent, 0) == m.nodes[id].parent;
      }
    }
  }

  // Below a known agent on the chain everything is known.
  lemma {:induction false} KnownBelow(m: Mesh, id: AgentId, i: nat, k: nat)
    requires NoAgent !in m.nodes && i <= k && Up(m, id, k) in m.nodes
    ensures Up(m, id, i) in m.nodes
    decreases k - i
  {
    if i < k {
      KnownBelow(m, id, i + 1, k);
      UpNext(m, id, i);
    }
  }

  // Once a chain repeats it shows nothing new.
  lemma {:induction false} Periodic(m: Mesh, id: AgentId, i: nat, k: nat, n: nat) returns (j: nat)
    requires NoAgent !in m.nodes && i < k && Up(m, id, i) == Up(m, id, k)
    ensures j < k && Up(m, id, j) == Up(m, id, n)
    decreases n
  {
    if n < k {
      j := n;
    } else {
      Shift(m, id, i, k, n - k);
      j := Periodic(m, id, i, k, n - (k - i));
    }
  }

  lemma {:induction false} Shift(m: Mesh, id: AgentId, i: nat, k: nat, d: nat)
    requires NoAgent !in m.nodes && Up(m, id, i) == Up(m, id, k)
    ensures Up(m, id, i + d) == Up(m, id, k + d)
  {
    if d > 0 {
      Shift(m, id, i, k, d - 1);
      UpNext(m, id, i + d - 1);
      UpNext(m, id, k + d - 1);
    }
  }

  // The k-th agent above id is a leader and none before it is.
  ghost predicate LeaderAt(m: Mesh, id: AgentId, k: nat) {
    && Up(m, id, k) in m.nodes && m.nodes[Up(m, id, k)].role == ZoneLeader
    && NoLeaderBefore(m, id, k)
  }

  ghost predicate NoLeaderBefore(m: Mesh, id: AgentId, k: nat) {
    forall i: nat | i < k :: Up(m, id, i) in m.nodes && m.nodes[Up(m, id, i)].role != ZoneLeader
  }

  ghost predicate LeaderRooted(m: Mesh, id: AgentId) {
    exists k: nat :: LeaderAt(m, id, k)
  }

  lemma LeaderAtUnique(m: Mesh, id: AgentId, j: nat, k: nat)
    requires LeaderAt(m, id, j) && LeaderAt(m, id, k)
    ensures j == k
  {}

  // A walk that came back to an agent already seen will never meet a leader it
  // has not met, and neither will one that ran off the known agents.
  lemma NoLeaderAhead(m: Mesh, id: AgentId, k: nat)
    requires NoAgent !in m.nodes
    requires NoLeaderBefore(m, id, k)
    requires Up(m, id, k) !in m.nodes || exists i: nat :: i < k && Up(m, id, i) == Up(m, id, k)
    ensures !LeaderRooted(m, id)
  {
    forall n: nat ensures !LeaderAt(m, id, n) {
      if LeaderAt(m, id, n) {
        if Up(m, id, k) !in m.nodes {
          if n >= k { KnownBelow(m, id, k, n); }
        } else {
          var i: nat :| i < k && Up(m, id, i) == Up(m, id, k);
          var j := Periodic(m, id, i, k, n);
        }
      }
    }
  }

  lemma NotReachedAhead(m: Mesh, id: AgentId, k: nat, target: AgentId)
    requires NoAgent !in m.nodes && target in m.nodes
    requires forall i: nat | i < k :: Up(m, id, i) != target
    requires Up(m, id, k) !in m.nodes || exists i: nat :: i < k && Up(m, id, i) == Up(m, id, k)
    ensures !Reaches(m, id, target)
  {
    forall n: nat ensures Up(m, id, n) != target {
      if Up(m, id, k) !in m.nodes {
        if n >= k && Up(m, id, n) == target { KnownBelow(m, id, k, n); }
      } else {
        var i: nat :| i < k && Up(m, id, i) == Up(m, id, k);
        var j := Periodic(m, id, i, k, n);
      }
    }
  }

  lemma NotReachedUnknown(m: Mesh, id: AgentId, target: AgentId)
    requires NoAgent !in m.nodes && id !in m.nodes && target in m.nodes
    ensures !Reaches(m, id, target)
  {
    assert Up(m, id, 0) == id;
    NotReachedAhead(m, id, 0, target);
  }

  // A set of agents that contains root, only holds agents whom child sets lead
  // to from it, and is closed under child sets is the whole child tree.
  lemma ClosedIsChildTree(m: Mesh, root: AgentId, found: set<AgentId>)
    requires Coherent(m) && root in found && found <= m.nodes.Keys
    requires forall x <- found :: Reaches(Agreed(m), x, root)
    requires forall x <- found, c <- m.nodes[x].children :: c in found
    ensures found == ChildTree(m, root)
  {
    forall x <- ChildTree(m, root) ensures x in found {
      var k: nat :| Up(Agreed(m), x, k) == root;
      DescendantFound(m, root, found, x, k);
    }
  }

  lemma {:induction false} DescendantFound(m: Mesh, root: AgentId, found: set<AgentId>, x: AgentId, k: nat)
    requires Coherent(m) && root in found && found <= m.nodes.Keys
    requires forall y <- found, c <- m.nodes[y].children :: c in found
    requires x in m.nodes && Up(Agreed(m), x, k) == root
    ensures x in found
    decreases k
  {
    if k > 0 {
      UpEnds(Agreed(m), k - 1);
      var p := Agreed(m).nodes[x].parent;
      assert p in m.nodes && x in m.nodes[p].children;
      DescendantFound(m, root, found, p, k - 1);
    }
  }

  lemma ChildReaches(m: Mesh, x: AgentId, c: AgentId, root: AgentId)
    requires Coherent(m) && x in m.nodes && c in m.nodes[x].children && Reaches(Agreed(m), x, root)
    ensures Reaches(Agreed(m), c, root)
  {
    var k: nat :| Up(Agreed(m), x, k) == root;
    assert Agreed(m).nodes[c].parent == x;
    assert Up(Agreed(m), c, k + 1) == root;
  }

  // The route to id: its leader first, then down parent links to id itself.
  ghost predicate IsRoute(m: Mesh, id: AgentId, path: seq<AgentId>) {
    && path != []
    && LeaderAt(m, id, |path| - 1)
    && forall j | 0 <= j < |path| :: path[j] == Up(m, id, |path| - 1 - j)
  }

  lemma ClimbedRoute(m: Mesh, id: AgentId, climbed: seq<AgentId>)
    requires climbed != [] && LeaderAt(m, id, |climbed| - 1)
    requires forall i | 0 <= i < |climbed| :: climbed[i] == Up(m, id, i)
    ensures LeaderRooted(m, id) && IsRoute(m, id, Reversed(climbed)) && Reversed(climbed) != []
  {}

  // Read forwards, a route starts at a leader, follows parent links, never
  // visits an agent twice and ends at its target.
  lemma RouteShape(m: Mesh, id: AgentId, path: seq<AgentId>)
    requires NoAgent !in m.nodes && IsRoute(m, id, path)
    ensures path[|path| - 1] == id && NoDups(path)
    ensures path[0] in m.nodes && m.nodes[path[0]].role == ZoneLeader
    ensures forall j | 0 <= j < |path| :: path[j] in m.nodes
    ensures forall j | 0 <= j < |path| - 1 :: m.nodes[path[j + 1]].parent == path[j]
  {
    var k := |path| - 1;
    forall j | 0 <= j < k ensures ParentOf(m, path[j + 1]) == path[j] {
      UpNext(m, id, k - 1 - j);
    }
    forall i, j | 0 <= i < j <= k ensures path[i] != path[j] {
      if path[i] == path[j] {
        Shift(m, id, k - j, k - i, i);
      }
    }
  }

  // --------------------------------------------------------------------
  // Choosing a parent
  // --------------------------------------------------------------------

  // Personal probation lowers a node's capacity; it never raises it.
  function Capacity(isFlaky: bool, maxChildren: int, probationCap: int): int {
    if isFlaky && probationCap < maxChildren then probationCap else maxChildren
  }

  // `flaky` holds the agents on personal probation when the choice is made;
  // `hot` those whose failure domain has a correlated reboot under way.
  datatype Placement = Placement(flaky: set<AgentId>, hot: set<AgentId>, maxChildren: int, probationCap: int) {
    function CapacityOf(id: AgentId): int {
      Capacity(id in flaky, maxChildren, probationCap)
    }
  }

  predicate IsCandidate(m: Mesh, cfg: Placement, id: AgentId) {
    && id in m.nodes
    && m.nodes[id].online && m.nodes[id].listenAddr != "" && m.nodes[id].role != Unassigned
    && |m.nodes[id].children| < cfg.CapacityOf(id)
  }

  // a is strictly preferred to b: stable before flaky or hot, then shallower,
  // then less loaded.
  predicate Preferred(m: Mesh, cfg: Placement, a: AgentId, b: AgentId)
    requires a in m.nodes && b in m.nodes
  {
    var fa, fb := a in cfg.flaky || a in cfg.hot, b in cfg.flaky || b in cfg.hot;
    var na, nb := m.nodes[a], m.nodes[b];
    if fa != fb then !fa
    else if na.depth != nb.depth then na.depth < nb.depth
    else |na.children| < |nb.children|
  }

  // A parent the choice may come out with: nothing is strictly preferred to
  // it, and map order decides among those.
  ghost predicate Unbeaten(m: Mesh, cfg: Placement, id: AgentId) {
    IsCandidate(m, cfg, id) && forall x | IsCandidate(m, cfg, x) :: !Preferred(m, cfg, x, id)
  }

  ghost predicate NobodyHasRoom(m: Mesh, cfg: Placement) {
    forall x :: !IsCandidate(m, cfg, x)
  }

  // Probation can only take room away.
  lemma CapacityLeavesRoom(isFlaky: bool, maxChildren: int, probationCap: int, n: nat)
    ensures n < Capacity(isFlaky, maxChildren, probationCap) <==> n < maxChildren && (isFlaky ==> n < probationCap)
  {}

  // Online, with an address and a place in the mesh, and with fewer children than
  // the limits that apply.
  ghost predicate HasRoom(m: Mesh, cfg: Placement, id: AgentId) {
    id in m.nodes &&
    var n := m.nodes[id];
    && n.online && n.listenAddr != "" && (n.role == Relay || n.role == ZoneLeader)
    && |n.children| < cfg.maxChildren && (id in cfg.flaky ==> |n.children| < cfg.probationCap)
  }

  ghost predicate Steady(cfg: Placement, id: AgentId) {
    id !in cfg.flaky && id !in cfg.hot
  }

  // In the fields of the nodes: an unbeaten parent has room; it is steady if any
  // node with room is; of those as steady none is shallower; and of those as
  // steady and as deep none has fewer children.
  lemma UnbeatenMeans(m: Mesh, cfg: Placement, id: AgentId)
    ensures NobodyHasRoom(m, cfg) <==> forall x :: !HasRoom(m, cfg, x)
    ensures Unbeaten(m, cfg, id) <==>
              && HasRoom(m, cfg, id)
              && (forall x | HasRoom(m, cfg, x) && Steady(cfg, x) :: Steady(cfg, id))
              && (forall x | HasRoom(m, cfg, x) && Steady(cfg, x) == Steady(cfg, id) :: m.nodes[id].depth <= m.nodes[x].depth)
              && (forall x | HasRoom(m, cfg, x) && Steady(cfg, x) == Steady(cfg, id) && m.nodes[x].depth == m.nodes[id].depth ::
                    |m.nodes[id].children| <= |m.nodes[x].children|)
  {
    forall x ensures IsCandidate(m, cfg, x) <==> HasRoom(m, cfg, x) {
      if x in m.nodes { CapacityLeavesRoom(x in cfg.flaky, cfg.maxChildren, cfg.probationCap, |m.nodes[x].children|); }
    }
  }

  // What the choice comes out with when the nodes are met in this order; NoAgent
  // when none of them is a candidate.
  ghost function Pick(m: Mesh, cfg: Placement, order: seq<AgentId>): (best: AgentId)
    ensures best != NoAgent ==> IsCandidate(m, cfg, best)
    decreases |order|
  {
    if order == [] then NoAgent
    else
      var best, id := Pick(m, cfg, order[..|order| - 1]), order[|order| - 1];
      if !IsCandidate(m, cfg, id) then best
      else if best == NoAgent || Preferred(m, cfg, id, best) then id
      else best
  }

  ghost predicate IsOrder(m: Mesh, order: seq<AgentId>) {
    NoDups(order) && Elems(order) == m.nodes.Keys
  }

  lemma {:induction false} PickUnbeaten(m: Mesh, cfg: Placement, order: seq<AgentId>)
    requires NoAgent !in m.nodes
    ensures forall x | x in order && IsCandidate(m, cfg, x) :: Pick(m, cfg, order) != NoAgent && !Preferred(m, cfg, x, Pick(m, cfg, order))
    decreases |order|
  {
    if order != [] {
      var init, last := order[..|order| - 1], order[|order| - 1];
      assert order == init + [last];
      PickUnbeaten(m, cfg, init);
    }
  }

  lemma {:induction false} FirstStays(m: Mesh, cfg: Placement, p: AgentId, rest: seq<AgentId>)
    requires NoAgent !in m.nodes && Unbeaten(m, cfg, p)
    ensures Pick(m, cfg, [p] + rest) == p
    decreases |rest|
  {
    var order := [p] + rest;
    if rest == [] {
      assert order[..0] == [] && order[0] == p;
    } else {
      assert order[..|order| - 1] == [p] + rest[..|rest| - 1];
      FirstStays(m, cfg, p, rest[..|rest| - 1]);
    }
  }

  lemma {:induction false} SomeOrder<T>(s: set<T>) returns (order: seq<T>)
    ensures NoDups(order) && Elems(order) == s
  {
    order := [];
    var rest := s;
    while rest != {}
      invariant rest <= s && NoDups(order) && Elems(order) == s - rest
      decreases rest
    {
      var x :| x in rest;
      ElemsSnoc(order, x);
      NoDupsSnoc(order, x);
      order, rest := order + [x], rest - {x};
    }
  }

  // The unbeaten nodes are exactly those some order of the nodes leads to.
  lemma UnbeatenIff(m: Mesh, cfg: Placement, p: AgentId)
    requires NoAgent !in m.nodes
    ensures Unbeaten(m, cfg, p) <==> p != NoAgent && exists order | IsOrder(m, order) :: Pick(m, cfg, order) == p
  {
    hide Pick, Preferred, NoDups;
    if Unbeaten(m, cfg, p) {
      var rest := SomeOrder(m.nodes.Keys - {p});
      ElemsFirst(p, rest);
      FirstStays(m, cfg, p, rest);
      assert IsOrder(m, [p] + rest);
    }
    if order :| IsOrder(m, order) && Pick(m, cfg, order) == p && p != NoAgent {
      PickUnbeaten(m, cfg, order);
      forall x | IsCandidate(m, cfg, x) ensures x in order { assert x in Elems(order); }
    }
  }

  lemma ElemsFirst<T>(x: T, s: seq<T>)
    requires NoDups(s) && x !in Elems(s)
    ensures NoDups([x] + s) && Elems([x] + s) == {x} + Elems(s)
  {}

  // --------------------------------------------------------------------
  // The walk of AttachObserved
  // --------------------------------------------------------------------

  // The chain above from runs out or meets target.
  ghost predicate WalkEnds(m: Mesh, from: AgentId, target: AgentId) {
    exists k: nat :: Up(m, from, k) == target || Up(m, from, k) !in m.nodes
  }

  // On an acyclic mesh every chain runs out.
  lemma {:induction false} AcyclicWalksEnd(m: Mesh, from: AgentId, target: AgentId)
    requires NoAgent !in m.nodes && Acyclic(m)
    ensures WalkEnds(m, from, target)
  {
    if !WalkEnds(m, from, target) {
      var seen := NeverRepeats(m, from, |m.nodes.Keys| + 1);
      DistinctWithin(seen, m.nodes.Keys);
    }
  }

  lemma {:induction false} NeverRepeats(m: Mesh, from: AgentId, n: nat) returns (seen: seq<AgentId>)
    requires NoAgent !in m.nodes && Acyclic(m)
    requires forall k: nat :: Up(m, from, k) in m.nodes
    ensures |seen| == n && NoDups(seen) && forall i | 0 <= i < n :: seen[i] == Up(m, from, i) && seen[i] in m.nodes
  {
    seen := [];
    for i := 0 to n
      invariant |seen| == i && NoDups(seen) && forall j | 0 <= j < i :: seen[j] == Up(m, from, j) && seen[j] in m.nodes
    {
      forall j: nat | j < i ensures Up(m, from, j) != Up(m, from, i) {
        UpCompose(m, from, j, i - j);
      }
      seen := seen + [Up(m, from, i)];
    }
  }

  lemma {:induction false} DistinctWithin<T>(s: seq<T>, all: set<T>)
    requires NoDups(s) && forall i | 0 <= i < |s| :: s[i] in all
    ensures |s| <= |all|
  {
    if s != [] {
      var last := s[|s| - 1];
      DistinctWithin(s[..|s| - 1], all - {last});
    }
  }
}
