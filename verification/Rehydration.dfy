// Rebuilding the mesh from agent rows after a restart: what the rows load as,
// what wiring them from the leaders down must produce, and when it ends.
module Rehydration {
  import opened Agents
  import opened Forest
  import opened MeshWalks

  // A row of the agents table, as far as the mesh cares.  parent is NoAgent for
  // a NULL parent_id; the role column is free text.
  datatype AgentRow = AgentRow(id: AgentId, listenAddr: string, role: string, parent: AgentId, online: bool)

  function RoleOf(text: string): Role {
    if text == "zone_leader" then ZoneLeader else if text == "relay" then Relay else Unassigned
  }

  function RoleText(role: Role): string {
    match role
    case ZoneLeader => "zone_leader"
    case Relay => "relay"
    case Unassigned => ""
  }

  // One node of a topology snapshot.
  datatype NodeInfo = NodeInfo(id: AgentId, listenAddr: string, role: Role, parentID: AgentId, depth: nat, online: bool)

  function InfoOf(m: Mesh, id: AgentId): NodeInfo
    requires id in m.nodes
  {
    var n := m.nodes[id];
    NodeInfo(id, n.listenAddr, n.role, n.parent, n.depth, n.online)
  }

  // Every node exactly once, all as of the same mesh.
  ghost predicate SnapshotOf(m: Mesh, out: seq<NodeInfo>) {
    && NoDups(out)
    && (forall n <- out :: n.id in m.nodes && n == InfoOf(m, n.id))
    && (forall x <- m.nodes :: InfoOf(m, x) in out)
  }

  // So it shows of every agent what the mesh holds of it.
  lemma SnapshotShows(m: Mesh, out: seq<NodeInfo>, x: AgentId)
    requires SnapshotOf(m, out) && x in m.nodes
    ensures exists n <- out :: n.id == x && n.listenAddr == m.nodes[x].listenAddr && n.role == m.nodes[x].role
                               && n.parentID == m.nodes[x].parent && n.depth == m.nodes[x].depth && n.online == m.nodes[x].online
  {
    assert InfoOf(m, x) in out;
  }

  function LoadRow(m: Mesh, a: AgentRow): Mesh {
    var role := RoleOf(a.role);
    Mesh(m.nodes[a.id := Node(role, a.parent, {}, 0, a.online, a.listenAddr)],
         if role == ZoneLeader then m.leaders + {a.id} else m.leaders)
  }

  function Load(rows: seq<AgentRow>): Mesh {
    if rows == [] then EMPTY_MESH else LoadRow(Load(rows[..|rows| - 1]), rows[|rows| - 1])
  }

  ghost function ChildrenIn(m: Mesh, p: AgentId): set<AgentId> {
    set c | c in m.nodes && m.nodes[c].parent == p
  }

  ghost predicate BeneathLeader(m: Mesh, id: AgentId) {
    exists k: nat :: Up(m, id, k) in m.leaders
  }

  ghost predicate LeadersParentless(m: Mesh) {
    forall l <- m.leaders :: l in m.nodes && m.nodes[l].parent == NoAgent
  }

  // The wiring loop ends exactly on meshes with this property (WiringEndsIff).
  ghost predicate NoLeaderOnCycle(m: Mesh) {
    forall l, k: nat | l in m.leaders && k > 0 :: Up(m, l, k) != l
  }

  lemma ParentlessOffCycle(m: Mesh)
    requires NoAgent !in m.nodes && LeadersParentless(m)
    ensures NoLeaderOnCycle(m)
  {
    forall l, k: nat | l in m.leaders && k > 0 ensures Up(m, l, k) != l {
      UpEnds(m, k - 1);
    }
  }

  // A loaded node and a wired one differ only in children and depth.
  ghost predicate SameRow(a: Node, b: Node) {
    a.role == b.role && a.parent == b.parent && a.online == b.online && a.listenAddr == b.listenAddr
  }

  ghost predicate SameRows(m: Mesh, m': Mesh) {
    && m'.nodes.Keys == m.nodes.Keys && m'.leaders == m.leaders
    && forall x <- m.nodes :: SameRow(m.nodes[x], m'.nodes[x])
  }

  // What wiring a loaded mesh from its leaders produces: true child sets for
  // everyone at or beneath a leader, and as depth the hops up to the topmost
  // leader of the chain.
  ghost predicate Rewired(m: Mesh, m': Mesh) {
    && SameRows(m, m')
    && (forall p <- m.nodes :: m'.nodes[p].children == if BeneathLeader(m, p) then ChildrenIn(m, p) else {})
    && (forall x <- m.nodes :: if BeneathLeader(m, x) then HopsToTop(m, x, m'.nodes[x].depth) else m'.nodes[x].depth == 0)
  }

  // d hops above x is a leader, and there is none further up.
  ghost predicate HopsToTop(m: Mesh, x: AgentId, d: nat) {
    Up(m, x, d) in m.leaders && forall k: nat | Up(m, x, k) in m.leaders :: k <= d
  }

  // With parentless leaders there is only one to count from.
  lemma RewiredHops(m: Mesh, m': Mesh, x: AgentId, k: nat)
    requires NoAgent !in m.nodes && LeadersParentless(m) && Rewired(m, m')
    requires x in m.nodes && Up(m, x, k) in m.leaders
    ensures m'.nodes[x].depth == k
  {
    UniqueGeneration(m, x, k, m'.nodes[x].depth);
  }

  lemma {:induction false} LoadKnows(rows: seq<AgentRow>)
    requires forall a <- rows :: a.id != NoAgent
    ensures NoAgent !in Load(rows).nodes && Load(rows).leaders <= Load(rows).nodes.Keys
    ensures forall x <- Load(rows).nodes :: Load(rows).nodes[x].children == {} && Load(rows).nodes[x].depth == 0
  {
    if rows != [] {
      LoadKnows(rows[..|rows| - 1]);
    }
  }

  // --------------------------------------------------------------------
  // The wiring loop.  m: as loaded; cur: as wired so far; queued: every agent
  // put on the queue; done: those already expanded.
  // --------------------------------------------------------------------

  ghost predicate QueuedRight(m: Mesh, queued: set<AgentId>, done: set<AgentId>) {
    && m.leaders <= queued <= m.nodes.Keys && done <= queued
    && (forall x {:trigger BeneathLeader(m, x)} | x in queued :: BeneathLeader(m, x))
    && (forall c <- m.nodes {:trigger m.nodes[c].parent} :: m.nodes[c].parent in done ==> c in queued)
  }

  ghost predicate ChildrenRight(m: Mesh, cur: Mesh, done: set<AgentId>)
    requires SameRows(m, cur)
  {
    forall p <- m.nodes :: cur.nodes[p].children == if p in done then ChildrenIn(m, p) else {}
  }

  // Stored depths lead to leaders, and a child is below its parent unless the
  // parent still waits to be expanded.
  ghost predicate DepthRight(m: Mesh, cur: Mesh, queued: set<AgentId>, pending: set<AgentId>)
    requires SameRows(m, cur)
  {
    && (forall x <- m.nodes :: if x in queued then LeaderUp(m, x, cur.nodes[x].depth) else cur.nodes[x].depth == 0)
    && (forall p, c {:trigger c in ChildrenIn(m, p)} | p in queued - pending && p in m.nodes && c in ChildrenIn(m, p) ::
          cur.nodes[p].depth < cur.nodes[c].depth)
  }

  ghost predicate LeaderUp(m: Mesh, x: AgentId, d: nat) {
    Up(m, x, d) in m.leaders
  }

  ghost predicate Wiring(m: Mesh, cur: Mesh, queued: set<AgentId>, done: set<AgentId>, pending: set<AgentId>) {
    SameRows(m, cur) && QueuedRight(m, queued, done) && ChildrenRight(m, cur, done) && DepthRight(m, cur, queued, pending)
  }

  // The first i entries of the queue have been expanded.
  ghost predicate WiredTo(m: Mesh, cur: Mesh, queue: seq<AgentId>, i: nat) {
    i <= |queue| && Wiring(m, cur, Elems(queue), Elems(queue[..i]), Elems(queue[i..]))
  }

  // cur' is cur with p's children hung beneath it.
  ghost predicate Expanded(m: Mesh, cur: Mesh, cur': Mesh, p: AgentId)
    requires p in cur.nodes
  {
    && SameRows(cur, cur')
    && (forall x <- cur.nodes :: cur'.nodes[x].children == if x == p then cur.nodes[x].children + ChildrenIn(m, p) else cur.nodes[x].children)
    && (forall x <- cur.nodes :: cur'.nodes[x].depth == if x in ChildrenIn(m, p) then cur.nodes[p].depth + 1 else cur.nodes[x].depth)
  }

  lemma WiringStart(m: Mesh)
    requires NoAgent !in m.nodes && m.leaders <= m.nodes.Keys
    requires forall x <- m.nodes :: m.nodes[x].children == {} && m.nodes[x].depth == 0
    ensures Wiring(m, m, m.leaders, {}, m.leaders)
  {
    forall x <- m.leaders ensures BeneathLeader(m, x) {
      assert Up(m, x, 0) == x;
    }
  }

  lemma LevelledStart(m: Mesh, queue: seq<AgentId>)
    requires Elems(queue) == m.leaders
    ensures Levelled(m, queue, seq(|queue|, _ => 0), 0)
  {
    forall j | 0 <= j < |queue| ensures Up(m, queue[j], 0) in m.leaders {
      assert queue[j] in Elems(queue);
    }
  }

  lemma NotOwnParent(m: Mesh, p: AgentId, g: nat)
    requires NoAgent !in m.nodes && m.leaders <= m.nodes.Keys && NoLeaderOnCycle(m)
    requires Up(m, p, g) in m.leaders
    ensures p in m.nodes && m.nodes[p].parent != p
  {
    KnownBelow(m, p, 0, g);
    assert Up(m, p, 0) == p;
    if m.nodes[p].parent == p {
      assert Up(m, p, 1) == Up(m, p, 0);
      SelfParent(m, p, g);
    }
  }

  lemma {:induction false} SelfParent(m: Mesh, p: AgentId, g: nat)
    requires p in m.nodes && m.nodes[p].parent == p
    ensures Up(m, p, g) == p
  {
    if g > 0 { SelfParent(m, p, g - 1); }
  }

  lemma ExpandedFromLoaded(m: Mesh, cur: Mesh, cur': Mesh, p: AgentId)
    requires SameRows(m, cur) && p in cur.nodes && Expanded(cur, cur, cur', p)
    ensures ChildrenIn(cur, p) == ChildrenIn(m, p) && Expanded(m, cur, cur', p)
  {}

  lemma ElemsGrow(queue: seq<AgentId>, kids: seq<AgentId>, i: nat)
    requires i < |queue|
    ensures Elems(queue + kids) == Elems(queue) + Elems(kids)
    ensures Elems((queue + kids)[..i + 1]) == Elems(queue[..i]) + {queue[i]}
    ensures Elems(queue[i..]) == {queue[i]} + Elems(queue[i + 1..])
    ensures Elems((queue + kids)[i + 1..]) == Elems(queue[i + 1..]) + Elems(kids)
    ensures queue[i] in Elems(queue)
  {
    assert queue[i..] == [queue[i]] + queue[i + 1..];
    assert (queue + kids)[i + 1..] == queue[i + 1..] + kids;
    assert (queue + kids)[..i + 1] == queue[..i] + [queue[i]];
  }

  // Part of p's children, hung.
  ghost predicate Hanging(cur: Mesh, cur': Mesh, p: AgentId, hung: set<AgentId>)
    requires p in cur.nodes
  {
    && SameRows(cur, cur')
    && (forall x <- cur.nodes :: cur'.nodes[x].children == if x == p then cur.nodes[x].children + hung else cur.nodes[x].children)
    && (forall x <- cur.nodes :: cur'.nodes[x].depth == if x in hung then cur.nodes[p].depth + 1 else cur.nodes[x].depth)
  }

  function Hang(m: Mesh, p: AgentId, id: AgentId): Mesh
    requires p in m.nodes && id in m.nodes
  {
    var u := AddChild(m, p, id);
    u.(nodes := u.nodes[id := u.nodes[id].(depth := u.nodes[p].depth + 1)])
  }

  lemma HangNone(cur: Mesh, p: AgentId)
    requires p in cur.nodes
    ensures Hanging(cur, cur, p, {})
  {}

  lemma HangingRow(cur: Mesh, cur': Mesh, p: AgentId, hung: set<AgentId>, id: AgentId)
    requires p in cur.nodes && Hanging(cur, cur', p, hung) && id in cur.nodes
    ensures id in cur'.nodes && cur'.nodes[id].parent == cur.nodes[id].parent
  {}

  lemma HangAll(cur: Mesh, cur': Mesh, p: AgentId)
    requires p in cur.nodes && Hanging(cur, cur', p, ChildrenIn(cur, p))
    ensures Expanded(cur, cur, cur', p)
  {}

  lemma NextChild(m: Mesh, p: AgentId, rest: set<AgentId>, id: AgentId)
    requires id in rest && id in m.nodes
    ensures ChildrenIn(m, p) - (rest - {id}) ==
              (ChildrenIn(m, p) - rest) + (if m.nodes[id].parent == p then {id} else {})
  {}

  lemma ChildrenKnown(m: Mesh, p: AgentId)
    ensures ChildrenIn(m, p) <= m.nodes.Keys
    ensures p in m.nodes && m.nodes[p].parent != p ==> p !in ChildrenIn(m, p)
  {}

  lemma HangOne(cur: Mesh, mid: Mesh, p: AgentId, hung: set<AgentId>, id: AgentId)
    requires p in cur.nodes && Hanging(cur, mid, p, hung) && id in cur.nodes && p !in hung
    ensures p in mid.nodes && Hanging(cur, Hang(mid, p, id), p, hung + {id})
  {
    HangNodes(mid, p, id);
    HangSameRows(cur, mid, p, id);
    RowKeys(cur, mid);
    hide Hang, SameRows;
    var h := Hang(mid, p, id);
    forall x <- cur.nodes ensures h.nodes[x].children == if x == p then cur.nodes[x].children + (hung + {id}) else cur.nodes[x].children {
      assert h.nodes[x].children == if x == p then mid.nodes[x].children + {id} else mid.nodes[x].children;
    }
    forall x <- cur.nodes ensures h.nodes[x].depth == if x in hung + {id} then cur.nodes[p].depth + 1 else cur.nodes[x].depth {
      assert h.nodes[x].depth == if x == id then mid.nodes[p].depth + 1 else mid.nodes[x].depth;
    }
  }

  lemma RowKeys(m: Mesh, m': Mesh)
    requires SameRows(m, m')
    ensures m'.nodes.Keys == m.nodes.Keys
  {}

  lemma HangSameRows(cur: Mesh, mid: Mesh, p: AgentId, id: AgentId)
    requires SameRows(cur, mid) && p in mid.nodes && id in mid.nodes
    ensures SameRows(cur, Hang(mid, p, id))
  {
    HangNodes(mid, p, id);
    hide Hang;
  }

  lemma HangNodes(m: Mesh, p: AgentId, id: AgentId)
    requires p in m.nodes && id in m.nodes
    ensures var h := Hang(m, p, id);
            && h.leaders == m.leaders && h.nodes.Keys == m.nodes.Keys
            && forall x <- m.nodes :: h.nodes[x] ==
                 var n := if x == p then m.nodes[x].(children := m.nodes[x].children + {id}) else m.nodes[x];
                 if x == id then n.(depth := m.nodes[p].depth + 1) else n
  {}

  // How far an agent is below a parentless leader is unambiguous.
  lemma UniqueGeneration(m: Mesh, x: AgentId, j: nat, k: nat)
    requires NoAgent !in m.nodes && LeadersParentless(m)
    requires j <= k && Up(m, x, j) in m.leaders && Up(m, x, k) in m.leaders
    ensures j == k
  {
    if j < k {
      UpNext(m, x, j);
      KnownBelow(m, x, j + 1, k);
    }
  }

  lemma ExpandQueued(m: Mesh, queued: set<AgentId>, done: set<AgentId>, p: AgentId)
    requires QueuedRight(m, queued, done) && p in queued
    ensures QueuedRight(m, queued + ChildrenIn(m, p), done + {p})
  {
    assert BeneathLeader(m, p);
    forall c <- ChildrenIn(m, p) ensures BeneathLeader(m, c) {
      var k: nat :| Up(m, p, k) in m.leaders;
      assert Up(m, c, k + 1) == Up(m, p, k);
    }
  }

  lemma ExpandDepth(m: Mesh, cur: Mesh, cur': Mesh, queued: set<AgentId>, pending: set<AgentId>, p: AgentId)
    requires NoAgent !in m.nodes && SameRows(m, cur) && DepthRight(m, cur, queued, pending + {p})
    requires p in queued && p in m.nodes && m.nodes[p].parent != p && Expanded(m, cur, cur', p)
    ensures SameRows(m, cur') && DepthRight(m, cur', queued + ChildrenIn(m, p), pending + ChildrenIn(m, p))
  {
    forall x <- ChildrenIn(m, p) ensures LeaderUp(m, x, cur'.nodes[x].depth) {
      OneFurtherUp(m, p, x, cur.nodes[p].depth);
    }
    hide LeaderUp, ChildrenIn;
    assert p !in ChildrenIn(m, p) by { ChildrenKnown(m, p); }
  }

  lemma OneFurtherUp(m: Mesh, p: AgentId, x: AgentId, d: nat)
    requires x in ChildrenIn(m, p) && LeaderUp(m, p, d)
    ensures LeaderUp(m, x, d + 1)
  {
    assert Up(m, x, d + 1) == Up(m, p, d);
  }

  lemma ExpandChildren(m: Mesh, cur: Mesh, cur': Mesh, done: set<AgentId>, p: AgentId)
    requires SameRows(m, cur) && ChildrenRight(m, cur, done)
    requires p in m.nodes && Expanded(m, cur, cur', p)
    ensures SameRows(m, cur') && ChildrenRight(m, cur', done + {p})
  {}

  lemma WiringStep(m: Mesh, cur: Mesh, cur': Mesh, queued: set<AgentId>, done: set<AgentId>, pending: set<AgentId>, p: AgentId)
    requires NoAgent !in m.nodes && Wiring(m, cur, queued, done, pending + {p})
    requires p in queued && m.nodes[p].parent != p && Expanded(m, cur, cur', p)
    ensures Wiring(m, cur', queued + ChildrenIn(m, p), done + {p}, pending + ChildrenIn(m, p))
  {
    ExpandQueued(m, queued, done, p);
    ExpandChildren(m, cur, cur', done, p);
    ExpandDepth(m, cur, cur', queued, pending, p);
  }

  lemma WiringDone(m: Mesh, cur: Mesh, queued: set<AgentId>)
    requires NoAgent !in m.nodes && m.leaders <= m.nodes.Keys
    requires Wiring(m, cur, queued, queued, {})
    ensures Rewired(m, cur)
  {
    hide SameRow, LeaderUp, HopsToTop, ChildrenIn;
    forall x <- m.nodes ensures x in queued <==> BeneathLeader(m, x) {
      if k: nat :| Up(m, x, k) in m.leaders {
        AllQueued(m, queued, x, k);
      }
    }
    forall x | x in m.nodes && x in queued ensures HopsToTop(m, x, cur.nodes[x].depth) {
      DeepestHops(m, cur, queued, x);
    }
  }

  lemma DeepestHops(m: Mesh, cur: Mesh, queued: set<AgentId>, x: AgentId)
    requires NoAgent !in m.nodes && m.leaders <= m.nodes.Keys && SameRows(m, cur)
    requires QueuedRight(m, queued, queued) && DepthRight(m, cur, queued, {}) && x in queued && x in m.nodes
    ensures HopsToTop(m, x, cur.nodes[x].depth)
  {
    hide QueuedRight, SameRow;
    assert LeaderUp(m, x, cur.nodes[x].depth);
    forall k: nat | Up(m, x, k) in m.leaders ensures k <= cur.nodes[x].depth {
      DeepEnough(m, cur, queued, x, k);
    }
  }

  lemma {:induction false} DeepEnough(m: Mesh, cur: Mesh, queued: set<AgentId>, x: AgentId, k: nat)
    requires NoAgent !in m.nodes && m.leaders <= m.nodes.Keys && SameRows(m, cur)
    requires QueuedRight(m, queued, queued) && DepthRight(m, cur, queued, {})
    requires x in m.nodes && Up(m, x, k) in m.leaders
    ensures k <= cur.nodes[x].depth
    decreases k
  {
    if k > 0 {
      KnownBelow(m, x, 1, k);
      var p := m.nodes[x].parent;
      assert Up(m, x, 1) == Up(m, p, 0) == p;
      DeepEnough(m, cur, queued, p, k - 1);
      AllQueued(m, queued, p, k - 1);
      assert x in ChildrenIn(m, p);
    }
  }

  lemma {:induction false} AllQueued(m: Mesh, queued: set<AgentId>, x: AgentId, k: nat)
    requires NoAgent !in m.nodes && m.leaders <= m.nodes.Keys
    requires QueuedRight(m, queued, queued)
    requires x in m.nodes && Up(m, x, k) in m.leaders
    ensures x in queued
    decreases k
  {
    if k > 0 {
      KnownBelow(m, x, 1, k);
      assert Up(m, x, 1) == Up(m, m.nodes[x].parent, 0);
      AllQueued(m, queued, m.nodes[x].parent, k - 1);
    }
  }

  // --------------------------------------------------------------------
  // Termination
  // --------------------------------------------------------------------

  lemma {:induction false} DistinctCount<T>(s: seq<T>, all: set<T>)
    requires NoDups(s) && Elems(s) <= all
    ensures |s| <= |all|
  {
    if s != [] {
      var rest := s[..|s| - 1];
      assert forall x <- rest :: exists i :: 0 <= i < |rest| && s[i] == x;
      assert s[|s| - 1] in Elems(s);
      DistinctCount(rest, all - {s[|s| - 1]});
    }
  }

  // Off cycles, an agent is fewer links below its leader than there are agents.
  lemma GenerationBound(m: Mesh, x: AgentId, g: nat)
    requires NoAgent !in m.nodes && m.leaders <= m.nodes.Keys && NoLeaderOnCycle(m)
    requires Up(m, x, g) in m.leaders
    ensures g < |m.nodes.Keys|
  {
    var chain := seq(g + 1, i requires 0 <= i => Up(m, x, i));
    forall i, j | 0 <= i < j < |chain| ensures chain[i] != chain[j] {
      if chain[i] == chain[j] {
        Shift(m, x, i, j, g - j);
        UpCompose(m, x, g - (j - i), j - i);
      }
    }
    forall i | 0 <= i < |chain| ensures chain[i] in m.nodes {
      KnownBelow(m, x, i, g);
    }
    DistinctCount(chain, m.nodes.Keys);
  }

  // gens[j]: how many parent links lie between queue[j] and the leader it was
  // found from.  Breadth first, so generations never decrease or skip one.
  ghost predicate Levelled(m: Mesh, queue: seq<AgentId>, gens: seq<nat>, i: nat) {
    && i <= |queue| == |gens|
    && (forall j | 0 <= j < |queue| :: Up(m, queue[j], gens[j]) in m.leaders)
    && (forall a, b | i <= a <= b < |gens| :: gens[a] <= gens[b])
    && (forall b | i <= b < |gens| :: gens[b] <= gens[i] + 1)
  }

  // How many entries from i on share i's generation without a break.
  ghost function LevelRest(gens: seq<nat>, i: nat): nat
    decreases |gens| - i
  {
    if i >= |gens| then 0
    else if i + 1 < |gens| && gens[i + 1] == gens[i] then 1 + LevelRest(gens, i + 1)
    else 1
  }

  ghost function LevelsLeft(bound: nat, gens: seq<nat>, i: nat): int {
    if i < |gens| then bound - gens[i] + 1 else 0
  }

  lemma {:induction false} LevelRestAppend(gens: seq<nat>, tail: seq<nat>, i: nat)
    requires i < |gens| && forall t <- tail :: t != gens[i]
    ensures LevelRest(gens + tail, i) == LevelRest(gens, i)
    decreases |gens| - i
  {
    var gens' := gens + tail;
    assert forall j | 0 <= j < |gens| :: gens'[j] == gens[j];
    if i + 1 < |gens| {
      if gens[i + 1] == gens[i] { LevelRestAppend(gens, tail, i + 1); }
    } else if tail == [] {
      assert gens' == gens;
    } else {
      assert gens'[i + 1] == tail[0] && tail[0] in tail;
    }
  }

  ghost function NextGens(gens: seq<nat>, i: nat, kids: seq<AgentId>): seq<nat>
    requires i < |gens|
  {
    gens + seq(|kids|, _ => gens[i] + 1)
  }

  lemma LevelledStep(m: Mesh, queue: seq<AgentId>, gens: seq<nat>, i: nat, kids: seq<AgentId>)
    requires Levelled(m, queue, gens, i) && i < |queue|
    requires Elems(kids) == ChildrenIn(m, queue[i])
    ensures Levelled(m, queue + kids, NextGens(gens, i, kids), i + 1)
  {
    var queue', gens' := queue + kids, gens + seq(|kids|, _ => gens[i] + 1);
    forall j | 0 <= j < |queue'| ensures Up(m, queue'[j], gens'[j]) in m.leaders {
      if j >= |queue| {
        assert kids[j - |queue|] in Elems(kids);
        assert Up(m, queue'[j], gens[i] + 1) == Up(m, queue[i], gens[i]);
      }
    }
  }

  ghost predicate Progress(m: Mesh, gens: seq<nat>, i: nat, gens': seq<nat>) {
    var now, next := LevelsLeft(|m.nodes.Keys|, gens, i), LevelsLeft(|m.nodes.Keys|, gens', i + 1);
    0 <= next <= now && (next == now ==> LevelRest(gens', i + 1) < LevelRest(gens, i))
  }

  // Every expansion finishes a level or leaves less of the current one.
  lemma LevelProgress(m: Mesh, queue: seq<AgentId>, gens: seq<nat>, i: nat, kids: seq<AgentId>)
    requires NoAgent !in m.nodes && m.leaders <= m.nodes.Keys && NoLeaderOnCycle(m)
    requires Levelled(m, queue, gens, i) && i < |queue|
    requires Elems(kids) == ChildrenIn(m, queue[i])
    ensures Progress(m, gens, i, NextGens(gens, i, kids))
  {
    var tail := seq(|kids|, _ => gens[i] + 1);
    var gens' := gens + tail;
    LevelledStep(m, queue, gens, i, kids);
    GenerationBound(m, queue[i], gens[i]);
    if i + 1 < |gens'| {
      GenerationBound(m, (queue + kids)[i + 1], gens'[i + 1]);
      if i + 1 < |gens| && gens[i + 1] == gens[i] {
        LevelRestAppend(gens, tail, i + 1);
      }
    }
  }

  lemma WiringFront(m: Mesh, cur: Mesh, queue: seq<AgentId>, gens: seq<nat>, i: nat)
    requires NoAgent !in m.nodes && m.leaders <= m.nodes.Keys && NoLeaderOnCycle(m)
    requires Levelled(m, queue, gens, i) && i < |queue|
    requires WiredTo(m, cur, queue, i)
    ensures |gens| == |queue|
    ensures queue[i] in cur.nodes && cur.nodes[queue[i]].parent != queue[i]
  {
    hide QueuedRight, ChildrenRight, DepthRight, NoLeaderOnCycle;
    NotOwnParent(m, queue[i], gens[i]);
  }

  // One turn of the wiring loop expands the next entry and leaves the rest right.
  lemma WiringTurn(m: Mesh, cur: Mesh, cur': Mesh, queue: seq<AgentId>, i: nat, kids: seq<AgentId>)
    requires i < |queue| && queue[i] in cur.nodes && cur.nodes[queue[i]].parent != queue[i]
    requires NoAgent !in m.nodes && WiredTo(m, cur, queue, i)
    requires Elems(kids) == ChildrenIn(cur, queue[i]) && Expanded(cur, cur, cur', queue[i])
    ensures WiredTo(m, cur', queue + kids, i + 1) && ChildrenIn(m, queue[i]) == ChildrenIn(cur, queue[i])
  {
    hide Wiring, Expanded, SameRows, ChildrenIn, Elems;
    WiringSame(m, cur, Elems(queue), Elems(queue[..i]), Elems(queue[i..]), queue[i]);
    ExpandedFromLoaded(m, cur, cur', queue[i]);
    ElemsGrow(queue, kids, i);
    assert Elems(queue[i..]) == Elems(queue[i + 1..]) + {queue[i]};
    WiringStep(m, cur, cur', Elems(queue), Elems(queue[..i]), Elems(queue[i + 1..]), queue[i]);
  }

  lemma WiringSame(m: Mesh, cur: Mesh, queued: set<AgentId>, done: set<AgentId>, pending: set<AgentId>, p: AgentId)
    requires Wiring(m, cur, queued, done, pending) && p in cur.nodes
    ensures SameRows(m, cur) && p in m.nodes && m.nodes[p].parent == cur.nodes[p].parent
  {}

  // --------------------------------------------------------------------
  // Whole runs of the loop: turns[i] is what turn i put on the queue
  // --------------------------------------------------------------------

  ghost function QueueAfter(queue: seq<AgentId>, turns: seq<seq<AgentId>>): seq<AgentId>
    decreases |turns|
  {
    if turns == [] then queue else QueueAfter(queue, turns[..|turns| - 1]) + turns[|turns| - 1]
  }

  ghost predicate IsRun(m: Mesh, queue: seq<AgentId>, turns: seq<seq<AgentId>>) {
    forall i | 0 <= i < |turns| ::
      var now := QueueAfter(queue, turns[..i]);
      i < |now| && Elems(turns[i]) == ChildrenIn(m, now[i])
  }

  // The next entry to expand does not exist.
  ghost predicate Exhausted(queue: seq<AgentId>, turns: seq<seq<AgentId>>) {
    |turns| >= |QueueAfter(queue, turns)|
  }

  lemma RunSnoc(m: Mesh, queue: seq<AgentId>, turns: seq<seq<AgentId>>, kids: seq<AgentId>)
    ensures QueueAfter(queue, turns + [kids]) == QueueAfter(queue, turns) + kids
    ensures IsRun(m, queue, turns) && !Exhausted(queue, turns) && Elems(kids) == ChildrenIn(m, QueueAfter(queue, turns)[|turns|])
            ==> IsRun(m, queue, turns + [kids])
  {
    var more := turns + [kids];
    assert more[..|turns|] == turns;
    forall i | 0 <= i < |turns| ensures more[..i] == turns[..i] {}
  }

  // Whenever a member of a cycle waits in the queue, one still waits after the
  // next entry has been expanded.
  lemma CycleStaysQueued(m: Mesh, l: AgentId, k: nat, queue: seq<AgentId>, i: nat, kids: seq<AgentId>, j: nat)
    requires NoAgent !in m.nodes && l in m.nodes && k > 0 && Up(m, l, k) == l
    requires i < |queue| && Elems(kids) == ChildrenIn(m, queue[i])
    requires Up(m, l, j) in queue[i..]
    ensures exists j': nat :: Up(m, l, j') in (queue + kids)[i + 1..]
  {
    var x := Up(m, l, j);
    var t :| i <= t < |queue| && queue[t] == x;
    if t > i {
      assert (queue + kids)[i + 1..][t - i - 1] == x;
    } else {
      Shift(m, l, 0, k, j);
      UpNext(m, l, j + k - 1);
      var y := Up(m, l, j + k - 1);
      KnownOnCycle(m, l, k, j + k - 1);
      assert y in Elems(kids);
      var u :| 0 <= u < |kids| && kids[u] == y;
      assert (queue + kids)[i + 1..][|queue| + u - i - 1] == y;
    }
  }

  // So with a leader on a parent cycle no run, however long, empties the queue.
  lemma {:induction false} NeverExhausted(m: Mesh, l: AgentId, k: nat, queue: seq<AgentId>, turns: seq<seq<AgentId>>) returns (j: nat)
    requires NoAgent !in m.nodes && l in m.nodes && k > 0 && Up(m, l, k) == l && l in queue
    requires IsRun(m, queue, turns)
    ensures !Exhausted(queue, turns) && Up(m, l, j) in QueueAfter(queue, turns)[|turns|..]
    decreases |turns|
  {
    if turns == [] {
      j := 0;
      assert queue[0..] == queue;
    } else {
      var init, kids := turns[..|turns| - 1], turns[|turns| - 1];
      forall i | 0 <= i < |init| ensures init[..i] == turns[..i] {}
      j := NeverExhausted(m, l, k, queue, init);
      var now := QueueAfter(queue, init);
      CycleStaysQueued(m, l, k, now, |init|, kids, j);
      j :| Up(m, l, j) in (now + kids)[|init| + 1..];
    }
  }

  lemma {:induction false} Listed<T>(s: set<T>) returns (l: seq<T>)
    ensures Elems(l) == s
  {
    l := [];
    var rest := s;
    while rest != {}
      invariant rest <= s && Elems(l) == s - rest
      decreases rest
    {
      var x :| x in rest;
      ElemsSnoc(l, x);
      l, rest := l + [x], rest - {x};
    }
  }

  // Off cycles any run can be carried on until the queue is empty.
  lemma {:induction false} RunsOut(m: Mesh, queue: seq<AgentId>, turns: seq<seq<AgentId>>, gens: seq<nat>) returns (all: seq<seq<AgentId>>)
    requires NoAgent !in m.nodes && m.leaders <= m.nodes.Keys && NoLeaderOnCycle(m)
    requires IsRun(m, queue, turns) && Levelled(m, QueueAfter(queue, turns), gens, |turns|)
    ensures IsRun(m, queue, all) && Exhausted(queue, all)
    decreases LevelsLeft(|m.nodes.Keys|, gens, |turns|), LevelRest(gens, |turns|)
  {
    hide IsRun, Levelled, LevelRest, LevelsLeft, NoLeaderOnCycle;
    var now := QueueAfter(queue, turns);
    if Exhausted(queue, turns) {
      all := turns;
    } else {
      var kids := Listed(ChildrenIn(m, now[|turns|]));
      RunSnoc(m, queue, turns, kids);
      SameLength(m, now, gens, |turns|);
      LevelledStep(m, now, gens, |turns|, kids);
      LevelProgress(m, now, gens, |turns|, kids);
      all := RunsOut(m, queue, turns + [kids], NextGens(gens, |turns|, kids));
    }
  }

  lemma SameLength(m: Mesh, queue: seq<AgentId>, gens: seq<nat>, i: nat)
    requires Levelled(m, queue, gens, i)
    ensures |gens| == |queue|
  {}

  // Some run from the queued leaders ends exactly when no leader is on a parent
  // cycle; and then, by the measure of WireFromLeaders, every run does.
  lemma WiringEndsIff(m: Mesh, queue: seq<AgentId>)
    requires NoAgent !in m.nodes && m.leaders <= m.nodes.Keys && Elems(queue) == m.leaders
    ensures (exists turns :: IsRun(m, queue, turns) && Exhausted(queue, turns)) <==> NoLeaderOnCycle(m)
  {
    if NoLeaderOnCycle(m) {
      LevelledStart(m, queue);
      assert QueueAfter(queue, []) == queue;
      var all := RunsOut(m, queue, [], seq(|queue|, _ => 0));
    } else {
      var l, k: nat :| l in m.leaders && k > 0 && Up(m, l, k) == l;
      assert l in Elems(queue);
      forall turns | IsRun(m, queue, turns) ensures !Exhausted(queue, turns) {
        var j := NeverExhausted(m, l, k, queue, turns);
      }
    }
  }

  lemma {:induction false} KnownOnCycle(m: Mesh, l: AgentId, k: nat, n: nat)
    requires NoAgent !in m.nodes && l in m.nodes && k > 0 && Up(m, l, k) == l
    ensures Up(m, l, n) in m.nodes
    decreases n
  {
    if n <= k {
      KnownBelow(m, l, n, k);
    } else {
      Shift(m, l, 0, k, n - k);
      KnownOnCycle(m, l, k, n - k);
    }
  }
}
