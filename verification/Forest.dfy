// The relay mesh as a value: what MeshTopology holds at one instant, what each
// of its operations does to it, and the invariants those operations keep.
//
// Class MeshTopology.MeshTopology is proved equal to these functions; the
// theorems about runs of operations are stated here.
module Forest {
  import opened Agents

  datatype Role = Unassigned | Relay | ZoneLeader

  datatype Node = Node(role: Role, parent: AgentId, children: set<AgentId>, depth: nat, online: bool, listenAddr: string)

  datatype Mesh = Mesh(nodes: map<AgentId, Node>, leaders: set<AgentId>)

  const EMPTY_MESH := Mesh(map[], {})

  // --------------------------------------------------------------------
  // Walking up parent pointers
  // --------------------------------------------------------------------

  // The agent k parent links above id; NoAgent once the chain has run out.
  ghost function Up(m: Mesh, id: AgentId, k: nat): AgentId
    decreases k
  {
    if k == 0 then id
    else if id in m.nodes then Up(m, m.nodes[id].parent, k - 1)
    else NoAgent
  }

  // ancestor sits at or above id.
  ghost predicate Reaches(m: Mesh, id: AgentId, ancestor: AgentId) {
    exists k: nat :: Up(m, id, k) == ancestor
  }

  // The agents at or beneath root.
  ghost function Subtree(m: Mesh, root: AgentId): set<AgentId> {
    set id | id in m.nodes && Reaches(m, id, root)
  }

  lemma {:induction false} UpCompose(m: Mesh, id: AgentId, i: nat, j: nat)
    ensures Up(m, Up(m, id, i), j) == Up(m, id, i + j) || Up(m, id, i) == NoAgent
    ensures NoAgent !in m.nodes && j > 0 ==> Up(m, Up(m, id, i), j) == Up(m, id, i + j)
    decreases i
  {
    if i > 0 && id in m.nodes {
      UpCompose(m, m.nodes[id].parent, i - 1, j);
    }
  }

  lemma {:induction false} UpEnds(m: Mesh, k: nat)
    requires NoAgent !in m.nodes
    ensures Up(m, NoAgent, k) == NoAgent
  {}

  // --------------------------------------------------------------------
  // The invariants
  // --------------------------------------------------------------------

  // True of every mesh the server can hold, one rebuilt from an arbitrary table
  // included: whoever is in a child set names its owner as parent.
  ghost predicate Coherent(m: Mesh) {
    && NoAgent !in m.nodes
    && (forall p <- m.nodes, c {:trigger c in m.nodes[p].children} | c in m.nodes[p].children :: c in m.nodes && m.nodes[c].parent == p)
  }

  // Everything about the shape that no operation can break, guarded or not:
  // child sets are the exact inverse of parent pointers, parents exist, the
  // leader set is the set of nodes with that role, leaders have no parent, and
  // a node is a relay exactly when it has one.
  ghost predicate Linked(m: Mesh) {
    && Coherent(m)
    && (forall id <- m.nodes {:trigger m.nodes[id].parent} :: m.nodes[id].parent != NoAgent ==>
          m.nodes[id].parent in m.nodes && id in m.nodes[m.nodes[id].parent].children)
    && (forall id :: id in m.leaders <==> id in m.nodes && m.nodes[id].role == ZoneLeader)
    && (forall id <- m.nodes :: m.nodes[id].role == Relay <==> m.nodes[id].parent != NoAgent)
  }

  ghost predicate Acyclic(m: Mesh) {
    forall id, k: nat | id in m.nodes && k > 0 :: Up(m, id, k) != id
  }

  ghost predicate IsForest(m: Mesh) {
    Linked(m) && Acyclic(m)
  }

  // Stored depth strictly grows from parent to child.  (Exact depths are not an
  // invariant: moving a node rewrites its own depth but not its subtree's.)
  ghost predicate DepthsGrow(m: Mesh) {
    forall id <- m.nodes {:trigger m.nodes[id].parent} :: m.nodes[id].parent in m.nodes ==> m.nodes[m.nodes[id].parent].depth < m.nodes[id].depth
  }

  // The mesh without the parent links that no child set records.
  ghost function Agreed(m: Mesh): Mesh {
    m.(nodes := map x <- m.nodes ::
         var n := m.nodes[x];
         if n.parent in m.nodes && x in m.nodes[n.parent].children then n else n.(parent := NoAgent))
  }

  // Whom the walks over child sets find: root and everyone the sets lead to.
  ghost function ChildTree(m: Mesh, root: AgentId): set<AgentId> {
    Subtree(Agreed(m), root)
  }

  lemma ForestLinked(m: Mesh)
    requires IsForest(m)
    ensures Linked(m) && Coherent(m)
  {}

  lemma LinkedAgrees(m: Mesh)
    requires Linked(m)
    ensures Agreed(m) == m && forall root :: ChildTree(m, root) == Subtree(m, root)
  {
    assert Agreed(m).nodes == m.nodes;
  }

  // --------------------------------------------------------------------
  // The operations
  // --------------------------------------------------------------------

  function AddAgent(m: Mesh, id: AgentId, listenAddr: string): Mesh {
    if id in m.nodes then
      m.(nodes := m.nodes[id := m.nodes[id].(listenAddr := listenAddr, online := true)])
    else
      m.(nodes := m.nodes[id := Node(Unassigned, NoAgent, {}, 0, true, listenAddr)])
  }

  // Drops id from its current parent's child set.
  function Unlink(m: Mesh, id: AgentId): Mesh
    requires id in m.nodes
  {
    var p := m.nodes[id].parent;
    if p != NoAgent && p in m.nodes then
      m.(nodes := m.nodes[p := m.nodes[p].(children := m.nodes[p].children - {id})])
    else m
  }

  // Writes where id sits: its role, its parent and its depth.
  function Reseat(m: Mesh, id: AgentId, role: Role, parentID: AgentId, depth: nat): Mesh
    requires id in m.nodes
  {
    m.(nodes := m.nodes[id := m.nodes[id].(role := role, parent := parentID, depth := depth)])
  }

  function AddChild(m: Mesh, p: AgentId, id: AgentId): Mesh
    requires p in m.nodes
  {
    m.(nodes := m.nodes[p := m.nodes[p].(children := m.nodes[p].children + {id})])
  }

  function AssignZoneLeader(m: Mesh, id: AgentId): Mesh {
    if id !in m.nodes then m
    else
      var u := Reseat(Unlink(m, id), id, ZoneLeader, NoAgent, 0);
      u.(leaders := u.leaders + {id})
  }

  function ClearParent(m: Mesh, id: AgentId): Mesh {
    if id !in m.nodes then m
    else
      var u := Reseat(Unlink(m, id), id, Unassigned, NoAgent, 0);
      u.(leaders := u.leaders - {id})
  }

  // The link both AssignChild and AttachObserved write once they have decided to.
  function Place(m: Mesh, id: AgentId, parentID: AgentId): Mesh
    requires id in m.nodes && parentID in m.nodes
  {
    var u := Reseat(Unlink(m, id), id, Relay, parentID, m.nodes[parentID].depth + 1);
    AddChild(u.(leaders := u.leaders - {id}), parentID, id)
  }

  // AssignChild chooses a parent, so the parent has to be online and below its
  // capacity.  It does not look for cycles.
  predicate MayAssignChild(m: Mesh, id: AgentId, parentID: AgentId, capacity: int) {
    && id in m.nodes && parentID in m.nodes
    && m.nodes[parentID].online
    && |m.nodes[parentID].children| < capacity
  }

  function AssignChild(m: Mesh, id: AgentId, parentID: AgentId, capacity: int): Mesh {
    if MayAssignChild(m, id, parentID, capacity) then Place(m, id, parentID) else m
  }

  // AttachObserved records a link that already exists: capacity and liveness do
  // not matter, only that both ends are known and no cycle would form.
  ghost predicate MayAttachObserved(m: Mesh, id: AgentId, parentID: AgentId) {
    && id != parentID
    && id in m.nodes && parentID in m.nodes
    && !Reaches(m, parentID, id)
  }

  ghost function AttachObserved(m: Mesh, id: AgentId, parentID: AgentId): Mesh {
    if MayAttachObserved(m, id, parentID) then Place(m, id, parentID) else m
  }

  function SetOnline(m: Mesh, ids: set<AgentId>, online: bool): Mesh {
    m.(nodes := map id <- m.nodes :: if id in ids then m.nodes[id].(online := online) else m.nodes[id])
  }

  ghost function MarkSubtreeOffline(m: Mesh, root: AgentId): Mesh {
    if root in m.nodes then SetOnline(m, ChildTree(m, root), false) else m
  }

  function Orphan(m: Mesh, ids: set<AgentId>): Mesh {
    m.(nodes := map x <- m.nodes ::
         if x in ids then m.nodes[x].(role := Unassigned, parent := NoAgent, depth := 0) else m.nodes[x])
  }

  function Remove(m: Mesh, id: AgentId): Mesh {
    if id !in m.nodes then m
    else
      var u := Unlink(m, id);
      Mesh(Orphan(u, u.nodes[id].children).nodes - {id}, u.leaders - {id})
  }

  // --------------------------------------------------------------------
  // Every operation keeps the links consistent
  // --------------------------------------------------------------------

  // What giving id a new parent (or none) means: every other parent and role
  // stays, and id is in the new parent's child set and in no other.
  ghost predicate Moved(m: Mesh, m': Mesh, id: AgentId, parent: AgentId, role: Role) {
    && m'.nodes.Keys == m.nodes.Keys
    && (forall x <- m.nodes :: m'.nodes[x].parent == if x == id then parent else m.nodes[x].parent)
    && (forall x <- m.nodes :: m'.nodes[x].role == if x == id then role else m.nodes[x].role)
    && (forall x <- m.nodes :: m'.nodes[x].children ==
          if x == parent then m.nodes[x].children + {id} else m.nodes[x].children - {id})
    && m'.leaders == if role == ZoneLeader then m.leaders + {id} else m.leaders - {id}
  }

  // id is in no child set but its parent's.
  ghost predicate HeldOnlyByParent(m: Mesh, id: AgentId) {
    && id in m.nodes && NoAgent !in m.nodes
    && (forall x <- m.nodes :: x != m.nodes[id].parent ==> id !in m.nodes[x].children)
  }

  lemma CoherentHolds(m: Mesh, id: AgentId)
    requires Coherent(m) && id in m.nodes
    ensures HeldOnlyByParent(m, id)
  {}

  lemma LinkedHolds(m: Mesh, id: AgentId)
    requires Linked(m) && id in m.nodes
    ensures HeldOnlyByParent(m, id)
  {}

  lemma UnlinkDropsEverywhere(m: Mesh, id: AgentId)
    requires HeldOnlyByParent(m, id)
    ensures Unlink(m, id).nodes.Keys == m.nodes.Keys
    ensures forall x <- m.nodes :: Unlink(m, id).nodes[x] == m.nodes[x].(children := m.nodes[x].children - {id})
    ensures Unlink(m, id).leaders == m.leaders
  {
    forall x <- m.nodes ensures Unlink(m, id).nodes[x] == m.nodes[x].(children := m.nodes[x].children - {id}) {
      if x != m.nodes[id].parent {
        assert m.nodes[x].children == m.nodes[x].children - {id};
      }
    }
  }

  // One node after the move.
  function PlacedNode(m: Mesh, id: AgentId, parentID: AgentId, x: AgentId): Node
    requires x in m.nodes && parentID in m.nodes
  {
    var n := m.nodes[x];
    var kids := if x == parentID then n.children + {id} else n.children - {id};
    if x == id then Node(Relay, parentID, kids, m.nodes[parentID].depth + 1, n.online, n.listenAddr)
    else n.(children := kids)
  }

  lemma PlaceNodes(m: Mesh, id: AgentId, parentID: AgentId)
    requires HeldOnlyByParent(m, id) && parentID in m.nodes
    ensures Place(m, id, parentID).nodes.Keys == m.nodes.Keys
    ensures forall x <- m.nodes :: Place(m, id, parentID).nodes[x] == PlacedNode(m, id, parentID, x)
    ensures Place(m, id, parentID).leaders == m.leaders - {id}
  {
    UnlinkDropsEverywhere(m, id);
  }

  lemma PlaceMoves(m: Mesh, id: AgentId, parentID: AgentId)
    requires HeldOnlyByParent(m, id) && parentID in m.nodes
    ensures Moved(m, Place(m, id, parentID), id, parentID, Relay)
  {
    hide Place;
    PlaceNodes(m, id, parentID);
  }

  lemma AssignZoneLeaderMoves(m: Mesh, id: AgentId)
    requires HeldOnlyByParent(m, id)
    ensures Moved(m, AssignZoneLeader(m, id), id, NoAgent, ZoneLeader)
  {
    UnlinkDropsEverywhere(m, id);
  }

  lemma ClearParentMoves(m: Mesh, id: AgentId)
    requires HeldOnlyByParent(m, id)
    ensures Moved(m, ClearParent(m, id), id, NoAgent, Unassigned)
  {
    UnlinkDropsEverywhere(m, id);
  }

  lemma MovedCoherent(m: Mesh, m': Mesh, id: AgentId, parent: AgentId, role: Role)
    requires Coherent(m) && id in m.nodes && Moved(m, m', id, parent, role)
    ensures Coherent(m')
  {}

  lemma MovedLinked(m: Mesh, m': Mesh, id: AgentId, parent: AgentId, role: Role)
    requires Linked(m) && id in m.nodes && Moved(m, m', id, parent, role)
    requires parent == NoAgent || parent in m.nodes
    requires role == Relay <==> parent != NoAgent
    ensures Linked(m')
  {}

  // What removing id means: it is gone, its children have no parent and no role.
  ghost predicate Removed(m: Mesh, m': Mesh, id: AgentId)
    requires id in m.nodes
  {
    && m'.nodes.Keys == m.nodes.Keys - {id}
    && (forall x <- m'.nodes :: m'.nodes[x].parent == if x in m.nodes[id].children then NoAgent else m.nodes[x].parent)
    && (forall x <- m'.nodes :: m'.nodes[x].role == if x in m.nodes[id].children then Unassigned else m.nodes[x].role)
    && (forall x <- m'.nodes :: m'.nodes[x].children == m.nodes[x].children - {id})
    && m'.leaders == m.leaders - {id}
  }

  lemma RemoveRemoves(m: Mesh, id: AgentId)
    requires HeldOnlyByParent(m, id)
    ensures Removed(m, Remove(m, id), id)
  {
    UnlinkDropsEverywhere(m, id);
  }

  lemma RemovedCoherent(m: Mesh, m': Mesh, id: AgentId)
    requires Coherent(m) && id in m.nodes && Removed(m, m', id)
    ensures Coherent(m')
  {}

  lemma RemovedLinked(m: Mesh, m': Mesh, id: AgentId)
    requires Linked(m) && id in m.nodes && Removed(m, m', id)
    ensures Linked(m')
  {}

  lemma OnlineCoherent(m: Mesh, ids: set<AgentId>, online: bool)
    requires Coherent(m)
    ensures Coherent(SetOnline(m, ids, online))
  {}

  lemma OnlineLinked(m: Mesh, ids: set<AgentId>, online: bool)
    requires Linked(m)
    ensures Linked(SetOnline(m, ids, online))
  {}

  lemma SetOnlineMore(m: Mesh, ids: set<AgentId>, id: AgentId, online: bool)
    ensures SetOnline(SetOnline(m, ids, online), {id}, online) == SetOnline(m, ids + {id}, online)
    ensures id in m.nodes && SetOnline(m, ids, online).nodes[id].online == online ==>
              SetOnline(m, ids, online) == SetOnline(m, ids + {id}, online)
  {}

  // What joining writes: the agent is online at this address; known, it keeps its
  // place, new, it has none.  Nobody else is touched.
  lemma AddWrites(m: Mesh, id: AgentId, listenAddr: string)
    ensures var m' := AddAgent(m, id, listenAddr);
            && m'.nodes.Keys == m.nodes.Keys + {id} && m'.leaders == m.leaders
            && (forall x <- m.nodes | x != id :: m'.nodes[x] == m.nodes[x])
            && m'.nodes[id].online && m'.nodes[id].listenAddr == listenAddr
            && (id in m.nodes ==>
                  m'.nodes[id].(online := m.nodes[id].online, listenAddr := m.nodes[id].listenAddr) == m.nodes[id])
            && (id !in m.nodes ==>
                  m'.nodes[id].role == Unassigned && m'.nodes[id].parent == NoAgent && m'.nodes[id].children == {} && m'.nodes[id].depth == 0)
  {}

  // What the operations that take an agent's parent away write beside the links:
  // its depth, and the places of a removed agent's children.
  lemma UnparentWrites(m: Mesh, id: AgentId)
    requires HeldOnlyByParent(m, id)
    ensures forall m' | m' in [AssignZoneLeader(m, id), ClearParent(m, id)] ::
              m'.nodes.Keys == m.nodes.Keys && m'.nodes[id].depth == 0
              && forall x <- m.nodes ::
                   && m'.nodes[x].online == m.nodes[x].online && m'.nodes[x].listenAddr == m.nodes[x].listenAddr
                   && (x != id ==> m'.nodes[x].depth == m.nodes[x].depth)
  {
    UnlinkDropsEverywhere(m, id);
    hide Unlink;
  }

  lemma RemoveWrites(m: Mesh, id: AgentId)
    requires HeldOnlyByParent(m, id)
    ensures var m' := Remove(m, id);
            && m'.nodes.Keys == m.nodes.Keys - {id}
            && forall x <- m'.nodes ::
                 && m'.nodes[x].online == m.nodes[x].online && m'.nodes[x].listenAddr == m.nodes[x].listenAddr
                 && m'.nodes[x].depth == if x in m.nodes[id].children then 0 else m.nodes[x].depth
  {
    UnlinkDropsEverywhere(m, id);
    hide Unlink;
  }

  // Only the online flags of these agents change.
  lemma OnlineWrites(m: Mesh, ids: set<AgentId>, online: bool)
    ensures var m' := SetOnline(m, ids, online);
            && m'.nodes.Keys == m.nodes.Keys && m'.leaders == m.leaders
            && forall x <- m.nodes ::
                 m'.nodes[x].online == (if x in ids then online else m.nodes[x].online) && m'.nodes[x].(online := m.nodes[x].online) == m.nodes[x]
  {}

  // --------------------------------------------------------------------
  // Acyclicity
  // --------------------------------------------------------------------

  // Chains depend on parents only.
  lemma {:induction false} SameParentsUp(m: Mesh, m': Mesh, x: AgentId, k: nat)
    requires m.nodes.Keys == m'.nodes.Keys && forall y <- m.nodes :: m'.nodes[y].parent == m.nodes[y].parent
    ensures Up(m', x, k) == Up(m, x, k)
    decreases k
  {
    if k > 0 && x in m.nodes {
      SameParentsUp(m, m', m.nodes[x].parent, k - 1);
    }
  }

  // Two meshes whose parents agree except at `moved` agree on every chain that
  // has not passed through it.
  lemma {:induction false} UpAgree(m: Mesh, m': Mesh, moved: AgentId, id: AgentId, k: nat)
    requires m.nodes.Keys == m'.nodes.Keys
    requires forall x <- m.nodes :: x != moved ==> m'.nodes[x].parent == m.nodes[x].parent
    requires forall i: nat | i < k :: Up(m, id, i) != moved
    ensures Up(m', id, k) == Up(m, id, k)
    decreases k
  {
    if k > 0 && id in m.nodes {
      assert Up(m, id, 0) == id;
      forall i: nat | i < k - 1 ensures Up(m, m.nodes[id].parent, i) != moved {
        assert Up(m, id, i + 1) == Up(m, m.nodes[id].parent, i);
      }
      UpAgree(m, m', moved, m.nodes[id].parent, k - 1);
    }
  }

  // The first time the chain above `from` meets `target`.
  lemma {:induction false} FirstMeeting(m: Mesh, from: AgentId, target: AgentId, bound: nat) returns (k: nat)
    requires Up(m, from, bound) == target
    ensures k <= bound && Up(m, from, k) == target
    ensures forall i: nat | i < k :: Up(m, from, i) != target
  {
    k := 0;
    while Up(m, from, k) != target
      invariant k <= bound
      invariant forall i: nat | i < k :: Up(m, from, i) != target
      decreases bound - k
    {
      k := k + 1;
    }
  }

  // A move keeps the mesh acyclic exactly when the new parent is not in the
  // moved agent's own subtree: the check AttachObserved makes and AssignChild
  // leaves to its callers.
  lemma PlaceAcyclicIff(m: Mesh, id: AgentId, parentID: AgentId)
    requires IsForest(m) && id in m.nodes && parentID in m.nodes
    ensures IsForest(Place(m, id, parentID)) <==> parentID !in Subtree(m, id)
  {
    LinkedHolds(m, id);
    PlaceMoves(m, id, parentID);
    MovedForestIff(m, Place(m, id, parentID), id, parentID);
  }

  lemma MovedForestIff(m: Mesh, m': Mesh, id: AgentId, parentID: AgentId)
    requires IsForest(m) && id in m.nodes && parentID in m.nodes
    requires Moved(m, m', id, parentID, Relay)
    ensures IsForest(m') <==> parentID !in Subtree(m, id)
  {
    MovedLinked(m, m', id, parentID, Relay);
    assert m'.nodes[id].parent == parentID;
    if parentID in Subtree(m, id) {
      var b: nat :| Up(m, parentID, b) == id;
      var k := FirstMeeting(m, parentID, id, b);
      UpAgree(m, m', id, parentID, k);
      assert Up(m', id, k + 1) == id;
    } else {
      forall x, k: nat | x in m'.nodes && k > 0 && Up(m', x, k) == x ensures false {
        CycleGoesThrough(m, m', id, x, k);
        assert Up(m', id, k) == Up(m', parentID, k - 1);
        var j := FirstMeeting(m', parentID, id, k - 1);
        UpAgree(m', m, id, parentID, j);
      }
    }
  }

  // Any cycle of m' runs through the only agent whose parent changed.
  lemma CycleGoesThrough(m: Mesh, m': Mesh, moved: AgentId, x: AgentId, k: nat)
    requires Acyclic(m) && NoAgent !in m.nodes
    requires m.nodes.Keys == m'.nodes.Keys
    requires forall y <- m.nodes :: y != moved ==> m'.nodes[y].parent == m.nodes[y].parent
    requires x in m'.nodes && k > 0 && Up(m', x, k) == x
    ensures Up(m', moved, k) == moved
  {
    if j: nat :| j < k && Up(m', x, j) == moved {
      if j > 0 {
        UpCompose(m', x, j, k - j);
        UpCompose(m', x, k, j);
        UpCompose(m', Up(m', x, j), k - j, j);
        assert Up(m', moved, k - j) == x;
        assert Up(m', x, j) == moved;
      }
    } else {
      UpAgree(m', m, moved, x, k);
      assert false;
    }
  }

  // Cutting links and adding isolated nodes cannot create a cycle.
  lemma PruneAcyclic(m: Mesh, m': Mesh)
    requires Acyclic(m) && NoAgent !in m'.nodes
    requires forall x <- m'.nodes :: m'.nodes[x].parent != NoAgent ==> x in m.nodes && m.nodes[x].parent == m'.nodes[x].parent
    ensures Acyclic(m')
  {
    forall x, k: nat | x in m'.nodes && k > 0 ensures Up(m', x, k) != x {
      PruneUp(m, m', x, k);
      UpEnds(m', k - 1);
    }
  }

  lemma {:induction false} PruneUp(m: Mesh, m': Mesh, x: AgentId, k: nat)
    requires NoAgent !in m'.nodes
    requires forall x <- m'.nodes :: m'.nodes[x].parent != NoAgent ==> x in m.nodes && m.nodes[x].parent == m'.nodes[x].parent
    ensures Up(m', x, k) != NoAgent ==> Up(m', x, k) == Up(m, x, k)
    decreases k
  {
    if k > 0 && x in m'.nodes {
      if m'.nodes[x].parent == NoAgent {
        UpEnds(m', k - 1);
      } else {
        PruneUp(m, m', m'.nodes[x].parent, k - 1);
      }
    }
  }

  // --------------------------------------------------------------------
  // Depth order
  // --------------------------------------------------------------------

  // A move to this parent leaves id shallower than all of its children.
  predicate KeepsBelow(m: Mesh, id: AgentId, parentID: AgentId)
    requires id in m.nodes && parentID in m.nodes
  {
    && id != parentID
    && forall c <- m.nodes[id].children :: c in m.nodes ==> m.nodes[parentID].depth + 1 < m.nodes[c].depth
  }

  lemma PlaceDepth(m: Mesh, id: AgentId, parentID: AgentId)
    requires id in m.nodes && parentID in m.nodes
    ensures var m' := Place(m, id, parentID);
            && m'.nodes.Keys == m.nodes.Keys
            && forall x <- m.nodes :: m'.nodes[x].depth == if x == id then m.nodes[parentID].depth + 1 else m.nodes[x].depth
  {}

  // Depth order survives a move exactly when the moved agent does not sink to
  // the level of one of its own children.
  lemma PlaceDepthsGrowIff(m: Mesh, id: AgentId, parentID: AgentId)
    requires Linked(m) && DepthsGrow(m) && id in m.nodes && parentID in m.nodes
    ensures DepthsGrow(Place(m, id, parentID)) <==> KeepsBelow(m, id, parentID)
  {
    var m' := Place(m, id, parentID);
    LinkedHolds(m, id);
    PlaceMoves(m, id, parentID);
    PlaceDepth(m, id, parentID);
    MovedDepthsGrowIff(m, m', id, parentID);
  }

  lemma MovedDepthsGrowIff(m: Mesh, m': Mesh, id: AgentId, parentID: AgentId)
    requires Linked(m) && DepthsGrow(m) && id in m.nodes && parentID in m.nodes
    requires Moved(m, m', id, parentID, Relay)
    requires forall x <- m.nodes :: m'.nodes[x].depth == if x == id then m.nodes[parentID].depth + 1 else m.nodes[x].depth
    ensures DepthsGrow(m') <==> KeepsBelow(m, id, parentID)
  {
    assert m'.nodes[id].parent == parentID;
    if DepthsGrow(m') {
      forall c <- m.nodes[id].children ensures m.nodes[parentID].depth + 1 < m.nodes[c].depth {
        assert m.nodes[c].parent == id;
        assert c != id ==> m'.nodes[c].parent == id;
      }
    }
  }

  // Losing one's parent resets the depth to 0, which is below any child's.
  lemma UnparentDepthsGrow(m: Mesh, id: AgentId)
    requires Linked(m) && DepthsGrow(m) && id in m.nodes
    ensures DepthsGrow(AssignZoneLeader(m, id))
    ensures DepthsGrow(ClearParent(m, id))
  {
    LinkedHolds(m, id);
    UnlinkDropsEverywhere(m, id);
  }

  lemma RemoveDepthsGrow(m: Mesh, id: AgentId)
    requires Linked(m) && DepthsGrow(m)
    ensures DepthsGrow(Remove(m, id))
  {
    if id in m.nodes {
      LinkedHolds(m, id);
      UnlinkDropsEverywhere(m, id);
    }
  }

  // With depths in order, every strict ancestor is strictly shallower.
  lemma {:induction false} AncestorsShallower(m: Mesh, id: AgentId, k: nat)
    requires NoAgent !in m.nodes && DepthsGrow(m)
    requires k > 0 && id in m.nodes && Up(m, id, k) in m.nodes
    ensures m.nodes[Up(m, id, k)].depth < m.nodes[id].depth
    decreases k
  {
    if k > 1 {
      AncestorsShallower(m, m.nodes[id].parent, k - 1);
    }
  }

  lemma DepthsGrowAcyclic(m: Mesh)
    requires Linked(m) && DepthsGrow(m)
    ensures IsForest(m)
  {
    forall id, k: nat | id in m.nodes && k > 0 ensures Up(m, id, k) != id {
      if Up(m, id, k) in m.nodes {
        AncestorsShallower(m, id, k);
      }
    }
  }

  // --------------------------------------------------------------------
  // Whole runs
  // --------------------------------------------------------------------

  // The ways the server changes the mesh.  PromoteStep is also PromoteToZL, the
  // orphan escape hatch and the vacant-slot promotion; ObserveStep is a
  // PeerConnected report; capacity is the one in force when the step is taken.
  datatype Step =
    | AddStep(key: string, listenAddr: string)
    | PromoteStep(id: AgentId)
    | AssignStep(id: AgentId, parentID: AgentId, capacity: int)
    | ObserveStep(id: AgentId, parentID: AgentId)
    | ClearStep(id: AgentId)
    | OnlineStep(ids: set<AgentId>, online: bool)
    | SubtreeOfflineStep(id: AgentId)
    | RemoveStep(id: AgentId)

  ghost function Apply(m: Mesh, s: Step): Mesh {
    match s
    case AddStep(key, addr) => AddAgent(m, Agent(key), addr)
    case PromoteStep(id) => AssignZoneLeader(m, id)
    case AssignStep(id, p, capacity) => AssignChild(m, id, p, capacity)
    case ObserveStep(id, p) => AttachObserved(m, id, p)
    case ClearStep(id) => ClearParent(m, id)
    case OnlineStep(ids, online) => SetOnline(m, ids, online)
    case SubtreeOfflineStep(id) => MarkSubtreeOffline(m, id)
    case RemoveStep(id) => Remove(m, id)
  }

  ghost function Run(m: Mesh, steps: seq<Step>): Mesh
    decreases |steps|
  {
    if steps == [] then m else Run(Apply(m, steps[0]), steps[1..])
  }

  // Some mesh operation succeeds in giving id a new parent.
  ghost predicate PlacesAt(m: Mesh, s: Step) {
    || (s.AssignStep? && MayAssignChild(m, s.id, s.parentID, s.capacity))
    || (s.ObserveStep? && MayAttachObserved(m, s.id, s.parentID))
  }

  // The check AssignChild's callers owe it: not under one's own descendant.
  ghost predicate Guarded(m: Mesh, s: Step) {
    s.AssignStep? && MayAssignChild(m, s.id, s.parentID, s.capacity) ==> s.parentID !in Subtree(m, s.id)
  }

  ghost predicate RunGuarded(m: Mesh, steps: seq<Step>)
    decreases |steps|
  {
    steps != [] ==> Guarded(m, steps[0]) && RunGuarded(Apply(m, steps[0]), steps[1..])
  }

  // The moves that keep depths in order.
  ghost predicate DepthSafe(m: Mesh, s: Step) {
    PlacesAt(m, s) ==> KeepsBelow(m, s.id, s.parentID)
  }

  ghost predicate RunDepthSafe(m: Mesh, steps: seq<Step>)
    decreases |steps|
  {
    steps != [] ==> DepthSafe(m, steps[0]) && RunDepthSafe(Apply(m, steps[0]), steps[1..])
  }

  lemma PlaceCoherent(m: Mesh, id: AgentId, parentID: AgentId)
    requires Coherent(m) && id in m.nodes && parentID in m.nodes
    ensures Coherent(Place(m, id, parentID))
  {
    CoherentHolds(m, id);
    PlaceMoves(m, id, parentID);
    hide Place;
    MovedCoherent(m, Place(m, id, parentID), id, parentID, Relay);
  }

  lemma UnparentCoherent(m: Mesh, id: AgentId)
    requires Coherent(m)
    ensures Coherent(AssignZoneLeader(m, id)) && Coherent(ClearParent(m, id))
  {
    if id in m.nodes {
      CoherentHolds(m, id);
      AssignZoneLeaderMoves(m, id);
      ClearParentMoves(m, id);
      hide AssignZoneLeader, ClearParent;
      MovedCoherent(m, AssignZoneLeader(m, id), id, NoAgent, ZoneLeader);
      MovedCoherent(m, ClearParent(m, id), id, NoAgent, Unassigned);
    }
  }

  lemma RemoveCoherent(m: Mesh, id: AgentId)
    requires Coherent(m)
    ensures Coherent(Remove(m, id))
  {
    if id in m.nodes {
      CoherentHolds(m, id);
      RemoveRemoves(m, id);
      hide Remove;
      RemovedCoherent(m, Remove(m, id), id);
    }
  }

  lemma AddCoherent(m: Mesh, id: AgentId, addr: string)
    requires Coherent(m) && id != NoAgent
    ensures Coherent(AddAgent(m, id, addr))
  {}

  lemma ApplyCoherent(m: Mesh, s: Step)
    requires Coherent(m)
    ensures Coherent(Apply(m, s))
  {
    hide Coherent, Linked, AddAgent, Place, AssignZoneLeader, ClearParent, SetOnline, ChildTree, Remove, Reaches;
    match s
    case AddStep(key, addr) => AddCoherent(m, Agent(key), addr);
    case PromoteStep(id) => UnparentCoherent(m, id);
    case AssignStep(id, p, _) => if PlacesAt(m, s) { PlaceCoherent(m, id, p); }
    case ObserveStep(id, p) => if PlacesAt(m, s) { PlaceCoherent(m, id, p); }
    case ClearStep(id) => UnparentCoherent(m, id);
    case OnlineStep(ids, online) => OnlineCoherent(m, ids, online);
    case SubtreeOfflineStep(id) => OnlineCoherent(m, ChildTree(m, id), false);
    case RemoveStep(id) => RemoveCoherent(m, id);
  }

  lemma PlaceLinked(m: Mesh, id: AgentId, parentID: AgentId)
    requires Linked(m) && id in m.nodes && parentID in m.nodes
    ensures Linked(Place(m, id, parentID))
  {
    LinkedHolds(m, id);
    PlaceMoves(m, id, parentID);
    hide Place;
    MovedLinked(m, Place(m, id, parentID), id, parentID, Relay);
  }

  lemma UnparentLinked(m: Mesh, id: AgentId)
    requires Linked(m)
    ensures Linked(AssignZoneLeader(m, id)) && Linked(ClearParent(m, id))
  {
    if id in m.nodes {
      LinkedHolds(m, id);
      AssignZoneLeaderMoves(m, id);
      ClearParentMoves(m, id);
      hide AssignZoneLeader, ClearParent;
      MovedLinked(m, AssignZoneLeader(m, id), id, NoAgent, ZoneLeader);
      MovedLinked(m, ClearParent(m, id), id, NoAgent, Unassigned);
    }
  }

  lemma RemoveLinked(m: Mesh, id: AgentId)
    requires Linked(m)
    ensures Linked(Remove(m, id))
  {
    if id in m.nodes {
      LinkedHolds(m, id);
      RemoveRemoves(m, id);
      hide Remove;
      RemovedLinked(m, Remove(m, id), id);
    }
  }

  lemma AddLinked(m: Mesh, id: AgentId, addr: string)
    requires Linked(m) && id != NoAgent
    ensures Linked(AddAgent(m, id, addr))
  {}

  lemma ApplyLinked(m: Mesh, s: Step)
    requires Linked(m)
    ensures Linked(Apply(m, s))
  {
    hide Coherent, Linked, AddAgent, Place, AssignZoneLeader, ClearParent, SetOnline, ChildTree, Remove, Reaches;
    match s
    case AddStep(key, addr) => AddLinked(m, Agent(key), addr);
    case PromoteStep(id) => UnparentLinked(m, id);
    case AssignStep(id, p, _) => if PlacesAt(m, s) { PlaceLinked(m, id, p); }
    case ObserveStep(id, p) => if PlacesAt(m, s) { PlaceLinked(m, id, p); }
    case ClearStep(id) => UnparentLinked(m, id);
    case OnlineStep(ids, online) => OnlineLinked(m, ids, online);
    case SubtreeOfflineStep(id) => OnlineLinked(m, ChildTree(m, id), false);
    case RemoveStep(id) => RemoveLinked(m, id);
  }

  // The invariants of m that m' still has.
  ghost predicate Kept(m: Mesh, m': Mesh) {
    (Coherent(m) ==> Coherent(m')) && (Linked(m) ==> Linked(m'))
  }

  lemma ApplyKeeps(m: Mesh, s: Step)
    ensures Kept(m, Apply(m, s))
  {
    hide Coherent, Linked, Apply;
    if Coherent(m) { ApplyCoherent(m, s); }
    if Linked(m) { ApplyLinked(m, s); }
  }

  // One step keeps a forest a forest exactly when it is guarded.
  lemma ApplyForestIff(m: Mesh, s: Step)
    requires IsForest(m)
    ensures IsForest(Apply(m, s)) <==> Guarded(m, s)
  {
    ApplyLinked(m, s);
    if PlacesAt(m, s) {
      PlaceAcyclicIff(m, s.id, s.parentID);
    } else {
      ApplyOnlyCuts(m, s);
      PruneAcyclic(m, Apply(m, s));
    }
  }

  lemma ApplyOnlyCuts(m: Mesh, s: Step)
    requires Linked(m) && !PlacesAt(m, s)
    ensures forall x <- Apply(m, s).nodes :: Apply(m, s).nodes[x].parent != NoAgent ==>
              x in m.nodes && m.nodes[x].parent == Apply(m, s).nodes[x].parent
  {
    if (s.PromoteStep? || s.ClearStep? || s.RemoveStep?) && s.id in m.nodes {
      LinkedHolds(m, s.id);
      UnlinkDropsEverywhere(m, s.id);
    }
  }

  lemma ApplyDepthsGrowIff(m: Mesh, s: Step)
    requires Linked(m) && DepthsGrow(m)
    ensures DepthsGrow(Apply(m, s)) <==> DepthSafe(m, s)
  {
    if PlacesAt(m, s) {
      PlaceDepthsGrowIff(m, s.id, s.parentID);
    } else if (s.PromoteStep? || s.ClearStep?) && s.id in m.nodes {
      UnparentDepthsGrow(m, s.id);
    } else if s.RemoveStep? {
      RemoveDepthsGrow(m, s.id);
    } else if s.AddStep? {
      AddDepthsGrow(m, Agent(s.key), s.listenAddr);
    }
  }

  lemma AddDepthsGrow(m: Mesh, id: AgentId, addr: string)
    requires Linked(m) && DepthsGrow(m) && id != NoAgent
    ensures DepthsGrow(AddAgent(m, id, addr))
  {}

  // No run of operations whatever breaks the child sets of any mesh.
  lemma {:induction false} EveryRunCoherent(m: Mesh, steps: seq<Step>)
    requires Coherent(m)
    ensures Coherent(Run(m, steps))
    decreases |steps|
  {
    if steps != [] {
      ApplyCoherent(m, steps[0]);
      EveryRunCoherent(Apply(m, steps[0]), steps[1..]);
    }
  }

  // Child sets, parents, roles and the leader set agree after every run of
  // operations whatever, from any mesh in which they agreed.
  lemma {:induction false} EveryRunLinked(m: Mesh, steps: seq<Step>)
    requires Linked(m)
    ensures Linked(Run(m, steps))
    decreases |steps|
  {
    if steps != [] {
      ApplyLinked(m, steps[0]);
      EveryRunLinked(Apply(m, steps[0]), steps[1..]);
    }
  }

  // Runs whose placements are guarded keep the mesh a forest at every point.
  lemma {:induction false} GuardedRunForest(m: Mesh, steps: seq<Step>, n: nat)
    requires IsForest(m) && RunGuarded(m, steps) && n <= |steps|
    ensures IsForest(Run(m, steps[..n]))
    decreases n
  {
    if n > 0 {
      ApplyForestIff(m, steps[0]);
      assert steps[..n][1..] == steps[1..][..n - 1];
      GuardedRunForest(Apply(m, steps[0]), steps[1..], n - 1);
    }
  }

  lemma {:induction false} DepthSafeRunDepthsGrow(m: Mesh, steps: seq<Step>, n: nat)
    requires Linked(m) && DepthsGrow(m) && RunDepthSafe(m, steps) && n <= |steps|
    ensures DepthsGrow(Run(m, steps[..n])) && IsForest(Run(m, steps[..n]))
    decreases n
  {
    if n > 0 {
      ApplyLinked(m, steps[0]);
      ApplyDepthsGrowIff(m, steps[0]);
      assert steps[..n][1..] == steps[1..][..n - 1];
      DepthSafeRunDepthsGrow(Apply(m, steps[0]), steps[1..], n - 1);
    } else {
      DepthsGrowAcyclic(m);
    }
  }

  lemma EmptyMeshIsForest()
    ensures IsForest(EMPTY_MESH) && DepthsGrow(EMPTY_MESH)
  {}

  // AssignChild does not look for the cycle it makes: both calls succeed, and
  // from then on the walk above either agent never ends or meets a third one.
  lemma AssignChildMakesCycle(addr: string)
    ensures var a, b := Agent("a"), Agent("b");
            var start := AddAgent(AssignZoneLeader(AddAgent(EMPTY_MESH, a, addr), a), b, addr);
            var m := AssignChild(AssignChild(start, b, a, 50), a, b, 50);
            && IsForest(start) && !IsForest(m)
            && m.nodes[a].parent == b && m.nodes[b].parent == a
            && forall k: nat :: Up(m, a, k) in {a, b}
  {
    var a, b := Agent("a"), Agent("b");
    var start := AddAgent(AssignZoneLeader(AddAgent(EMPTY_MESH, a, addr), a), b, addr);
    DepthsGrowAcyclic(start);
    var m1 := AssignChild(start, b, a, 50);
    assert m1.nodes[a].children == {b};
    var m := AssignChild(m1, a, b, 50);
    TwoCycle(m, a, b, 2);
    forall k: nat ensures Up(m, a, k) in {a, b} {
      TwoCycle(m, a, b, k);
    }
  }

  lemma {:induction false} TwoCycle(m: Mesh, a: AgentId, b: AgentId, k: nat)
    requires a in m.nodes && b in m.nodes && m.nodes[a].parent == b && m.nodes[b].parent == a
    ensures Up(m, a, k) == if k % 2 == 0 then a else b
    decreases k
  {
    if k > 0 {
      TwoCycle(m, b, a, k - 1);
    }
  }
}
