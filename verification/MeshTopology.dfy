// The server's in-memory view of the mesh, as the class the server keeps.
// Every method is tied to the function of the same name in module Forest.
module MeshTopology {
  import opened Agents
  import opened Forest
  import opened MeshWalks
  import opened Rehydration

  class MeshNode {
    const id: AgentId
    var listenAddr: string
    var role: Role
    var parentID: AgentId
    var children: set<AgentId>
    var depth: nat
    var online: bool

    constructor (id: AgentId, listenAddr: string)
      ensures this.id == id && View() == Node(Unassigned, NoAgent, {}, 0, true, listenAddr)
    {
      this.id, this.listenAddr := id, listenAddr;
      role, parentID, children, depth, online := Unassigned, NoAgent, {}, 0, true;
    }

    constructor FromRow(id: AgentId, listenAddr: string, role: Role, parentID: AgentId, online: bool)
      ensures this.id == id && View() == Node(role, parentID, {}, 0, online, listenAddr)
    {
      this.id, this.listenAddr := id, listenAddr;
      this.role, this.parentID, this.online := role, parentID, online;
      children, depth := {}, 0;
    }

    ghost function View(): Node
      reads this
    {
      Node(role, parentID, children, depth, online, listenAddr)
    }
  }

  class MeshTopology {
    var nodes: map<AgentId, MeshNode>
    var zoneLeaders: set<AgentId>
    const maxChildren: int
    const probationCap: int

    ghost predicate Valid()
      reads this`nodes, nodes.Values
    {
      NoAgent !in nodes && forall id <- nodes :: nodes[id].id == id
    }

    ghost function NodesView(): map<AgentId, Node>
      reads this`nodes, nodes.Values
    {
      map id <- nodes :: nodes[id].View()
    }

    ghost function View(): Mesh
      reads this, nodes.Values
    {
      Mesh(NodesView(), zoneLeaders)
    }

    lemma DepthShown(n: MeshNode)
      requires n.id in nodes && nodes[n.id] == n
      ensures View().nodes[n.id].depth == n.depth
    {}

    lemma KeysAreNodes()
      ensures View().nodes.Keys == nodes.Keys
    {}

    lemma ViewIs(v: map<AgentId, Node>)
      requires nodes.Keys == v.Keys && forall x <- nodes :: nodes[x].View() == v[x]
      ensures NodesView() == v
    {}

    constructor (maxChildren: int, probationCap: int)
      ensures Valid() && View() == EMPTY_MESH && nodes == map[]
      ensures this.maxChildren == maxChildren && this.probationCap == probationCap
    {
      nodes, zoneLeaders := map[], {};
      this.maxChildren, this.probationCap := maxChildren, probationCap;
    }

    method AddAgent(id: AgentId, listenAddr: string)
      requires Valid() && id != NoAgent
      modifies this, nodes.Values
      ensures Valid() && fresh(nodes.Values - old(nodes.Values))
      ensures View() == Forest.AddAgent(old(View()), id, listenAddr)
    {
      if id in nodes {
        var n := nodes[id];
        n.listenAddr := listenAddr;
        n.online := true;
      } else {
        var n := new MeshNode(id, listenAddr);
        nodes := nodes[id := n];
      }
      ViewIs(Forest.AddAgent(old(View()), id, listenAddr).nodes);
    }

    method UnlinkFromParent(n: MeshNode)
      requires Valid() && n.id in nodes && nodes[n.id] == n
      modifies nodes.Values
      ensures Valid() && View() == Unlink(old(View()), n.id)
      ensures forall x <- nodes :: nodes[x].depth == old(nodes[x].depth)
    {
      if n.parentID != NoAgent && n.parentID in nodes {
        var p := nodes[n.parentID];
        p.children := p.children - {n.id};
      }
    }

    // Writes the fields that say where n sits.
    method Reseat(n: MeshNode, role: Role, parentID: AgentId, depth: nat)
      requires Valid() && n.id in nodes && nodes[n.id] == n
      modifies n
      ensures Valid() && n.children == old(n.children)
      ensures View() == Forest.Reseat(old(View()), n.id, role, parentID, depth)
    {
      n.role := role;
      n.parentID := parentID;
      n.depth := depth;
      ViewIs(Forest.Reseat(old(View()), n.id, role, parentID, depth).nodes);
    }

    method AssignZoneLeader(id: AgentId)
      requires Valid()
      modifies this`zoneLeaders, nodes.Values
      ensures Valid()
      ensures View() == Forest.AssignZoneLeader(old(View()), id)
    {
      if id in nodes {
        var n := nodes[id];
        UnlinkFromParent(n);
        Reseat(n, ZoneLeader, NoAgent, 0);
        zoneLeaders := zoneLeaders + {id};
      }
    }

    // Out of the old parent's child set and out of the leader set; depths stay.
    method DetachFromTree(n: MeshNode)
      requires Valid() && n.id in nodes && nodes[n.id] == n
      modifies this`zoneLeaders, nodes.Values
      ensures Valid() && forall x <- nodes :: nodes[x].depth == old(nodes[x].depth)
      ensures View() == Detached(old(View()), n.id)
    {
      UnlinkFromParent(n);
      zoneLeaders := zoneLeaders - {n.id};
    }

    method Link(n: MeshNode, p: MeshNode)
      requires Valid() && n.id in nodes && nodes[n.id] == n && p.id in nodes && nodes[p.id] == p
      modifies this`zoneLeaders, nodes.Values
      ensures Valid()
      ensures View() == Place(old(View()), n.id, p.id)
    {
      hide View, Place, Detached, Forest.Reseat, Forest.AddChild;
      ghost var m := View();
      KeysAreNodes();
      DepthShown(p);
      DetachFromTree(n);
      Reseat(n, Relay, p.id, p.depth + 1);
      AddChild(p, n.id);
      PlaceOrder(m, n.id, p.id);
    }

    method AddChild(p: MeshNode, id: AgentId)
      requires Valid() && p.id in nodes && nodes[p.id] == p
      modifies p
      ensures Valid()
      ensures View() == Forest.AddChild(old(View()), p.id, id)
    {
      p.children := p.children + {id};
      ViewIs(Forest.AddChild(old(View()), p.id, id).nodes);
    }

    // isFlaky: whether the parent is on reboot probation at this moment.
    method AssignChild(id: AgentId, parentID: AgentId, isFlaky: bool) returns (ok: bool)
      requires Valid()
      modifies this`zoneLeaders, nodes.Values
      ensures Valid()
      ensures ok <==> MayAssignChild(old(View()), id, parentID, Capacity(isFlaky, maxChildren, probationCap))
      ensures View() == Forest.AssignChild(old(View()), id, parentID, Capacity(isFlaky, maxChildren, probationCap))
    {
      if id !in nodes || parentID !in nodes {
        return false;
      }
      var n, p := nodes[id], nodes[parentID];
      if !p.online || |p.children| >= Capacity(isFlaky, maxChildren, probationCap) {
        return false;
      }
      Link(n, p);
      return true;
    }

    // The upward walk has no record of what it has seen: it stops exactly when
    // the chain above parentID runs out or meets id.
    method AttachObserved(id: AgentId, parentID: AgentId) returns (ok: bool)
      requires Valid()
      requires id != parentID && id in nodes && parentID in nodes ==> WalkEnds(View(), parentID, id)
      modifies this`zoneLeaders, nodes.Values
      ensures Valid()
      ensures ok <==> MayAttachObserved(old(View()), id, parentID)
      ensures View() == Forest.AttachObserved(old(View()), id, parentID)
    {
      if id == parentID || id !in nodes || parentID !in nodes {
        return false;
      }
      var n, p := nodes[id], nodes[parentID];
      ghost var m := View();
      ghost var stop: nat :| Up(m, parentID, stop) == id || Up(m, parentID, stop) !in m.nodes;
      ghost var k: nat := 0;
      var cur := parentID;
      while true
        invariant cur in nodes && cur == Up(m, parentID, k) && View() == m
        invariant forall i: nat | i < k :: Up(m, parentID, i) != id
        invariant forall i: nat | i <= k :: Up(m, parentID, i) in m.nodes
        decreases stop - k
      {
        if cur == id {
          return false;
        }
        assert k < stop;
        UpNext(m, parentID, k);
        if nodes[cur].parentID == NoAgent || nodes[cur].parentID !in nodes {
          NotReachedAhead(m, parentID, k + 1, id);
          break;
        }
        cur := nodes[cur].parentID;
        k := k + 1;
      }
      Link(n, p);
      return true;
    }

    method ClearParent(id: AgentId)
      requires Valid()
      modifies this`zoneLeaders, nodes.Values
      ensures Valid()
      ensures View() == Forest.ClearParent(old(View()), id)
    {
      if id in nodes {
        var n := nodes[id];
        UnlinkFromParent(n);
        zoneLeaders := zoneLeaders - {id};
        Reseat(n, Unassigned, NoAgent, 0);
      }
    }

    method MarkOnline(id: AgentId)
      requires Valid()
      modifies nodes.Values
      ensures Valid() && View() == SetOnline(old(View()), {id}, true)
    {
      if id in nodes {
        nodes[id].online := true;
      }
    }

    method MarkOffline(id: AgentId)
      requires Valid()
      modifies nodes.Values
      ensures Valid() && View() == SetOnline(old(View()), {id}, false)
    {
      if id in nodes {
        nodes[id].online := false;
      }
    }

    method Remove(id: AgentId)
      requires Valid()
      modifies this, nodes.Values
      ensures Valid() && nodes.Values <= old(nodes.Values)
      ensures View() == Forest.Remove(old(View()), id)
    {
      if id !in nodes {
        return;
      }
      var n := nodes[id];
      UnlinkFromParent(n);
      OrphanChildren(n);
      zoneLeaders := zoneLeaders - {id};
      nodes := nodes - {id};
      ViewIs(Forest.Remove(old(View()), id).nodes);
    }

    method OrphanChildren(n: MeshNode)
      requires Valid() && n.id in nodes && nodes[n.id] == n
      modifies nodes.Values
      ensures Valid() && View() == Orphan(old(View()), old(n.children))
    {
      hide View, Orphan, Forest.Reseat;
      KeysAreNodes();
      ghost var u := View();
      ghost var orphans := n.children;
      OrphanNobody(u);
      assert orphans - orphans == {};
      var rest := n.children;
      while rest != {}
        invariant Valid() && rest <= orphans && View().nodes.Keys == nodes.Keys
        invariant View() == Orphan(u, orphans - rest)
        decreases rest
      {
        var childID :| childID in rest;
        if childID in nodes {
          Reseat(nodes[childID], Unassigned, NoAgent, 0);
        }
        OrphanMore(u, orphans - rest, childID);
        assert orphans - (rest - {childID}) == orphans - rest + {childID};
        rest := rest - {childID};
        KeysAreNodes();
      }
      assert orphans - rest == orphans;
    }

    // ------------------------------------------------------------------
    // Walks
    // ------------------------------------------------------------------

    // Answers for every state, cycles included: yes exactly when the chain
    // above id meets ancestorID.
    method IsWithinSubtree(ancestorID: AgentId, id: AgentId) returns (within: bool)
      requires Valid()
      ensures within <==> ancestorID in nodes && Reaches(View(), id, ancestorID)
    {
      ghost var m := View();
      if ancestorID == NoAgent || id == NoAgent || ancestorID !in nodes {
        if ancestorID in nodes { NotReachedUnknown(m, id, ancestorID); }
        return false;
      }
      ghost var k: nat := 0;
      var seen: set<AgentId> := {};
      var cur := id;
      while cur != NoAgent
        invariant cur == Up(m, id, k)
        invariant forall i: nat | i < k :: Up(m, id, i) != ancestorID
        invariant forall x <- seen :: x in nodes && exists i: nat :: i < k && Up(m, id, i) == x
        decreases nodes.Keys - seen
      {
        if cur in seen {
          NotReachedAhead(m, id, k, ancestorID);
          return false;
        }
        if cur == ancestorID {
          return true;
        }
        if cur !in nodes {
          NotReachedAhead(m, id, k, ancestorID);
          return false;
        }
        UpNext(m, id, k);
        seen := seen + {cur};
        assert Up(m, id, k) == cur;
        cur := nodes[cur].parentID;
        k := k + 1;
      }
      NotReachedAhead(m, id, k, ancestorID);
      return false;
    }

    // zl == NoAgent is the source's ("", false).
    method FindZoneLeader(id: AgentId) returns (zl: AgentId)
      requires Valid()
      ensures zl == NoAgent <==> !LeaderRooted(View(), id)
      ensures zl != NoAgent ==> exists k: nat :: LeaderAt(View(), id, k) && zl == Up(View(), id, k)
    {
      ghost var m := View();
      ghost var k: nat := 0;
      var seen: set<AgentId> := {};
      var cur := id;
      while cur != NoAgent
        invariant cur == Up(m, id, k)
        invariant NoLeaderBefore(m, id, k)
        invariant forall x <- seen :: x in nodes && exists i: nat :: i < k && Up(m, id, i) == x
        decreases nodes.Keys - seen
      {
        if cur in seen || cur !in nodes {
          NoLeaderAhead(m, id, k);
          return NoAgent;
        }
        if nodes[cur].role == ZoneLeader {
          assert LeaderAt(m, id, k);
          return cur;
        }
        UpNext(m, id, k);
        seen := seen + {cur};
        assert Up(m, id, k) == cur;
        cur := nodes[cur].parentID;
        k := k + 1;
      }
      NoLeaderAhead(m, id, k);
      return NoAgent;
    }

    // The empty path is the source's nil.
    method PathFromZoneLeader(id: AgentId) returns (path: seq<AgentId>)
      requires Valid()
      ensures path == [] <==> !LeaderRooted(View(), id)
      ensures path != [] ==> IsRoute(View(), id, path)
    {
      hide IsRoute, LeaderRooted;
      ghost var m := View();
      var climbed: seq<AgentId> := [];
      var seen: set<AgentId> := {};
      var cur := id;
      while cur != NoAgent
        invariant cur == Up(m, id, |climbed|)
        invariant forall i | 0 <= i < |climbed| :: climbed[i] == Up(m, id, i)
        invariant NoLeaderBefore(m, id, |climbed|)
        invariant seen <= nodes.Keys && seen == Elems(climbed)
        decreases nodes.Keys - seen
      {
        ghost var k := |climbed|;
        if cur in seen || cur !in nodes {
          assert cur in seen ==> exists i: nat :: i < k && climbed[i] == cur;
          NoLeaderAhead(m, id, k);
          return [];
        }
        seen := seen + {cur};
        climbed := climbed + [cur];
        if nodes[cur].role == ZoneLeader {
          assert LeaderAt(m, id, k);
          path := Reverse(climbed);
          ClimbedRoute(m, id, climbed);
          return;
        }
        UpNext(m, id, k);
        cur := nodes[cur].parentID;
        assert Up(m, id, k) == climbed[k];
      }
      NoLeaderAhead(m, id, |climbed|);
      return [];
    }

    // Puts the children of n not yet seen at the end of the queue.
    method Enqueue(n: MeshNode, queue0: seq<AgentId>, seen0: set<AgentId>, ghost m: Mesh, ghost root: AgentId, ghost out: seq<AgentId>)
      returns (queue: seq<AgentId>, seen: set<AgentId>)
      requires Coherent(m) && n.id in m.nodes && n.children == m.nodes[n.id].children
      requires InExpansion(m, root, out, queue0, seen0, n.id, n.children)
      ensures Frontier(m, root, out, queue, seen)
    {
      queue, seen := queue0, seen0;
      var rest := n.children;
      while rest != {}
        invariant rest <= n.children
        invariant InExpansion(m, root, out, queue, seen, n.id, rest)
        decreases rest
      {
        var childID :| childID in rest;
        rest := rest - {childID};
        FrontierGrow(m, root, out, queue, seen, n.id, rest, childID);
        if childID !in seen {
          seen := seen + {childID};
          queue := queue + [childID];
        }
      }
    }

    // Breadth-first over child sets.
    method SubtreeIDs(rootID: AgentId) returns (out: seq<AgentId>)
      requires Valid() && Coherent(View())
      ensures rootID !in nodes ==> out == []
      ensures rootID in nodes ==> NoDups(out) && Elems(out) == ChildTree(View(), rootID)
    {
      hide Coherent, ChildTree, Frontier, InExpansion, Walking;
      if rootID !in nodes {
        return [];
      }
      ghost var m := View();
      out := [];
      var queue := [rootID];
      var seen := {rootID};
      FrontierStart(m, rootID);
      while queue != []
        invariant Frontier(m, rootID, out, queue, seen)
        decreases nodes.Keys - Elems(out)
      {
        var id := queue[0];
        FrontierAdvance(m, rootID, out, queue, seen);
        ElemsSnoc(out, id);
        queue := queue[1..];
        out := out + [id];
        assert nodes[id].View() == m.nodes[id];
        queue, seen := Enqueue(nodes[id], queue, seen, m, rootID, out);
      }
      FrontierDone(m, rootID, out, seen);
    }

    // Marks the subtree offline; returns who was online before the call.
    method TakeOffline(n: MeshNode) returns (hit: bool)
      requires Valid() && n.id in nodes && nodes[n.id] == n
      modifies n
      ensures Valid() && View() == SetOnline(old(View()), {n.id}, false)
      ensures n.id in old(View()).nodes && hit == old(View()).nodes[n.id].online
      ensures n.children == old(View()).nodes[n.id].children && nodes == old(nodes)
    {
      assert n.View() == View().nodes[n.id];
      hit := n.online;
      if n.online {
        n.online := false;
      }
      ViewIs(SetOnline(old(View()), {n.id}, false).nodes);
    }

    method MarkSubtreeOffline(rootID: AgentId) returns (affected: seq<AgentId>)
      requires Valid() && Coherent(View())
      modifies nodes.Values
      ensures Valid() && View() == Forest.MarkSubtreeOffline(old(View()), rootID)
      ensures NoDups(affected)
      ensures Elems(affected) == if rootID in old(nodes) then OnlineAmong(old(View()), ChildTree(old(View()), rootID)) else {}
    {
      hide Coherent, ChildTree, Frontier, InExpansion, Walking, SetOnline, Elems, OnlineAmong, NoDups, View;
      KeysAreNodes();
      affected := [];
      ElemsSnoc([], rootID);
      if rootID !in nodes {
        NoDupsSnoc([], rootID);
        return;
      }
      ghost var m := View();
      ghost var out: seq<AgentId> := [];
      var queue := [rootID];
      var seen := {rootID};
      FrontierStart(m, rootID);
      OfflineStep(m, {}, rootID);
      NoDupsSnoc(affected, rootID);
      while queue != []
        invariant Frontier(m, rootID, out, queue, seen)
        invariant nodes == old(nodes) && Valid() && View() == SetOnline(m, Elems(out), false)
        invariant NoDups(affected) && Elems(affected) == OnlineAmong(m, Elems(out))
        decreases nodes.Keys - Elems(out)
      {
        var id := queue[0];
        FrontierAdvance(m, rootID, out, queue, seen);
        ElemsSnoc(out, id);
        OfflineStep(m, Elems(out), id);
        var n := nodes[id];
        var hit := TakeOffline(n);
        if hit {
          NoDupsSnoc(affected, id);
          ElemsSnoc(affected, id);
          affected := affected + [id];
        }
        queue := queue[1..];
        out := out + [id];
        queue, seen := Enqueue(n, queue, seen, m, rootID, out);
      }
      FrontierDone(m, rootID, out, seen);
    }

    // ------------------------------------------------------------------
    // Choosing a parent
    // ------------------------------------------------------------------

    // Map order decides between equally good nodes; nothing strictly better
    // than the one returned is ever passed over.
    method FindShallowestParentWithRoom(flaky: set<AgentId>, hot: set<AgentId>) returns (found: bool, best: AgentId)
      requires Valid()
      ensures var cfg := Placement(flaky, hot, maxChildren, probationCap);
              && (found <==> !NobodyHasRoom(View(), cfg))
              && (found ==> Unbeaten(View(), cfg, best))
    {
      ghost var m := View();
      var cfg := Placement(flaky, hot, maxChildren, probationCap);
      found, best := false, NoAgent;
      var rest := nodes.Keys;
      while rest != {}
        invariant rest <= nodes.Keys
        invariant found ==> best in nodes.Keys - rest && IsCandidate(m, cfg, best)
        invariant forall x <- nodes.Keys - rest | IsCandidate(m, cfg, x) :: found && !Preferred(m, cfg, x, best)
        decreases rest
      {
        var id :| id in rest;
        rest := rest - {id};
        var n := nodes[id];
        assert n.View() == m.nodes[id];
        if !n.online || n.listenAddr == "" || n.role == Unassigned || |n.children| >= cfg.CapacityOf(id) {
          continue;
        }
        var b := if found then nodes[best] else n;
        assert b.View() == m.nodes[if found then best else id];
        var f, fb := id in flaky || id in hot, best in flaky || best in hot;
        if !found || (if f != fb then !f else if n.depth != b.depth then n.depth < b.depth else |n.children| < |b.children|) {
          found, best := true, id;
        }
      }
    }

    // ------------------------------------------------------------------
    // Snapshots and rehydration
    // ------------------------------------------------------------------

    method Snapshot() returns (out: seq<NodeInfo>)
      requires Valid()
      ensures SnapshotOf(View(), out)
    {
      ghost var m := View();
      out := [];
      var rest := nodes.Keys;
      while rest != {}
        invariant rest <= nodes.Keys
        invariant NoDups(out)
        invariant forall n <- out :: n.id in nodes.Keys - rest && n == InfoOf(m, n.id)
        invariant forall x <- nodes.Keys - rest :: InfoOf(m, x) in out
        decreases rest
      {
        var id :| id in rest;
        rest := rest - {id};
        var n := nodes[id];
        assert n.View() == m.nodes[id];
        out := out + [NodeInfo(id, n.listenAddr, n.role, n.parentID, n.depth, n.online)];
      }
    }

    method LoadRows(rows: seq<AgentRow>)
      requires Valid() && View() == EMPTY_MESH
      requires forall a <- rows :: a.id != NoAgent
      modifies this
      ensures Valid() && forall x <- nodes :: fresh(nodes[x])
      ensures View() == Load(rows)
    {
      assert nodes.Keys == View().nodes.Keys;
      for i := 0 to |rows|
        invariant Valid() && forall x <- nodes :: fresh(nodes[x])
        invariant View() == Load(rows[..i])
      {
        var a := rows[i];
        ghost var m := View();
        assert rows[..i + 1][..i] == rows[..i];
        var n := new MeshNode.FromRow(a.id, a.listenAddr, RoleOf(a.role), a.parent, a.online);
        nodes := nodes[a.id := n];
        if RoleOf(a.role) == ZoneLeader {
          zoneLeaders := zoneLeaders + {a.id};
        }
        ViewIs(LoadRow(m, a).nodes);
      }
      assert rows[..|rows|] == rows;
    }

    method HangUnder(parent: MeshNode, n: MeshNode)
      requires Valid() && parent.id in nodes && nodes[parent.id] == parent && n.id in nodes && nodes[n.id] == n
      modifies parent, n
      ensures Valid() && View() == Hang(old(View()), parent.id, n.id)
    {
      parent.children := parent.children + {n.id};
      n.depth := parent.depth + 1;
      ViewIs(Hang(old(View()), parent.id, n.id).nodes);
    }

    // Hangs every agent that names parent as its parent beneath it.
    method Expand(parent: MeshNode) returns (kids: seq<AgentId>)
      requires Valid() && parent.id in nodes && nodes[parent.id] == parent
      requires parent.parentID != parent.id
      modifies nodes.Values
      ensures Valid() && Elems(kids) == ChildrenIn(old(View()), parent.id)
      ensures Expanded(old(View()), old(View()), View(), parent.id)
    {
      hide Hanging, Expanded, Elems, ChildrenIn;
      ghost var m := View();
      ghost var p := parent.id;
      assert m.nodes[p] == parent.View();
      HangNone(m, p);
      kids := [];
      ElemsSnoc<AgentId>([], p);
      ChildrenKnown(m, p);
      var rest := nodes.Keys;
      while rest != {}
        invariant rest <= nodes.Keys && Valid()
        invariant Elems(kids) == ChildrenIn(m, p) - rest
        invariant Hanging(m, View(), p, Elems(kids))
        decreases rest
      {
        var id :| id in rest;
        NextChild(m, p, rest, id);
        rest := rest - {id};
        var n := nodes[id];
        assert n.View() == View().nodes[id];
        HangingRow(m, View(), p, Elems(kids), id);
        if n.parentID == parent.id {
          HangOne(m, View(), p, Elems(kids), id);
          HangUnder(parent, n);
          ElemsSnoc(kids, id);
          kids := kids + [id];
        }
      }
      assert ChildrenIn(m, p) - {} == ChildrenIn(m, p);
      HangAll(m, View(), p);
    }

    method LeaderQueue() returns (queue: seq<AgentId>)
      requires Valid() && zoneLeaders <= nodes.Keys && forall x <- nodes :: nodes[x].depth == 0
      modifies nodes.Values
      ensures Valid() && View() == old(View()) && Elems(queue) == zoneLeaders
    {
      ghost var m := View();
      queue := [];
      var rest := zoneLeaders;
      while rest != {}
        invariant rest <= zoneLeaders && Valid() && View() == m && Elems(queue) == zoneLeaders - rest
        decreases rest
      {
        var id :| id in rest;
        rest := rest - {id};
        assert nodes[id].View() == m.nodes[id];
        nodes[id].depth := 0;
        ViewIs(m.nodes);
        ghost var before := queue;
        queue := queue + [id];
        assert Elems(queue) == Elems(before) + {id};
      }
    }

    method WireFromLeaders()
      requires Valid() && zoneLeaders <= nodes.Keys && NoLeaderOnCycle(View())
      requires forall x <- nodes :: nodes[x].children == {} && nodes[x].depth == 0
      modifies nodes.Values
      ensures Valid() && Rewired(old(View()), View())
    {
      hide Wiring, Levelled, LevelRest, Rewired, NoLeaderOnCycle, Expanded;
      ghost var m := View();
      assert forall x <- m.nodes :: m.nodes[x] == nodes[x].View();
      var queue := LeaderQueue();
      ghost var gens: seq<nat> := seq(|queue|, _ => 0);
      LevelledStart(m, queue);
      WiringStart(m);
      assert Elems(queue[..0]) == {} && queue[0..] == queue;
      var i := 0;
      while i < |queue|
        invariant Valid()
        invariant i <= |queue| && Levelled(m, queue, gens, i)
        invariant WiredTo(m, View(), queue, i)
        decreases LevelsLeft(|m.nodes.Keys|, gens, i), LevelRest(gens, i)
      {
        ghost var cur := View();
        WiringFront(m, cur, queue, gens, i);
        var parent := nodes[queue[i]];
        assert cur.nodes[queue[i]] == parent.View();
        var kids := Expand(parent);
        WiringTurn(m, cur, View(), queue, i, kids);
        LevelledStep(m, queue, gens, i, kids);
        LevelProgress(m, queue, gens, i, kids);
        gens := NextGens(gens, i, kids);
        queue := queue + kids;
        i := i + 1;
      }
      assert queue[..i] == queue && Elems(queue[i..]) == {};
      WiringDone(m, View(), Elems(queue));
    }

    // Seeds an empty topology from the agents table.  The wiring loop ends
    // exactly when no leader is its own ancestor.
    method Rehydrate(rows: seq<AgentRow>)
      requires Valid() && View() == EMPTY_MESH
      requires forall a <- rows :: a.id != NoAgent
      requires NoLeaderOnCycle(Load(rows))
      modifies this
      ensures Valid() && forall x <- nodes :: fresh(nodes[x])
      ensures Rewired(Load(rows), View())
    {
      LoadRows(rows);
      LoadKnows(rows);
      assert forall x <- nodes :: nodes[x].View() == View().nodes[x];
      WireFromLeaders();
    }
  }

  lemma OrphanNobody(m: Mesh)
    ensures Orphan(m, {}) == m
  {}

  lemma OrphanMore(m: Mesh, done: set<AgentId>, id: AgentId)
    ensures Orphan(m, done).nodes.Keys == m.nodes.Keys
    ensures Orphan(m, done + {id}) == if id in m.nodes then Forest.Reseat(Orphan(m, done), id, Unassigned, NoAgent, 0) else Orphan(m, done)
  {}

  // Out of its parent's child set and the leader set, but not reseated yet.
  function Detached(m: Mesh, id: AgentId): Mesh
    requires id in m.nodes
  {
    var u := Unlink(m, id);
    u.(leaders := u.leaders - {id})
  }

  // The leader set may be updated before or after the node is reseated.
  lemma PlaceOrder(m: Mesh, id: AgentId, parentID: AgentId)
    requires id in m.nodes && parentID in m.nodes
    ensures Place(m, id, parentID) == Forest.AddChild(Forest.Reseat(Detached(m, id), id, Relay, parentID, m.nodes[parentID].depth + 1), parentID, id)
  {}

  // Reverses in place, swapping from both ends.
  method Reverse(s: seq<AgentId>) returns (r: seq<AgentId>)
    ensures r == Reversed(s)
  {
    r := s;
    var i, j := 0, |s| - 1;
    while i < j
      invariant |r| == |s| && 0 <= i <= j + 1 && j == |s| - 1 - i
      invariant forall k | 0 <= k < i || j < k < |s| :: r[k] == s[|s| - 1 - k]
      invariant forall k | i <= k <= j :: r[k] == s[k]
    {
      r := r[i := r[j]][j := r[i]];
      i, j := i + 1, j - 1;
    }
  }

  // --------------------------------------------------------------------
  // The breadth-first walk: out has been visited, queue is waiting, and
  // together they are what has been seen.
  // --------------------------------------------------------------------

  ghost predicate Walking(m: Mesh, root: AgentId, out: seq<AgentId>, queue: seq<AgentId>, seen: set<AgentId>) {
    && NoDups(out + queue) && Elems(out + queue) == seen
    && root in seen && seen <= m.nodes.Keys
    && forall x <- seen :: Reaches(Agreed(m), x, root)
  }

  ghost predicate Frontier(m: Mesh, root: AgentId, out: seq<AgentId>, queue: seq<AgentId>, seen: set<AgentId>) {
    && Walking(m, root, out, queue, seen)
    && forall x <- out, c <- m.nodes[x].children :: c in seen
  }

  // While the children of id, the last agent visited, are being looked at.
  ghost predicate InExpansion(m: Mesh, root: AgentId, out: seq<AgentId>, queue: seq<AgentId>, seen: set<AgentId>, id: AgentId, rest: set<AgentId>) {
    && Walking(m, root, out, queue, seen)
    && id in out
    && forall x <- out, c <- m.nodes[x].children :: c in seen || (x == id && c in rest)
  }

  ghost function OnlineAmong(m: Mesh, ids: set<AgentId>): set<AgentId> {
    set x | x in ids && x in m.nodes && m.nodes[x].online
  }

  // Taking one more agent offline.
  lemma OfflineStep(m: Mesh, done: set<AgentId>, id: AgentId)
    requires id in m.nodes && id !in done
    ensures SetOnline(m, {}, false) == m && OnlineAmong(m, {}) == {}
    ensures id in SetOnline(m, done, false).nodes && SetOnline(m, done, false).nodes[id] == m.nodes[id]
    ensures id in SetOnline(m, done + {id}, false).nodes && SetOnline(m, done + {id}, false).nodes[id].children == m.nodes[id].children
    ensures id !in OnlineAmong(m, done)
    ensures SetOnline(SetOnline(m, done, false), {id}, false) == SetOnline(m, done + {id}, false)
    ensures OnlineAmong(m, done + {id}) == OnlineAmong(m, done) + if m.nodes[id].online then {id} else {}
  {
    SetOnlineMore(m, done, id, false);
  }

  lemma FrontierStart(m: Mesh, root: AgentId)
    requires root in m.nodes
    ensures Frontier(m, root, [], [root], {root})
  {
    assert Up(Agreed(m), root, 0) == root;
    assert [] + [root] == [root];
  }

  lemma FrontierAdvance(m: Mesh, root: AgentId, out: seq<AgentId>, queue: seq<AgentId>, seen: set<AgentId>)
    requires Frontier(m, root, out, queue, seen) && queue != []
    ensures queue[0] in m.nodes && queue[0] !in Elems(out)
    ensures InExpansion(m, root, out + [queue[0]], queue[1..], seen, queue[0], m.nodes[queue[0]].children)
  {
    assert (out + queue)[|out|] == queue[0];
    assert out + [queue[0]] + queue[1..] == out + queue;
    forall i | 0 <= i < |out| ensures out[i] != queue[0] {
      assert (out + queue)[i] == out[i];
    }
  }

  lemma FrontierGrow(m: Mesh, root: AgentId, out: seq<AgentId>, queue: seq<AgentId>, seen: set<AgentId>, id: AgentId, rest: set<AgentId>, c: AgentId)
    requires Coherent(m) && c !in rest && InExpansion(m, root, out, queue, seen, id, rest + {c})
    requires c in m.nodes[id].children
    ensures c in seen ==> InExpansion(m, root, out, queue, seen, id, rest)
    ensures c !in seen ==> InExpansion(m, root, out, queue + [c], seen + {c}, id, rest)
  {
    ChildReaches(m, id, c, root);
    assert out + (queue + [c]) == (out + queue) + [c];
  }

  lemma FrontierDone(m: Mesh, root: AgentId, out: seq<AgentId>, seen: set<AgentId>)
    requires Coherent(m) && Frontier(m, root, out, [], seen)
    ensures NoDups(out) && Elems(out) == ChildTree(m, root)
  {
    assert out + [] == out;
    ClosedIsChildTree(m, root, seen);
  }
}
