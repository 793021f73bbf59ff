// The recovery aid: the mesh is written to the agents table every so often and
// read back when the server restarts.
module Snapshots {
  import opened Agents
  import opened Forest
  import opened MeshWalks
  import opened Rehydration
  import opened MeshTopology

  // The agents table by primary key.
  type Table = map<AgentId, AgentRow>

  ghost predicate ValidTable(db: Table) {
    NoAgent !in db && forall id <- db :: db[id].id == id
  }

  // An update that leaves the role column alone when the node has no role.
  function Written(n: Node, row: AgentRow): AgentRow {
    row.(role := if n.role == Unassigned then row.role else RoleText(n.role), parent := n.parent)
  }

  // Every role reads back as itself, and any other text as no role.
  lemma RoleReadsBack(role: Role, text: string)
    ensures RoleOf(RoleText(role)) == role
    ensures RoleOf(text) != Unassigned ==> text == RoleText(RoleOf(text))
  {}

  ghost function Saved(m: Mesh, db: Table): Table {
    map id <- db :: if id in m.nodes then Written(m.nodes[id], db[id]) else db[id]
  }

  // A snapshot leaves the rows of agents it does not know alone, and of the others
  // it writes the parent, and the role unless there is none.
  lemma SavedWrites(m: Mesh, db: Table, id: AgentId)
    requires id in db
    ensures Saved(m, db).Keys == db.Keys
    ensures id !in m.nodes ==> Saved(m, db)[id] == db[id]
    ensures id in m.nodes ==>
              && Saved(m, db)[id].parent == m.nodes[id].parent
              && (m.nodes[id].role != Unassigned ==> RoleOf(Saved(m, db)[id].role) == m.nodes[id].role)
              && (m.nodes[id].role == Unassigned ==> Saved(m, db)[id].role == db[id].role)
              && Saved(m, db)[id].(parent := db[id].parent, role := db[id].role) == db[id]
  {}

  method SnapshotTopologyOnce(t: MeshTopology, db: Table) returns (db': Table)
    requires t.Valid()
    ensures db' == Saved(t.View(), db)
  {
    ghost var m := t.View();
    var infos := t.Snapshot();
    db' := db;
    ghost var done: set<AgentId> := {};
    for i := 0 to |infos|
      invariant db'.Keys == db.Keys
      invariant forall id <- db :: db'[id] == if id in done then Saved(m, db)[id] else db[id]
      invariant forall j | 0 <= j < i :: infos[j].id in done
    {
      var n := infos[i];
      assert n in infos && n == InfoOf(m, n.id);
      if n.id in db' {
        if RoleText(n.role) != "" {
          db' := db'[n.id := db'[n.id].(role := RoleText(n.role))];
        }
        db' := db'[n.id := db'[n.id].(parent := n.parentID)];
      }
      done := done + {n.id};
    }
    forall id <- db ensures db'[id] == Saved(m, db)[id] {
      if id in m.nodes {
        assert InfoOf(m, id) in infos;
      }
    }
  }

  // rows lists the table, in whatever order the query returned.
  ghost predicate Lists(db: Table, rows: seq<AgentRow>) {
    && (forall i, j | 0 <= i < j < |rows| :: rows[i].id != rows[j].id)
    && (forall a <- rows :: a.id in db && a == db[a.id])
    && (forall id <- db :: db[id] in rows)
  }

  lemma {:induction false} LoadIsTable(rows: seq<AgentRow>)
    requires forall i, j | 0 <= i < j < |rows| :: rows[i].id != rows[j].id
    ensures forall a <- rows :: a.id in Load(rows).nodes &&
              Load(rows).nodes[a.id] == Node(RoleOf(a.role), a.parent, {}, 0, a.online, a.listenAddr)
    ensures forall x <- Load(rows).nodes :: exists a <- rows :: a.id == x
    ensures forall x :: x in Load(rows).leaders <==> x in Load(rows).nodes && Load(rows).nodes[x].role == ZoneLeader
  {
    if rows != [] {
      var n := |rows| - 1;
      LoadIsTable(rows[..n]);
      assert rows == rows[..n] + [rows[n]];
      forall x <- Load(rows).nodes ensures exists a <- rows :: a.id == x {
        if x == rows[n].id {
          assert rows[n] in rows;
        } else {
          assert x in Load(rows[..n]).nodes;
          var a :| a in rows[..n] && a.id == x;
          assert a in rows;
        }
      }
      forall a <- rows[..n] ensures a.id != rows[n].id {}
    }
  }

  // The loaded mesh has the saved parents; roles differ only where the table
  // kept a role the mesh no longer had.
  lemma LoadedSaved(m: Mesh, db: Table, rows: seq<AgentRow>)
    requires Linked(m) && ValidTable(db) && db.Keys == m.nodes.Keys && Lists(Saved(m, db), rows)
    ensures var l := Load(rows);
            && l.nodes.Keys == m.nodes.Keys
            && (forall x <- m.nodes :: l.nodes[x].parent == m.nodes[x].parent)
            && (forall x <- m.nodes :: l.nodes[x].role ==
                  if m.nodes[x].role == Unassigned then RoleOf(db[x].role) else m.nodes[x].role)
            && (forall x :: x in l.leaders <==> x in m.nodes && l.nodes[x].role == ZoneLeader)
  {
    hide Linked;
    LoadIsTable(rows);
    forall x <- m.nodes ensures Saved(m, db)[x] in rows && Saved(m, db)[x].id == x {}
  }

  // Restoring always terminates: a saved leader never has a parent.
  lemma SavedLeadersParentless(m: Mesh, db: Table, rows: seq<AgentRow>)
    requires Linked(m) && ValidTable(db) && db.Keys == m.nodes.Keys && Lists(Saved(m, db), rows)
    ensures LeadersParentless(Load(rows)) && NoLeaderOnCycle(Load(rows))
  {
    LoadedSaved(m, db, rows);
    forall x <- Load(rows).leaders ensures Load(rows).nodes[x].parent == NoAgent {
      assert m.nodes[x].role != Relay;
    }
    ParentlessOffCycle(Load(rows));
  }

  ghost predicate SameShape(m: Mesh, m': Mesh) {
    && m'.nodes.Keys == m.nodes.Keys && m'.leaders == m.leaders
    && forall x <- m.nodes :: m'.nodes[x].role == m.nodes[x].role && m'.nodes[x].parent == m.nodes[x].parent && m'.nodes[x].children == m.nodes[x].children
  }

  // No agent without a role is still down as a leader or relay in the table.
  ghost predicate NoStaleRole(m: Mesh, db: Table) {
    forall x <- m.nodes :: x in db && m.nodes[x].role == Unassigned ==> RoleOf(db[x].role) == Unassigned
  }

  ghost predicate ParentsLeaderRooted(m: Mesh) {
    forall x <- m.nodes :: m.nodes[x].children != {} ==> LeaderRooted(m, x)
  }

  lemma BeneathIsRooted(m: Mesh, x: AgentId)
    requires Linked(m)
    ensures BeneathLeader(m, x) <==> LeaderRooted(m, x)
  {
    if k: nat :| Up(m, x, k) in m.leaders {
      forall i: nat | i < k ensures Up(m, x, i) in m.nodes && m.nodes[Up(m, x, i)].role != ZoneLeader {
        KnownBelow(m, x, i, k);
        KnownBelow(m, x, i + 1, k);
        UpNext(m, x, i);
      }
      assert LeaderAt(m, x, k);
    }
    if k: nat :| LeaderAt(m, x, k) {
      assert Up(m, x, k) in m.leaders;
    }
  }

  // Saving and restoring gives back the same roles, parents and child sets
  // exactly when no stale role waits in the table and every agent with children
  // has a leader above it.
  lemma RestoreIff(m: Mesh, db: Table, rows: seq<AgentRow>, m': Mesh)
    requires IsForest(m) && ValidTable(db) && db.Keys == m.nodes.Keys
    requires Lists(Saved(m, db), rows) && Rewired(Load(rows), m')
    ensures SameShape(m, m') <==> NoStaleRole(m, db) && ParentsLeaderRooted(m)
  {
    hide Linked, Acyclic, BeneathLeader, LeaderRooted, ChildrenIn, Load, Saved, Lists, LeadersParentless;
    var l := Load(rows);
    LoadedSaved(m, db, rows);
    assert forall x <- m.nodes :: SameRow(l.nodes[x], m'.nodes[x]);
    if NoStaleRole(m, db) {
      LeadersByRole(m);
      assert l.leaders == m.leaders;
      forall p <- m.nodes ensures m'.nodes[p].children == if LeaderRooted(m, p) then m.nodes[p].children else {} {
        SameBeneath(m, l, p);
        BeneathIsRooted(m, p);
        SameChildren(m, l, p);
      }
    }
  }

  lemma LeadersByRole(m: Mesh)
    requires Linked(m)
    ensures forall x :: x in m.leaders <==> x in m.nodes && m.nodes[x].role == ZoneLeader
  {}

  lemma SameBeneath(m: Mesh, l: Mesh, p: AgentId)
    requires m.nodes.Keys == l.nodes.Keys && m.leaders == l.leaders
    requires forall y <- m.nodes :: l.nodes[y].parent == m.nodes[y].parent
    ensures BeneathLeader(l, p) <==> BeneathLeader(m, p)
  {
    forall k: nat ensures Up(l, p, k) == Up(m, p, k) {
      SameParentsUp(m, l, p, k);
    }
  }

  lemma SameChildren(m: Mesh, l: Mesh, p: AgentId)
    requires Linked(m) && p in m.nodes && m.nodes.Keys == l.nodes.Keys
    requires forall y <- m.nodes :: l.nodes[y].parent == m.nodes[y].parent
    ensures ChildrenIn(l, p) == m.nodes[p].children
  {}

  // --------------------------------------------------------------------
  // What a mesh rebuilt from any table whatever satisfies
  // --------------------------------------------------------------------

  lemma RewiredCoherent(m: Mesh, m': Mesh)
    requires NoAgent !in m.nodes && Rewired(m, m')
    ensures Coherent(m')
  {}

  // The parents named in the rows all sit at or beneath a leader, and whoever
  // names one is a relay.
  ghost predicate RowsFit(rows: seq<AgentRow>) {
    forall a <- rows ::
      && (RoleOf(a.role) == Relay <==> a.parent != NoAgent)
      && (a.parent != NoAgent ==> BeneathLeader(Load(rows), a.parent))
  }

  // Whether a loaded mesh asks for links that wiring provides.
  ghost predicate ParentsFit(m: Mesh) {
    && (forall id :: id in m.leaders <==> id in m.nodes && m.nodes[id].role == ZoneLeader)
    && (forall x <- m.nodes :: m.nodes[x].role == Relay <==> m.nodes[x].parent != NoAgent)
    && (forall x <- m.nodes :: m.nodes[x].parent != NoAgent ==> BeneathLeader(m, m.nodes[x].parent))
  }

  lemma RewiredLinkedIff(m: Mesh, m': Mesh)
    requires NoAgent !in m.nodes && m.leaders <= m.nodes.Keys && Rewired(m, m')
    ensures Linked(m') <==> ParentsFit(m)
  {
    hide BeneathLeader, HopsToTop;
    RewiredCoherent(m, m');
    forall p | BeneathLeader(m, p) ensures p in m.nodes {
      BeneathIsKnown(m, p);
    }
    forall x <- m.nodes | m.nodes[x].parent in m.nodes
      ensures x in m'.nodes[m.nodes[x].parent].children <==> BeneathLeader(m, m.nodes[x].parent) {}
  }

  // The rebuilt mesh has all the links its rows ask for exactly when the rows
  // fit; a row that is its own parent, for one, does not.
  lemma RebuiltLinkedIff(db: Table, rows: seq<AgentRow>, m': Mesh)
    requires ValidTable(db) && Lists(db, rows) && Rewired(Load(rows), m')
    ensures Coherent(m') && (Linked(m') <==> RowsFit(rows))
  {
    hide Load, BeneathLeader, Rewired, Linked, Coherent;
    LoadIsTable(rows);
    var m := Load(rows);
    assert NoAgent !in m.nodes;
    RewiredCoherent(m, m');
    RewiredLinkedIff(m, m');
    forall x <- m.nodes ensures exists a <- rows :: a.id == x && a.parent == m.nodes[x].parent && RoleOf(a.role) == m.nodes[x].role {
      var a :| a in rows && a.id == x;
    }
  }

  lemma BeneathIsKnown(m: Mesh, p: AgentId)
    requires NoAgent !in m.nodes && m.leaders <= m.nodes.Keys && BeneathLeader(m, p)
    ensures p in m.nodes
  {
    var k: nat :| Up(m, p, k) in m.leaders;
    KnownBelow(m, p, 0, k);
  }

  // On any rebuilt mesh the child sets lead from an agent to its whole subtree
  // when a leader sits at or above it, and nowhere when none does.
  lemma RebuiltChildTree(m: Mesh, m': Mesh, root: AgentId)
    requires NoAgent !in m.nodes && Rewired(m, m') && root in m.nodes
    ensures ChildTree(m', root) == if BeneathLeader(m, root) then Subtree(m', root) else {root}
  {
    hide HopsToTop, BeneathLeader;
    RewiredCoherent(m, m');
    assert Up(Agreed(m'), root, 0) == root;
    if BeneathLeader(m, root) {
      forall x | x in m.nodes ensures Reaches(Agreed(m'), x, root) <==> Reaches(m', x, root) {
        if k: nat :| Up(m', x, k) == root {
          AllLinksListed(m, m', root, x, k);
        }
        if k: nat :| Up(Agreed(m'), x, k) == root {
          PruneUp(m', Agreed(m'), x, k);
        }
      }
    } else {
      ClosedIsChildTree(m', root, {root});
    }
  }

  lemma {:induction false} AllLinksListed(m: Mesh, m': Mesh, root: AgentId, x: AgentId, k: nat)
    requires NoAgent !in m.nodes && Rewired(m, m') && root in m.nodes && BeneathLeader(m, root)
    requires x in m.nodes && Up(m', x, k) == root
    ensures Up(Agreed(m'), x, k) == root && BeneathLeader(m, x)
    decreases k
  {
    if k > 0 {
      KnownBelow(m', x, 1, k);
      var p := m'.nodes[x].parent;
      assert Up(m', x, 1) == Up(m', p, 0) == p;
      AllLinksListed(m, m', root, p, k - 1);
      assert x in ChildrenIn(m, p);
      var j: nat :| Up(m, p, j) in m.leaders;
      assert Up(m, x, j + 1) == Up(m, p, j);
    }
  }

  // The stale role is real.  Reading the table at startup has failed, so an
  // agent that led before registers into an empty mesh; a snapshot taken before
  // its batch is answered leaves the old role in its row, and a restart then
  // makes it a leader that nobody promoted.
  lemma StaleRoleReturns(row: AgentRow, addr: string, rows: seq<AgentRow>, m': Mesh)
    requires row.id != NoAgent && RoleOf(row.role) == ZoneLeader
    requires var m := AddAgent(EMPTY_MESH, row.id, addr);
             Lists(Saved(m, map[row.id := row]), rows) && Rewired(Load(rows), m')
    ensures AddAgent(EMPTY_MESH, row.id, addr).leaders == {} && m'.leaders == {row.id}
  {
    hide AddAgent, Linked, Load, Saved, Lists, BeneathLeader, HopsToTop, ChildrenIn;
    var m, db := AddAgent(EMPTY_MESH, row.id, addr), map[row.id := row];
    Newcomer(row.id, addr);
    LoadedSaved(m, db, rows);
    assert forall x :: x in Load(rows).leaders <==> x == row.id;
  }

  lemma Newcomer(id: AgentId, addr: string)
    requires id != NoAgent
    ensures var m := AddAgent(EMPTY_MESH, id, addr);
            Linked(m) && m.leaders == {} && m.nodes.Keys == {id} && m.nodes[id].role == Unassigned
  {
    EmptyMeshIsForest();
    AddLinked(EMPTY_MESH, id, addr);
  }
}
