// Grouping broadcast targets into dispatch waves, deepest agents first.
module Waves {
  import opened Agents
  import opened Forest
  import opened MeshTopology

  const UNKNOWN_DEPTH := -1

  function DepthOf(m: Mesh, id: AgentId): int {
    if id in m.nodes then m.nodes[id].depth else UNKNOWN_DEPTH
  }

  // The targets at one depth, in the order they were given.
  function AtDepth(m: Mesh, targets: seq<AgentId>, d: int): seq<AgentId> {
    if targets == [] then []
    else
      var last := targets[|targets| - 1];
      AtDepth(m, targets[..|targets| - 1], d) + if DepthOf(m, last) == d then [last] else []
  }

  ghost function DepthsOf(m: Mesh, targets: seq<AgentId>): set<int> {
    set t | t in targets :: DepthOf(m, t)
  }

  lemma DepthsOfSnoc(m: Mesh, targets: seq<AgentId>, id: AgentId)
    ensures DepthsOf(m, targets + [id]) == DepthsOf(m, targets) + {DepthOf(m, id)}
  {}

  // depths lists the depths that occur, deepest first, and waves[i] holds the
  // targets at depths[i].
  ghost predicate IsPlan(m: Mesh, targets: seq<AgentId>, waves: seq<seq<AgentId>>, depths: seq<int>) {
    && |waves| == |depths|
    && (forall i, j | 0 <= i < j < |depths| :: depths[i] > depths[j])
    && Elems(depths) == DepthsOf(m, targets)
    && (forall i | 0 <= i < |waves| :: waves[i] == AtDepth(m, targets, depths[i]))
  }

  lemma NewElem(ds: seq<int>, n: nat, sorted: seq<int>)
    requires NoDups(ds) && n < |ds| && Elems(sorted) == Elems(ds[..n])
    ensures forall i | 0 <= i < |sorted| :: sorted[i] != ds[n]
  {
    forall i | 0 <= i < |sorted| ensures sorted[i] != ds[n] {
      assert sorted[i] in Elems(ds[..n]);
    }
  }

  lemma InsertedElems(s: seq<int>, at: nat, x: int)
    requires at <= |s|
    ensures Elems(s[..at] + [x] + s[at..]) == Elems(s) + {x}
  {
    assert s == s[..at] + s[at..];
  }

  // Stands for sort.Sort(sort.Reverse(...)) on depths that are all different.
  method SortDescending(ds: seq<int>) returns (sorted: seq<int>)
    requires NoDups(ds)
    ensures forall i, j | 0 <= i < j < |sorted| :: sorted[i] > sorted[j]
    ensures Elems(sorted) == Elems(ds)
  {
    hide Elems;
    sorted := [];
    ElemsSnoc<int>([], 0);
    for n := 0 to |ds|
      invariant forall i, j | 0 <= i < j < |sorted| :: sorted[i] > sorted[j]
      invariant Elems(sorted) == Elems(ds[..n])
    {
      var d := ds[n];
      assert ds[..n + 1] == ds[..n] + [d];
      ElemsSnoc(ds[..n], d);
      NewElem(ds, n, sorted);
      var at := 0;
      while at < |sorted| && sorted[at] > d
        invariant 0 <= at <= |sorted|
        invariant forall i | 0 <= i < at :: sorted[i] > d
      {
        at := at + 1;
      }
      InsertedElems(sorted, at, d);
      sorted := sorted[..at] + [d] + sorted[at..];
    }
    assert ds[..|ds|] == ds;
  }

  method TargetIDWavesByDepthDesc(t: MeshTopology, targets: seq<AgentId>) returns (waves: seq<seq<AgentId>>)
    requires t.Valid()
    ensures exists depths :: IsPlan(t.View(), targets, waves, depths)
  {
    hide DepthsOf, DepthOf, AtDepth, Elems, NoDups;
    ghost var m := t.View();
    var byDepth: map<int, seq<AgentId>> := map[];
    var depths: seq<int> := [];
    NoDupsSnoc(depths, 0);
    ElemsSnoc(depths, 0);
    NoDepths(m);
    for n := 0 to |targets|
      invariant NoDups(depths) && Elems(depths) == byDepth.Keys == DepthsOf(m, targets[..n])
      invariant forall d <- byDepth :: byDepth[d] == AtDepth(m, targets[..n], d)
    {
      var id := targets[n];
      var d := UNKNOWN_DEPTH;
      if id in t.nodes {
        assert t.nodes[id].View() == m.nodes[id];
        d := t.nodes[id].depth;
      }
      assert d == DepthOf(m, id) by { DepthOfIs(m, id); }
      assert targets[..n + 1] == targets[..n] + [id];
      DepthsOfSnoc(m, targets[..n], id);
      forall e ensures AtDepth(m, targets[..n + 1], e) == AtDepth(m, targets[..n], e) + if d == e then [id] else [] {
        AtDepthSnoc(m, targets[..n], id, e);
      }
      if d !in byDepth {
        NothingAtDepth(m, targets[..n], d);
        NoDupsSnoc(depths, d);
        ElemsSnoc(depths, d);
        depths := depths + [d];
        byDepth := byDepth[d := []];
      }
      byDepth := byDepth[d := byDepth[d] + [id]];
    }
    assert targets[..|targets|] == targets;
    depths := SortDescending(depths);
    waves := [];
    for i := 0 to |depths|
      invariant |waves| == i
      invariant forall j | 0 <= j < i :: waves[j] == AtDepth(m, targets, depths[j])
    {
      InElems(depths, i);
      waves := waves + [byDepth[depths[i]]];
    }
    PlanExists(t.View(), targets, waves, depths);
  }

  lemma PlanExists(m: Mesh, targets: seq<AgentId>, waves: seq<seq<AgentId>>, depths: seq<int>)
    requires IsPlan(m, targets, waves, depths)
    ensures exists depths :: IsPlan(m, targets, waves, depths)
  {}

  lemma InElems<T>(s: seq<T>, i: nat)
    requires i < |s|
    ensures s[i] in Elems(s)
  {}

  lemma NoDepths(m: Mesh)
    ensures DepthsOf(m, []) == {}
  {}

  lemma DepthOfIs(m: Mesh, id: AgentId)
    ensures DepthOf(m, id) == if id in m.nodes then m.nodes[id].depth else UNKNOWN_DEPTH
  {}

  lemma AtDepthSnoc(m: Mesh, targets: seq<AgentId>, id: AgentId, d: int)
    ensures AtDepth(m, targets + [id], d) == AtDepth(m, targets, d) + if DepthOf(m, id) == d then [id] else []
    ensures AtDepth(m, [], d) == []
  {}

  lemma {:induction false} NothingAtDepth(m: Mesh, targets: seq<AgentId>, d: int)
    requires d !in DepthsOf(m, targets)
    ensures AtDepth(m, targets, d) == []
  {
    if targets != [] {
      var n := |targets| - 1;
      assert targets == targets[..n] + [targets[n]];
      DepthsOfSnoc(m, targets[..n], targets[n]);
      NothingAtDepth(m, targets[..n], d);
    }
  }

  lemma {:induction false} AtDepthCount(m: Mesh, targets: seq<AgentId>, d: int, x: AgentId)
    ensures multiset(AtDepth(m, targets, d))[x] == if DepthOf(m, x) == d then multiset(targets)[x] else 0
  {
    if targets != [] {
      var init := targets[..|targets| - 1];
      assert targets == init + [targets[|targets| - 1]];
      AtDepthCount(m, init, d, x);
    }
  }

  function Concat(waves: seq<seq<AgentId>>): seq<AgentId> {
    if waves == [] then [] else Concat(waves[..|waves| - 1]) + waves[|waves| - 1]
  }

  lemma {:induction false} ConcatCount(m: Mesh, targets: seq<AgentId>, waves: seq<seq<AgentId>>, depths: seq<int>, x: AgentId)
    requires |waves| == |depths|
    requires forall i, j | 0 <= i < j < |depths| :: depths[i] > depths[j]
    requires forall i | 0 <= i < |waves| :: waves[i] == AtDepth(m, targets, depths[i])
    ensures multiset(Concat(waves))[x] == if DepthOf(m, x) in depths then multiset(targets)[x] else 0
  {
    if waves != [] {
      var n := |waves| - 1;
      ConcatCount(m, targets, waves[..n], depths[..n], x);
      AtDepthCount(m, targets, depths[n], x);
      assert depths == depths[..n] + [depths[n]];
    }
  }

  // The waves together are the targets, no more and no less.
  lemma WavesPermutation(m: Mesh, targets: seq<AgentId>, waves: seq<seq<AgentId>>, depths: seq<int>)
    requires IsPlan(m, targets, waves, depths)
    ensures multiset(Concat(waves)) == multiset(targets)
  {
    forall x ensures multiset(Concat(waves))[x] == multiset(targets)[x] {
      ConcatCount(m, targets, waves, depths, x);
      if x in targets {
        assert DepthOf(m, x) in Elems(depths);
      }
    }
  }

  // Two plans for the same targets are the same plan.
  lemma {:induction false} DescendingUnique(a: seq<int>, b: seq<int>)
    requires forall i, j | 0 <= i < j < |a| :: a[i] > a[j]
    requires forall i, j | 0 <= i < j < |b| :: b[i] > b[j]
    requires Elems(a) == Elems(b)
    ensures a == b
  {
    if a != [] { assert a[0] in Elems(a); }
    if b != [] { assert b[0] in Elems(b); }
    if a != [] && b != [] {
      assert a == [a[0]] + a[1..] && b == [b[0]] + b[1..];
      assert Elems(a[1..]) == Elems(a) - {a[0]};
      assert Elems(b[1..]) == Elems(b) - {b[0]};
      DescendingUnique(a[1..], b[1..]);
    }
  }

  lemma PlanUnique(m: Mesh, targets: seq<AgentId>, waves: seq<seq<AgentId>>, depths: seq<int>, waves': seq<seq<AgentId>>, depths': seq<int>)
    requires IsPlan(m, targets, waves, depths) && IsPlan(m, targets, waves', depths')
    ensures waves == waves'
  {
    DescendingUnique(depths, depths');
  }

  lemma {:induction false} InOwnWave(m: Mesh, targets: seq<AgentId>, d: int, x: AgentId)
    ensures x in AtDepth(m, targets, d) <==> x in targets && DepthOf(m, x) == d
  {
    if targets != [] {
      var init := targets[..|targets| - 1];
      assert targets == init + [targets[|targets| - 1]];
      InOwnWave(m, init, d, x);
    }
  }

  // Within its wave a target keeps its place among the others: the wave picks the
  // targets at these positions, which go up.
  lemma {:induction false} WaveKeepsOrder(m: Mesh, targets: seq<AgentId>, d: int) returns (at: seq<nat>)
    ensures |at| == |AtDepth(m, targets, d)|
    ensures forall j | 0 <= j < |at| :: at[j] < |targets| && AtDepth(m, targets, d)[j] == targets[at[j]]
    ensures forall i, j | 0 <= i < j < |at| :: at[i] < at[j]
  {
    at := [];
    if targets != [] {
      var n := |targets| - 1;
      at := WaveKeepsOrder(m, targets[..n], d);
      if DepthOf(m, targets[n]) == d {
        at := at + [n];
      }
    }
  }

  // Targets the mesh does not know go last, in a wave of their own.
  lemma UnknownGoLast(m: Mesh, targets: seq<AgentId>, waves: seq<seq<AgentId>>, depths: seq<int>, x: AgentId)
    requires IsPlan(m, targets, waves, depths) && x in targets && x !in m.nodes
    ensures waves != [] && x in waves[|waves| - 1]
    ensures forall y <- waves[|waves| - 1] :: y !in m.nodes
  {
    assert DepthOf(m, x) in Elems(depths);
    var i :| 0 <= i < |depths| && depths[i] == DepthOf(m, x);
    var last := |depths| - 1;
    assert depths[last] in Elems(depths);
    var t :| t in targets && DepthOf(m, t) == depths[last];
    assert i == last;
    InOwnWave(m, targets, depths[last], x);
    forall y <- waves[last] ensures y !in m.nodes { InOwnWave(m, targets, depths[last], y); }
  }

  // x is strictly beneath r.
  ghost predicate StrictlyBeneath(m: Mesh, x: AgentId, r: AgentId) {
    x in m.nodes && r in m.nodes && exists k: nat :: k > 0 && Up(m, x, k) == r
  }

  // With depths in order, a relay's wave comes after the waves of everything
  // targeted beneath it.
  lemma BottomUpOrder(m: Mesh, targets: seq<AgentId>, waves: seq<seq<AgentId>>, depths: seq<int>, i: nat, r: AgentId, x: AgentId)
    requires NoAgent !in m.nodes && DepthsGrow(m) && IsPlan(m, targets, waves, depths)
    requires i < |waves| && r in waves[i]
    requires x in targets && StrictlyBeneath(m, x, r)
    ensures exists j :: 0 <= j < i && x in waves[j]
  {
    var k: nat :| k > 0 && Up(m, x, k) == r;
    AncestorsShallower(m, x, k);
    InOwnWave(m, targets, depths[i], r);
    assert DepthOf(m, x) in Elems(depths);
    var j :| 0 <= j < |depths| && depths[j] == DepthOf(m, x);
    InOwnWave(m, targets, depths[j], x);
  }

  // If r is dispatched in wave i of this plan, x beneath it came earlier.
  ghost predicate BottomUpAt(m: Mesh, targets: seq<AgentId>, waves: seq<seq<AgentId>>, depths: seq<int>, i: nat, r: AgentId, x: AgentId) {
    IsPlan(m, targets, waves, depths) && i < |waves| && r in waves[i] && x in targets && StrictlyBeneath(m, x, r) ==>
      exists j :: 0 <= j < i && x in waves[j]
  }

  // Every plan for every list of targets is bottom-up.
  ghost predicate AlwaysBottomUp(m: Mesh) {
    forall targets, waves, depths, i: nat, r, x :: BottomUpAt(m, targets, waves, depths, i, r, x)
  }

  // The wave order can be trusted exactly as far as stored depths can.
  lemma AlwaysBottomUpIff(m: Mesh)
    requires Linked(m)
    ensures AlwaysBottomUp(m) <==> DepthsGrow(m)
  {
    hide Linked;
    if DepthsGrow(m) {
      NoEmptyKey(m);
      forall targets, waves, depths, i: nat, r, x ensures BottomUpAt(m, targets, waves, depths, i, r, x) {
        if IsPlan(m, targets, waves, depths) && i < |waves| && r in waves[i] && x in targets && StrictlyBeneath(m, x, r) {
          BottomUpOrder(m, targets, waves, depths, i, r, x);
        }
      }
    }
    if AlwaysBottomUp(m) {
      forall c <- m.nodes | m.nodes[c].parent in m.nodes ensures m.nodes[m.nodes[c].parent].depth < m.nodes[c].depth {
        NoEmptyKey(m);
        var p := m.nodes[c].parent;
        assert Up(m, c, 1) == Up(m, p, 0);
        assert StrictlyBeneath(m, c, p);
        if m.nodes[p].depth >= m.nodes[c].depth {
          ParentFirst(m, p, c);
        }
      }
    }
  }

  lemma NoEmptyKey(m: Mesh)
    requires Linked(m)
    ensures NoAgent !in m.nodes
  {}

  // A child no deeper than its parent shares the parent's wave or follows it.
  lemma ParentFirst(m: Mesh, p: AgentId, c: AgentId)
    requires p in m.nodes && c in m.nodes && m.nodes[p].depth >= m.nodes[c].depth
    requires StrictlyBeneath(m, c, p)
    ensures !AlwaysBottomUp(m)
  {
    hide IsPlan, StrictlyBeneath;
    var waves, depths := PairPlan(m, p, c);
    assert !BottomUpAt(m, [p, c], waves, depths, 0, p, c);
  }

  lemma PairPlan(m: Mesh, p: AgentId, c: AgentId) returns (waves: seq<seq<AgentId>>, depths: seq<int>)
    requires p in m.nodes && c in m.nodes && m.nodes[p].depth >= m.nodes[c].depth
    ensures IsPlan(m, [p, c], waves, depths) && waves != [] && p in waves[0]
  {
    hide AtDepth, DepthsOf, DepthOf;
    DepthOfIs(m, p);
    DepthOfIs(m, c);
    var dp, dc := DepthOf(m, p), DepthOf(m, c);
    forall d ensures AtDepth(m, [p, c], d) == (if dp == d then [p] else []) + (if dc == d then [c] else []) {
      AtDepthSnoc(m, [], p, d);
      AtDepthSnoc(m, [p], c, d);
      assert [] + [p] == [p] && [p] + [c] == [p, c];
    }
    NoDepths(m);
    DepthsOfSnoc(m, [], p);
    DepthsOfSnoc(m, [p], c);
    assert [] + [p] == [p] && [p] + [c] == [p, c];
    if dp == dc {
      waves, depths := [[p, c]], [dp];
    } else {
      waves, depths := [[p], [c]], [dp, dc];
    }
    assert Elems(depths) == {dp, dc};
  }

  // So every reported move that does not keep its agent above its children
  // makes some later bottom-up run unsafe, and no other move does.
  lemma MoveKeepsBottomUpIff(m: Mesh, id: AgentId, parentID: AgentId)
    requires Linked(m) && AlwaysBottomUp(m) && MayAttachObserved(m, id, parentID)
    ensures AlwaysBottomUp(AttachObserved(m, id, parentID)) <==> KeepsBelow(m, id, parentID)
  {
    AlwaysBottomUpIff(m);
    PlaceDepthsGrowIff(m, id, parentID);
    ApplyLinked(m, ObserveStep(id, parentID));
    AlwaysBottomUpIff(AttachObserved(m, id, parentID));
  }

  // Such a move is ordinary: z leads r and y, s hangs under r, all at their
  // exact depths, and r fails over to y.
  lemma FailoverBreaksBottomUp()
    ensures AlwaysBottomUp(BeforeFailover()) && IsForest(BeforeFailover())
    ensures MayAttachObserved(BeforeFailover(), Agent("r"), Agent("y"))
    ensures !AlwaysBottomUp(AttachObserved(BeforeFailover(), Agent("r"), Agent("y")))
  {
    var m := BeforeFailover();
    var r, s, y := Agent("r"), Agent("s"), Agent("y");
    FailoverIsOrdinary();
    assert s in m.nodes[r].children && !KeepsBelow(m, r, y);
    hide BeforeFailover, Linked, Acyclic, DepthsGrow, AlwaysBottomUp, AttachObserved, KeepsBelow;
    DepthsGrowAcyclic(m);
    AlwaysBottomUpIff(m);
    MoveKeepsBottomUpIff(m, r, y);
  }

  lemma FailoverIsOrdinary()
    ensures Linked(BeforeFailover()) && DepthsGrow(BeforeFailover())
    ensures MayAttachObserved(BeforeFailover(), Agent("r"), Agent("y"))
  {
    var m := BeforeFailover();
    var z, r, y := Agent("z"), Agent("r"), Agent("y");
    assert Up(m, z, 1) == NoAgent && Up(m, y, 2) == Up(m, z, 1);
    forall k: nat ensures Up(m, y, k) != r {
      if k >= 2 {
        UpCompose(m, y, 2, k - 2);
        UpEnds(m, k - 2);
      }
    }
  }

  function BeforeFailover(): Mesh {
    var z, r, s, y := Agent("z"), Agent("r"), Agent("s"), Agent("y");
    Mesh(map[
      z := Node(ZoneLeader, NoAgent, {r, y}, 0, true, "z"),
      r := Node(Relay, z, {s}, 1, true, "r"),
      s := Node(Relay, r, {}, 2, true, "s"),
      y := Node(Relay, z, {}, 1, true, "y")], {z})
  }
}
