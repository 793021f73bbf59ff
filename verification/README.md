# DirQ in Dafny

DirQ keeps a fleet of agents in a relay forest held in memory by a server and
sends broadcasts and single-target commands through it. This project models
the parts of DirQ whose correctness is decided by its code and proves what
those parts keep, over every input, every run or every reachable state.

`dafny verify dfyconfig.toml` checks the whole project.

## What is modelled

| modules | what they cover |
|---|---|
| `Agents`, `Forest`, `MeshWalks`, `MeshTopology` | the mesh: the class the server keeps, tied method by method to functions on a value, and the theorems about runs of its operations |
| `PeerEvents`, `Rebalancer` | what attachment and loss reports, closed streams, parent requests and vacant leader slots do to the mesh |
| `Rehydration`, `Snapshots` | saving the mesh and rebuilding it after a restart |
| `Accounting`, `Broadcast`, `Sessions` | the broadcast protocol: claims, the bounded result channel, the dispatcher, and every interleaving of them |
| `Waves`, `BottomUp` | bottom-up dispatch, one wave per stored depth |
| `Routing`, `Flooding`, `Delivery` | what agents do with a message, against the path the server computed, and who in the mesh ends up acting on it |
| `Like`, `Expressions`, `Filtering`, `Pushdown`, `Conditions` | the LIKE matcher, the server's prefilter, filtering on the agent, and what pushing conditions down and reading them back preserves |
| `Parser`, `WhereParser`, `Strings` | the WHERE grammar, the parser as functions that read exactly it, the parser object that refines them, and the string scanner |
| `RpmVersion`, `ByteOrder` | RPM version order and the highest-fix loop |
| `RateLimiter` | the token bucket |
| `FactStage` | fact staging, flushing and chunked writes |
| `RegistrationBatcher`, `BatchWindows`, `LeaderSelection`, `BatchAssignment`, `ReRegistration` | batching of registrations, what closes a registration window, diverse leader selection, role assignment for a batch, and what it does to agents already placed |

Classes model the objects the source updates in place; their methods are
proved against functions on values, and the theorems are about those
functions. Concurrency is modelled by state machines whose steps are the
stretches the source runs under one lock or as one channel operation.
Iteration over a Go map is a loop that takes an arbitrary remaining key.

## Where the code and its own description differ

The model follows the code. Each of these is a proved statement.

- The comment on the waves says a child's depth is always its parent's plus
  one. A move rewrites only the mover's depth, so it is not. Waves are
  bottom-up for every target list exactly when stored depths grow along parent
  links (`Waves.AlwaysBottomUpIff`), a reported move keeps that exactly when
  the mover stays above its own children (`Waves.MoveKeepsBottomUpIff`), and
  an ordinary failover to a sibling does not (`Waves.FailoverBreaksBottomUp`).
- The snapshot's comment says the in-memory topology refuses to record a
  cycle. `AssignChild` does not look for one, and a registration is offered the
  best parent without a look at the agent's own subtree, itself included. A
  sole leader that registers again becomes its own parent and the mesh is left
  without a leader (`ReRegistration.SoleLeaderBecomesItsOwnParent`); a full one
  is given its own child (`ReRegistration.ReRegistrationCycle`).
  `ReRegistration.ReRegistrationForestIff` says before the call when that
  happens, `PeerEvents.RequestKeepsForestIff` the same for `RequestPeers`.
- `RequestPeers` says it promotes when no parent has room. It also promotes
  when the best parent that came up is the asker, although others may have
  room: possible exactly when nothing is preferred to the asker
  (`PeerEvents.RequestPeers`, `MeshWalks.UnbeatenIff`), and certain in
  `PeerEvents.AskerBeatsTheOnlyParent`. It also names the parent it found when
  another call has filled it before the record
  (`PeerEvents.LastPlaceOfferedTwice`).
- Diversity compares the source IP of a registration with the host part of the
  leaders' listen addresses. Registration puts brackets round an IPv6 source in
  the listen address, so an IPv6 leader never counts as occupying its own IP
  (`BatchAssignment.OwnIPRecognisedIff`).
- `IsWithinSubtree` is described as answering no on a cycle. It answers yes on
  a cyclic chain too when the ancestor is met before the chain repeats
  (`MeshTopology.MeshTopology.IsWithinSubtree` states exactly when).
- `closeAgentStream` takes the lost subtree offline before it starts
  `reassignOrphans`, which looks at online children only. Unless a child comes
  back in between, nobody is hinted or promoted
  (`Rebalancer.CloseThenReassign`).
- A broadcast can report completion while a claimed result has not been sent
  yet; it is then never shown (`Broadcast.CompletionGap` says which,
  `Broadcast.ResultOvertaken` gives a run).
- `ToFilterProtos` returns nothing for a condition it cannot push and says the
  server filters instead. No one does: such a query is answered by every
  dispatched agent (`Pushdown.UnpushedIgnoresData`,
  `Pushdown.OrIsNotFiltered`). `Pushdown.UnpushedExactIff` says for every such
  query exactly when that happens to be right.
- A pushed condition is sent as text, and an agent takes any text that reads as
  a number for one. So a quoted text is compared as a text, and a LIKE pattern
  matched at all, exactly when it does not read as a number
  (`Conditions.TextExactIff`, `Conditions.LikeExactIff`): a query for version
  '1.10' is answered for 1.1 (`Conditions.VersionTakenForNumber`). An IN list is
  cut at every comma, so it arrives as sent exactly when it has a value and none
  contains a comma (`Conditions.ListArrivesIff`, `Conditions.InExactIff`).
- The prefilter takes data conditions as true, so below a NOT it can drop an
  agent the query selects (`Expressions.NegatedDataIsDropped`). It keeps every
  selected agent exactly when it accepts the record or the query cannot come out
  true on it (`Expressions.PrefilterKeepsIff` for queries that repeat no data
  condition, `Expressions.PrefilterKeepsByCases` for all); with data conditions
  under even NOTs that is always so (`Expressions.PrefilterSound`).
- The LIKE matcher tests for a literal match before it tests for the wildcard,
  so a percent sign in the subject eats a wildcard. It agrees with LIKE
  (section 8.5 of ISO/IEC 9075-2, no ESCAPE) on all patterns exactly for
  subjects without a percent sign (`Like.AgreesIff`).
- The snapshot leaves the role column of an agent without a role as it was.
  When the table could not be read at startup, a former leader that registers
  into the empty mesh keeps "zone_leader" in its row until it is answered, and
  a restart before the next snapshot makes it a leader nobody promoted
  (`Snapshots.StaleRoleReturns`); saving and rebuilding restore the mesh exactly
  when no such role waits and every parent is beneath a leader
  (`Snapshots.RestoreIff`).
- Rebuilding ends exactly when no leader sits on a parent cycle
  (`Rehydration.WiringEndsIff`). No table saved from a consistent mesh is like
  that (`Snapshots.SavedLeadersParentless`).
- A window of registrations is meant to be closed by the cap or by its own
  timer. That holds in every run without a cap flush whose timer has already
  expired and cannot be stopped any more; after one, as long as that timer has
  not fired, it can fail within three steps (`BatchWindows.StrayExactlyByFailedStop`,
  `BatchWindows.RunKeepsWindowsIff`, `BatchWindows.SafeForeverIff`); the failing
  run exists at every cap from two up (`BatchWindows.StaleTimerClosesNextWindow`).
  Nothing is lost by it.
- The subtree walks follow child sets, and rebuilding fills those in only
  beneath leaders. On a rebuilt mesh an agent beneath no leader, such as one that
  was its own parent, takes nobody offline but itself when it is lost
  (`Snapshots.RebuiltChildTree`; `Snapshots.RebuiltLinkedIff` says which tables
  have such agents). What the handlers do is stated with child sets; on a linked
  mesh they lead to the whole subtree (`Forest.LinkedAgrees`).

## Model

| member | source | states |
|---|---|---|
| `MeshTopology.MeshTopology.constructor` | internal/server/meshtopology.go:74-81 | a new topology is the empty mesh |
| `MeshTopology.MeshTopology.AddAgent` | internal/server/meshtopology.go:230-257 | a known id is refreshed and put online with its place kept; a new one enters unassigned, parentless and childless |
| `MeshTopology.MeshTopology.AssignZoneLeader` | internal/server/meshtopology.go:260-272 | a known agent leaves its parent's child set, becomes a leader at depth 0 and joins the leader set; an unknown id changes nothing |
| `MeshTopology.MeshTopology.AssignChild` | internal/server/meshtopology.go:276-297 | succeeds exactly when both ends are known, the parent is online and below the capacity in force (the probation cap when it is flaky); then the node is relinked and everyone else keeps their place |
| `MeshTopology.MeshTopology.AttachObserved` | internal/server/meshtopology.go:315-349 | where the chain above the parent runs out or meets the child, which is exactly where the unguarded walk ends, the call says yes exactly when both ids are known, differ and the parent is not at or beneath the child, and only then relinks |
| `MeshTopology.MeshTopology.ClearParent` | internal/server/meshtopology.go:419-431 | the agent is unassigned, parentless and in no child set or leader set |
| `MeshTopology.MeshTopology.MarkOnline` | internal/server/meshtopology.go:444-450 | one online flag is set and nothing else changes |
| `MeshTopology.MeshTopology.MarkOffline` | internal/server/meshtopology.go:435-441 | one online flag is cleared and nothing else changes |
| `MeshTopology.MeshTopology.Remove` | internal/server/meshtopology.go:454-471 | the agent is gone from every set, its children are unassigned and parentless, nobody else moves |
| `MeshTopology.MeshTopology.IsWithinSubtree` | internal/server/meshtopology.go:631-656 | on any state, cycles included, the bounded walk answers whether some number of parent links leads from id to the ancestor |
| `MeshTopology.MeshTopology.FindZoneLeader` | internal/server/meshtopology.go:737-755 | names the first leader met walking up, and nobody exactly when no walk length meets one |
| `MeshTopology.MeshTopology.PathFromZoneLeader` | internal/server/meshtopology.go:689-715 | on any state a path exists exactly when a leader is met walking up, and is then the chain from that leader down to the target |
| `MeshTopology.Reverse` | internal/server/meshtopology.go:703-713 | the in-place swap loop reverses the climbed path |
| `MeshTopology.MeshTopology.SubtreeIDs` | internal/server/meshtopology.go:868-894 | on every mesh the server can hold the breadth-first walk lists, without repeats, exactly the agents that child sets lead to from the root; on a linked mesh they are those whose upward walk reaches it |
| `MeshTopology.MeshTopology.MarkSubtreeOffline` | internal/server/meshtopology.go:900-929 | clears the online flag of exactly the agents child sets lead to from the root and reports, without repeats, exactly those of them that were online |
| `MeshTopology.MeshTopology.FindShallowestParentWithRoom` | internal/server/meshtopology.go:493-539 | finds a parent exactly when some online, placed, addressed node has room, and then one to which nothing is strictly preferred (stable, then shallow, then less loaded) whatever the map order |
| `MeshTopology.MeshTopology.Snapshot` | internal/server/meshtopology.go:673-682 | one row per known agent with its current place, each once |
| `Rehydration.SnapshotShows` | internal/server/meshtopology.go:673-682 | every known agent has a row showing its address, role, parent, depth and online flag |
| `MeshTopology.MeshTopology.WireFromLeaders` | internal/server/meshtopology.go:985-1006 | the wiring queue empties on every loaded table with no leader on a parent cycle, and leaves true child sets beneath leaders and as depth the hops up to the topmost leader of the chain |
| `MeshTopology.MeshTopology.Rehydrate` | internal/server/meshtopology.go:962-1006 | rebuilding from rows ends and yields that wiring whenever no leader sits on a parent cycle; cycles among the others are allowed |
| `MeshWalks.ClosedIsChildTree` | internal/server/meshtopology.go:868-894 | a set that holds the root, only holds agents whose listed links lead up to the root, and is closed under child sets is everyone child sets lead to: downward and upward views agree |
| `MeshWalks.UnbeatenIff` | internal/server/meshtopology.go:493-539 | the parents to which nothing is strictly preferred are exactly those the search comes out with for some order of the nodes |
| `MeshWalks.UnbeatenMeans` | internal/server/meshtopology.go:493-539 | in node fields: the parent found has room; if any node with room is steady it is; no node with room of its kind is shallower, and none as deep has fewer children |
| `MeshWalks.CapacityLeavesRoom` | internal/server/meshtopology.go:176-183 | a node has room below the child limit, and on probation below the probation limit too |
| `Forest.LinkedAgrees` | internal/server/meshtopology.go:868-894 | on a linked mesh child sets lead to the whole subtree |
| `Forest.AddWrites` | internal/server/meshtopology.go:230-257 | a known agent comes online under the address it gives and keeps everything else; nobody else is touched |
| `Forest.UnparentWrites` | internal/server/meshtopology.go:260-431 | becoming a leader or losing the parent resets the agent's own depth and leaves online flags, addresses and other depths alone |
| `Forest.RemoveWrites` | internal/server/meshtopology.go:454-471 | removal leaves online flags and addresses of the others alone and resets the depth of exactly the children left behind |
| `Forest.OnlineWrites` | internal/server/meshtopology.go:435-450 | marking writes the online flag of the agents named and nothing else |
| `MeshWalks.RouteShape` | internal/server/meshtopology.go:689-715 | read forwards a path starts at a leader, follows parent links, never repeats an agent and ends at its target |
| `Forest.PlaceAcyclicIff` | internal/server/meshtopology.go:276-297 | linking a node under a parent keeps a forest a forest exactly when the parent is not in the node's subtree |
| `Forest.ApplyLinked` | internal/server/meshtopology.go:230-471 | every operation, guarded or not, keeps child sets the inverse of parent pointers, parents known, the leader set equal to the nodes with that role, and relays exactly the nodes with a parent |
| `Forest.ApplyForestIff` | internal/server/meshtopology.go:230-471 | of all operations only AssignChild can break the forest, and it does so exactly when it succeeds with a parent beneath the child |
| `Forest.EveryRunLinked` | internal/server/meshtopology.go:230-471 | link consistency holds after every sequence of operations |
| `Forest.ApplyCoherent` | internal/server/meshtopology.go:230-471 | on a mesh rebuilt from any table too, no operation leaves a child set holding an agent that names another parent |
| `Forest.EveryRunCoherent` | internal/server/meshtopology.go:230-471 | nor does any sequence of operations |
| `Forest.GuardedRunForest` | internal/server/meshtopology.go:230-471 | a run whose assignments never pick a parent beneath the child is a forest at every moment |
| `Forest.EmptyMeshIsForest` | internal/server/meshtopology.go:74-81 | runs start from a forest whose depths grow |
| `Forest.PlaceDepthsGrowIff` | internal/server/meshtopology.go:290-296 | a move keeps stored depth strictly growing along parent links exactly when the mover's new depth stays below each child's |
| `Forest.ApplyDepthsGrowIff` | internal/server/meshtopology.go:230-471 | growing depths survive every operation except a successful move that lifts a node's depth to one of its children's or beyond |
| `Forest.DepthSafeRunDepthsGrow` | internal/server/meshtopology.go:230-471 | over whole runs without such a move depths grow at every moment, and the mesh is then a forest |
| `Forest.AncestorsShallower` | internal/server/meshtopology.go:342-347 | where depths grow every ancestor is stored strictly shallower, at any distance |
| `Forest.DepthsGrowAcyclic` | internal/server/meshtopology.go:342-347 | consistent links with growing depths leave no parent cycle |
| `Forest.AssignChildMakesCycle` | internal/server/meshtopology.go:276-297 | AssignChild accepts a parent beneath the child: two calls leave a two-agent parent cycle that no upward walk leaves |
| `PeerEvents.OriginAllows` | internal/server/origin.go:84-105 | a sender may speak for itself and its subtree; outside enforcing mode anything passes |
| `PeerEvents.OriginSpeaksDownwards` | internal/server/origin.go:84-105 | on a forest, when enforced, an agent speaks for exactly its subtree and no agent beneath it speaks for it; without a known origin nothing passes |
| `PeerEvents.HandlePeerConnected` | internal/server/grpc.go:455-507 | an allowed report moves the agent under the reported parent if that makes no cycle and puts exactly the agents child sets then lead to from it online, on a linked mesh its subtree; a refused or empty one changes nothing; a forest stays a forest, and on other meshes only the chain above the parent has to end |
| `PeerEvents.ForestReportsEnd` | internal/server/meshtopology.go:325-341 | on a forest the walk an attachment report triggers always ends |
| `PeerEvents.HandlePeerDisconnected` | internal/server/grpc.go:511-547 | an allowed report takes exactly the agents child sets lead to offline, on a linked mesh the lost subtree, and notifies those of it that were online, or the lost id alone if none was |
| `PeerEvents.LossMeans` | internal/server/meshtopology.go:900-929 | on a linked mesh, in node fields: exactly the online agents whose walk upwards meets the lost one go offline, and they are notified, or the lost one alone when there are none |
| `PeerEvents.CloseAgentStream` | internal/server/grpc.go:395-448 | a closed stream takes the same agents offline, unless the agent had been told to move |
| `PeerEvents.RequestPeers` | internal/server/grpc.go:550-641 | the asker joins a parent to which nothing is preferred, or becomes a leader when nobody has room or when the unbeaten parent that came up is the asker itself, even if others have room; with no other call between search and record, the mesh records exactly that, and on every mesh |
| `PeerEvents.AnswerRequest` | internal/server/grpc.go:572-607 | the half after the search, on whatever mesh it then finds: the parent is named in any case and recorded exactly if it still takes the child; promotion without a parent or when it is the asker |
| `PeerEvents.AnswersMean` | internal/server/grpc.go:550-641 | in node fields: nobody is sent to a parent without room or to itself, a registration makes a known agent a leader only where nobody has room, and a parent request does otherwise only if the asker itself has room |
| `PeerEvents.LastPlaceOfferedTwice` | internal/server/grpc.go:572-607 | two agents offered the same last place before either is recorded are both told it, and only the first recorded is in the mesh |
| `PeerEvents.AskerBeatsTheOnlyParent` | internal/server/grpc.go:572-585 | a relay whose leader is lost is promoted for certain while the only other leader is on probation, although that leader has room |
| `PeerEvents.RequestKeepsForestIff` | internal/server/grpc.go:572-607 | whatever the map order the answer keeps a forest exactly when, before the call, no unbeaten parent other than the asker is in the asker's subtree |
| `PeerEvents.ApplyRelayAssignment` | internal/server/registration_batcher.go:266-294 | a known agent joins a parent to which nothing is preferred, itself not excluded, and becomes a leader only when nobody has room; with no other call between search and record, the mesh records exactly that, and on every mesh |
| `PeerEvents.AnswerRelay` | internal/server/registration_batcher.go:266-294 | the half after the search, on whatever mesh it then finds: the child is placed exactly if the parent still takes it, and promoted otherwise |
| `PeerEvents.RelayKeepsForestIff` | internal/server/registration_batcher.go:266-294 | whatever the map order the answer keeps a forest exactly when, before the call, no unbeaten parent is in the agent's subtree, where the agent itself is |
| `PeerEvents.AnsweredForestIff` | internal/server/meshtopology.go:276-297 | one answer keeps a forest exactly when it does not offer a known agent a parent beneath it |
| `PeerEvents.ReparentKeepsSubtree` | internal/server/meshtopology.go:342-347 | giving an agent another parent, or none, leaves the set of agents beneath it unchanged |
| `PeerEvents.LossThenReattach` | internal/server/grpc.go:455-547 | a loss report followed by the reattachment puts exactly the lost subtree back online beneath the new parent and changes nobody else |
| `Snapshots.SnapshotTopologyOnce` | internal/server/server.go:209-225 | parents are always written, roles only when not empty |
| `Snapshots.SavedWrites` | internal/server/server.go:209-225 | each row of a known agent takes its parent and, if it has one, its role; no other row or column changes |
| `Snapshots.RoleReadsBack` | internal/server/server.go:209-239 | every role is read back as written, and no other text is read as a placed role |
| `Snapshots.LoadIsTable` | internal/server/meshtopology.go:962-984 | loading rows with distinct ids reproduces the table: one unwired node per row, leaders exactly the leader rows |
| `Snapshots.LoadedSaved` | internal/server/server.go:209-239 | what is loaded after a save has every parent, and every role except that an unassigned agent shows the role the row still had |
| `Snapshots.SavedLeadersParentless` | internal/server/server.go:209-239 | every table saved from a consistent mesh has parentless leaders, so rebuilding from it always ends |
| `Snapshots.RestoreIff` | internal/server/server.go:209-239 | save then rebuild restores all roles, parents, child sets and leaders of a forest exactly when no unassigned agent's row names a placed role and every parent is beneath a leader |
| `Snapshots.RewiredCoherent` | internal/server/meshtopology.go:985-1006 | a mesh rebuilt from any table has no child set holding an agent that names another parent |
| `Snapshots.RebuiltLinkedIff` | internal/server/meshtopology.go:962-1006 | a rebuilt mesh is linked exactly when in its rows relays are those with a parent and every parent named sits at or beneath a leader |
| `Snapshots.RebuiltChildTree` | internal/server/meshtopology.go:868-1006 | on a rebuilt mesh child sets lead from an agent to its whole subtree when a leader sits at or above it, and to nobody else when none does |
| `Snapshots.StaleRoleReturns` | internal/server/server.go:209-239 | an agent that led before and registers into a mesh left empty by a failed startup read keeps its old role in the table, and a restart makes it a leader nobody promoted |
| `Rehydration.ParentlessOffCycle` | internal/server/meshtopology.go:985-1006 | parentless leaders are never on a parent cycle |
| `Rehydration.GenerationBound` | internal/server/meshtopology.go:985-1006 | an agent found beneath a leader is fewer hops down than there are agents |
| `Rehydration.RewiredHops` | internal/server/meshtopology.go:985-1006 | with parentless leaders the wired depth is the number of hops to the one leader above |
| `Rehydration.WiringTurn` | internal/server/meshtopology.go:985-1006 | one turn of the wiring queue expands its entry and keeps children and depths right for what has been expanded |
| `Rehydration.LevelProgress` | internal/server/meshtopology.go:985-1006 | off cycles each turn finishes a generation or leaves less of the current one, so every run ends |
| `Rehydration.NeverExhausted` | internal/server/meshtopology.go:985-1006 | from the queued leaders, with one of them on a parent cycle, no run of turns of any length empties the queue |
| `Rehydration.WiringEndsIff` | internal/server/meshtopology.go:985-1006 | some run from the queued leaders empties the queue exactly when no leader is on a parent cycle |
| `Rebalancer.ChildrenOf` | internal/server/meshtopology.go:932-950 | lists exactly the online children, each once |
| `Rebalancer.ReassignOrphans` | internal/server/rebalancer.go:66-150 | each online child is told exactly one thing, what RequestPeers might tell it on the mesh of its turn; only promotions change the mesh, links stay as consistent as they were and a forest stays one, hinted streams are marked and messages queued where there is room |
| `Rebalancer.SentOnce` | internal/server/rebalancer.go:93-147 | each stream sees at most the one message of its child, and no other stream changes |
| `Rebalancer.LossLeavesNoOnlineChild` | internal/server/grpc.go:419-441 | after the subtree of a lost agent went offline it has no online child |
| `Rebalancer.CloseThenReassign` | internal/server/grpc.go:395-448 | run back to back, the stream-close handler and the reassignment it starts tell nobody anything: mesh and streams are as the handler left them |
| `Rebalancer.FindPromotionCandidate` | internal/server/meshtopology.go:375-408 | finds a candidate exactly when an online, stable non-leader exists, and returns the unique winner by children, then new failure domain, then smallest id |
| `Rebalancer.OutranksOrder` | internal/server/meshtopology.go:389-405 | the ranking of candidates is a strict total order, so map order cannot matter |
| `Rebalancer.BestMeans` | internal/server/meshtopology.go:375-408 | in node fields: the winner is an online, stable non-leader, and any other has fewer children, or as many but no new failure domain where the winner has one, or the same and a larger id |
| `Rebalancer.FillVacantZoneLeaderSlot` | internal/server/rebalancer.go:169-222 | on every mesh, promotes at most one agent and only below the maximum; the online leaders gain exactly it, its subtree is unchanged and nobody else is reparented; their number grows by one where leaders all have the role, and a forest stays one |
| `Routing.NextHop` | internal/agent/agent.go:1328-1344 | the hop after the first occurrence of self, stay if self is last, off route if absent |
| `Routing.HopUnique` | internal/agent/agent.go:1328-1344 | that description determines the answer |
| `Routing.RelayAgent.RelayToDownstreams` | internal/agent/agent.go:1269-1301 | buffers the message once more for exactly the peers the route or the fallbacks select, dropping it only where a buffer is full, and touches no other buffer |
| `Routing.RelayAgent.FloodDownstreams` | internal/agent/agent.go:1347-1355 | buffers the message once for every connected peer with room |
| `Routing.RelayAgent.HandleServerMessage` | internal/agent/agent.go:976-1076 | an agent acts on exactly what is for it; in terms of buffers alone, a deploy, multi-target exec, query or rotation stands once more in the buffer of every connected peer with room, a peer update likewise unless it is for the agent or for nobody, a command for the agent in no buffer, one for another agent in the next hop's buffer or, without a usable route, in all of them |
| `Routing.RouteContainment` | internal/agent/agent.go:1269-1344 | on any peer graph, whoever a routed message reaches is on the route or a direct downstream of an agent on it |
| `Routing.RouteFollowed` | internal/agent/agent.go:1269-1344 | where each stop is connected to the next on the route, every journey visits a prefix of the route in order and only its end executes |
| `Routing.RouteContinues` | internal/agent/agent.go:1033-1046 | an on-route agent connected to the next hop sends to it and to nobody else |
| `Routing.RouteExec` | internal/server/exec.go:121-268 | direct if the target has a stream, through the leader with the full path if the leader found walking up has one, else to every stream without a path |
| `Routing.RoutedDelivery` | internal/server/exec.go:121-268 | the path computed by the server and the hops taken by the agents agree: over parent links the message visits exactly the path and executes only at the target |
| `Flooding.LeaderSubtreesDisjoint` | internal/server/exec.go:1030-1050 | two leaders share no agent beneath them |
| `Flooding.RunAtMostOnce` | internal/agent/agent.go:1347-1355 | no arrival order ever gives an agent a second copy |
| `Flooding.OnlyReached` | internal/agent/agent.go:1347-1355 | copies reach only agents that open links lead to from a connected leader |
| `Flooding.FloodDelivery` | internal/agent/agent.go:1269-1301 | with any set of agents keeping the message to themselves: at most one copy each, and exactly one for those reached past no keeper once all copies have arrived and none was dropped |
| `Flooding.BroadcastDelivery` | internal/agent/agent.go:1034-1039 | in every run each agent receives at most one copy, and exactly one beneath a connected leader once all copies have arrived and no buffer was full |
| `Delivery.WhoActs` | internal/agent/agent.go:976-1076 | in every run in which agents handle a message without a route as the handler does and nothing is dropped, exactly these act on it: of a deploy or multi-target exec the targets beneath a connected leader, of a query without targets or a rotation everyone beneath one, of a command its target beneath one, of a peer update its target or, without one, those leaders |
| `Accounting.SessionAccounting.constructor` | internal/server/dispatch_accounting.go:53-62 | total minus accounted equals the pending count from the start exactly when the targets are distinct |
| `Accounting.SessionAccounting.ClaimAgent` | internal/server/dispatch_accounting.go:72-86 | true exactly for a pending agent; it leaves the pending set for good, the count moves with it, and the gap between the two never changes |
| `Accounting.SessionAccounting.RecordArrival` | internal/server/dispatch_accounting.go:79-84 | the ring, allocated by the first claim, keeps exactly the most recent claim times, in order, at any number of claims |
| `Accounting.SessionAccounting.ArrivalsSince` | internal/server/dispatch_accounting.go:93-108 | counts exactly those of the last 4096 claims that fell inside the window |
| `Accounting.CountAfterMeans` | internal/server/dispatch_accounting.go:93-108 | the count is the number of times later than the cutoff |
| `Accounting.RingStep` | internal/server/dispatch_accounting.go:75-85 | writing at the index modulo the size turns a ring of the recent times into the ring of the recent times after one more |
| `Broadcast.SendHasRoom` | internal/server/exec.go:715-722 | a claimed result always finds room in a channel sized for the targets: the drop branch is unreachable |
| `Broadcast.StepInv` | internal/server/exec.go:702-729 | every interleaving step keeps targets partitioned into pending, in flight, queued and emitted, each agent in one place once |
| `Broadcast.BroadcastSafety` | internal/server/exec.go:956-998 | after any run nothing was dropped, total minus accounted is the pending count, claimed results are exactly those in flight, queued or emitted, and no agent is emitted twice |
| `Broadcast.ClaimedForGood` | internal/server/dispatch_notifier.go:99-119 | once an agent is claimed no later event for it, real or synthetic, has any effect |
| `Broadcast.FirstEventWins` | internal/server/dispatch_notifier.go:99-119 | in every run whatever is held for an agent, claimed, queued or emitted, is the first event that came for it |
| `Broadcast.OutcomeMeans` | internal/server/exec.go:1061-1127 | a session ends as timed out only by the hard timeout, as cancelled only by the caller, as complete only by a drain with nothing pending or queued |
| `Broadcast.WaitingHasWork` | internal/server/exec.go:1089-1110 | a dispatcher waiting in select always has something pending, in flight or queued |
| `Broadcast.CompletionGap` | internal/server/exec.go:1112-1126 | at the drain that reports completion the agents without an emitted result are exactly those between claim and send |
| `Broadcast.CompleteMeansAccounted` | internal/server/exec.go:1089-1126 | "complete" is reported only with nothing pending |
| `Broadcast.ResultOvertaken` | internal/server/exec.go:1112-1126 | a run exists in which a claimed result is sent after completion was reported and is never emitted |
| `Broadcast.StepUsesBudget` | internal/server/exec.go:1061-1127 | every step with an effect uses up a bounded budget |
| `Broadcast.BroadcastLength` | internal/server/exec.go:1061-1127 | a broadcast makes at most four effective steps per target and three more |
| `Broadcast.CompletionNeedsNoTimeout` | internal/server/exec.go:1089-1126 | with everyone accounted an effective step that is neither timeout nor cancellation is enabled until the session finishes |
| `Broadcast.CanComplete` | internal/server/exec.go:1061-1127 | from any check with nothing under way some run completes the broadcast |
| `Sessions.BroadcastSession.constructor` | internal/server/exec.go:956-975 | the channel is sized for the targets and all of them are pending |
| `Sessions.BroadcastSession.HandleResponse` | internal/server/exec.go:702-729 | a response the sender may not speak for leaves the claim untouched; an allowed one takes the slot and always finds room for its result |
| `Sessions.BroadcastSession.MarkAllGone` | internal/server/dispatch_notifier.go:32-119 | the agents named leave the pending set, and the channel gains exactly one synthetic failure for each that was pending, in the order they were first named |
| `Sessions.BroadcastSession.BroadcastToZoneLeaders` | internal/server/exec.go:1030-1050 | reaches the streams with room; exactly the pending agents child sets lead to from the others leave the pending set, and each of them gets exactly one synthetic failure queued |
| `Sessions.FailuresFailExactly` | internal/server/dispatch_notifier.go:32-119 | naming a list of agents queues one failure for each that is both pending and named |
| `Sessions.FailuresInOrder` | internal/server/dispatch_notifier.go:32-119 | the failures come in the order in which their agents were first named |
| `Sessions.BeneathAnyMeans` | internal/server/exec.go:1030-1050 | on a linked mesh those given up on are the agents whose walk upwards meets an unreached leader |
| `Waves.SortDescending` | internal/server/waves.go:43-44 | the in-place sort yields the same depths in strictly descending order |
| `Waves.TargetIDWavesByDepthDesc` | internal/server/waves.go:30-52 | waves are the targets of each occurring depth in their original order, deepest first |
| `Waves.PlanUnique` | internal/server/waves.go:30-52 | that description determines the waves |
| `Waves.WaveKeepsOrder` | internal/server/waves.go:30-52 | a wave lists its targets in the order the caller gave them |
| `Waves.UnknownGoLast` | internal/server/waves.go:30-52 | targets the mesh does not know are in the last wave, and nobody else is |
| `Waves.WavesPermutation` | internal/server/waves.go:30-52 | the waves one after another are a permutation of the targets |
| `Waves.BottomUpOrder` | internal/server/waves.go:14-29 | where depths grow every targeted strict descendant of a relay is in an earlier wave |
| `Waves.AlwaysBottomUpIff` | internal/server/waves.go:14-29 | the waves of every target list are bottom-up exactly when stored depths grow along parent links |
| `Waves.MoveKeepsBottomUpIff` | internal/server/meshtopology.go:342-347 | a reported move keeps that exactly when the mover's new depth stays below its children's |
| `Waves.FailoverBreaksBottomUp` | internal/server/meshtopology.go:342-347 | an ordinary failover to a sibling breaks it |
| `BottomUp.DoKeeps` | internal/server/exec.go:906-936 | a wave opens only after all earlier ones ended with everyone accounted |
| `BottomUp.BottomUpSafety` | internal/server/exec.go:890-936 | in every run, when a relay's wave has been dispatched each target that was strictly beneath it at planning time is in an earlier wave and accounted, with a response or with a failure |
| `BottomUp.StoppedStays` | internal/server/exec.go:917-935 | after a wave that did not complete no further wave is dispatched |
| `BottomUp.RunMeans` | internal/server/exec.go:890-936 | in every run one session has been opened per wave dispatched, and the next wave is on offer exactly when the current one completed, waves are left and the run was not stopped |
| `BottomUp.EveryPlanCanFinish` | internal/server/exec.go:890-936 | every plan has a run that dispatches all its waves and completes each |
| `BottomUp.FinishedRunAccounts` | internal/server/exec.go:906-936 | a run whose last wave completed has accounted every target, in its own wave |
| `Like.MatchLikePattern` | internal/query/eval.go:761-794 | the loop computes the one-wildcard scan, equals SQL LIKE for subjects without a percent sign, and turns fewer than (s+2)*(p+1) times |
| `Like.ScanDecides` | internal/query/eval.go:761-794 | from any reachable loop state the scan finds a match exactly when one remains at this position or from a later start of the remembered wildcard |
| `Like.ScanIsLike` | internal/query/eval.go:761-794 | scan and recursive LIKE agree on every pattern for a subject without a percent sign |
| `Like.TrapFoolsScan` | internal/query/eval.go:769-775 | a percent sign in the subject eats the pattern's wildcard as a literal, so the scan misses a match |
| `Like.AgreesIff` | internal/query/eval.go:761-794 | scan and LIKE agree on all patterns exactly for the subjects without a percent sign |
| `Expressions.PrefilterSound` | internal/query/eval.go:196-269 | with data conditions under even NOTs no satisfying agent is filtered out; under odd NOTs no filtered-in agent fails |
| `Expressions.PositiveForms` | internal/query/eval.go:196-330 | on tags and the hostname, for every record: = holds exactly when the field shows that text, IN when it shows one of the values, LIKE when it shows something the matcher accepts, IS NULL when the tag is absent or the hostname empty |
| `Expressions.NegativeForms` | internal/query/eval.go:196-330 | !=, NOT IN, NOT LIKE and IS NOT NULL are the negations of these |
| `Expressions.OtherComparisons` | internal/query/eval.go:196-330 | any other comparison of a tag or the hostname holds only as != of an absent tag |
| `Expressions.MentionsIff` | internal/query/eval.go:173-354 | a condition is taken to speak of tags or the hostname exactly when one of its leaves names such a field |
| `Expressions.OutcomeCan` | internal/query/eval.go:196-269 | one pass over the condition and the record says which outcomes are possible, whatever the data |
| `Expressions.CanIsAttained` | internal/query/eval.go:196-269 | where no data condition occurs twice each possible outcome is reached by some data |
| `Expressions.PrefilterKeepsIff` | internal/query/eval.go:196-269 | the prefilter drops no selected agent if it accepts the record or the condition cannot come out true on it; where no data condition occurs twice, exactly then |
| `Expressions.PrefilterKeepsByCases` | internal/query/eval.go:196-269 | for every condition, repeated ones too, it drops no selected agent exactly when it accepts the record or no choice of the data conditions that occur makes the whole true |
| `Expressions.PrefilterExactWithoutData` | internal/query/eval.go:196-269 | without data conditions the prefilter is the condition itself |
| `Expressions.PrefilterAssumesData` | internal/query/eval.go:196-269 | the prefilter is the condition with every data condition taken as true |
| `Expressions.NegatedDataIsDropped` | internal/query/eval.go:196-269 | a NOT over a data condition makes the prefilter drop an agent the condition selects |
| `Filtering.FilterArray` | internal/query/eval.go:546-619 | keeps exactly the entries on which all conditions of the module hold, in order |
| `Filtering.GroupByModule` | internal/query/eval.go:546-560 | groups the conditions by module, order kept |
| `Filtering.MatchesConditions` | internal/query/eval.go:635-661 | true exactly when every condition holds of the entry |
| `Filtering.FilterModule` | internal/query/eval.go:560-619 | leaves a module exactly with its surviving part |
| `Filtering.FilteringLeaves` | internal/query/eval.go:546-619 | unfiltered modules stay as they were; a filtered scalar module stays as it was or vanishes with a condition it fails; a filtered array module is left as its array field alone, holding in order exactly the object entries that meet every condition on the module, each as often as it occurs, and vanishes when there are none |
| `Filtering.FilterCollectedData` | internal/query/eval.go:546-619 | filtered modules keep their surviving part or vanish, the others are untouched |
| `Filtering.AllFilteredModulesPresent` | internal/query/eval.go:623-633 | true exactly when every filtered module is still present |
| `Filtering.SurvivesIff` | internal/query/eval.go:546-619 | a module survives exactly when some entry of it meets all its conditions |
| `Filtering.FilteringFindsRow` | internal/agent/agent.go:1179-1200 | filtering leaves every filtered module exactly when some choice of one entry per module satisfies all conditions |
| `Pushdown.StrippedAwayIsTags` | internal/query/eval.go:117-165 | a condition stripped to nothing is decided by the record alone |
| `Pushdown.PushableIff` | internal/query/eval.go:117-525 | a WHERE can be pushed exactly when each conjunct speaks of tags alone, without OR, or is a comparison, LIKE or IN that is not negated, and the agents get the filters of the others in order |
| `Pushdown.PushdownExactOnRow` | internal/query/eval.go:457-525 | on every record and row a pushable condition holds exactly when the prefilter accepts the record and every pushed filter holds of the row |
| `Pushdown.AnswersExactly` | internal/agent/agent.go:1179-1200 | end to end, an agent answers a pushable query exactly when some row of its data satisfies the whole condition |
| `Pushdown.UnpushedIgnoresData` | internal/query/eval.go:455-470 | a condition that cannot be pushed is answered by every dispatched agent whatever its data |
| `Pushdown.UnpushedExactIff` | internal/query/eval.go:455-480 | a condition that cannot be pushed is answered exactly, on all data, if and only if an agent it is dispatched to satisfies it without any data and an agent it is not dispatched to satisfies it on no row |
| `Pushdown.DroppedSelectNothing` | internal/query/eval.go:455-480 | the second half holds where data conditions are under even NOTs or the condition cannot come out true on the record |
| `Pushdown.OrIsNotFiltered` | internal/query/eval.go:474-480 | an OR of data conditions is answered by an agent with no data at all |
| `Conditions.ProtoFiltersToConditions` | internal/agent/agent.go:1545-1572 | each filter becomes its condition, in order: IN a list cut at commas, a value that reads as a number a number whatever the operator, all else a text |
| `Conditions.ListArrivesIff` | internal/agent/agent.go:1545-1552 | a list arrives as it was sent, or with the same members, exactly when it has a value and none contains a comma |
| `Conditions.TextExactIff` | internal/query/eval.go:663-720 | = and != with a quoted text are judged as they say on every value exactly when the text does not read as a number |
| `Conditions.LikeExactIff` | internal/query/eval.go:663-720 | a LIKE is judged as it says exactly when its pattern does not read as a number |
| `Conditions.InExactIff` | internal/query/eval.go:663-720 | an IN is judged as it says exactly when it has a value and none contains a comma |
| `Conditions.NumberExact` | internal/query/eval.go:721-738 | comparisons with numbers are judged by the order of the numbers |
| `Conditions.PlainlyOnRow` | internal/query/eval.go:635-720 | on a row, a plain condition holds as a pushed filter exactly when its field is there and the condition says so of the value |
| `Conditions.VersionTakenForNumber` | internal/agent/agent.go:1558-1569 | a query for version 1.10 in quotes is answered for an installed 1.1 |
| `Parser.SpellingReadsBack` | internal/query/parser.go:699-717 | any names and dots in turn, keyword tokens included, read as the lower-cased field and nothing more is consumed |
| `Parser.ConditionReads` | internal/query/parser.go:538-634 | every spelling of a leaf condition reads back as it, keywords as names, unquoted dotted values and negations included |
| `Parser.ParserIsGrammar` | internal/query/parser.go:472-535 | the parser reads e and leaves rest exactly when some phrase of the grammar spells the tokens before rest, has e as its tree, ends where no longer one can, and fits the depth limit |
| `Parser.PhraseReads` | internal/query/parser.go:472-535 | every phrase, with whatever parentheses it has, reads as its tree exactly within the depth limit, the counter charged for each NOT and parenthesis |
| `Parser.NamesAre` | internal/query/parser.go:766-768 | identifiers and all keywords are names, and no other token is |
| `Parser.LowerMeans` | internal/query/parser.go:699-717 | field names differ from their spelling in the case of letters only |
| `Parser.ParseInvertsRendering` | internal/query/parser.go:472-535 | parsing the canonical tokens of any tree returns that tree and leaves exactly what followed, precisely when its nesting cost fits the limit, and fails otherwise |
| `Parser.ExpressionSound` | internal/query/parser.go:472-535 | whatever parses is a canonical tree within the limit |
| `Parser.RenderingNormalises` | internal/query/parser.go:472-535 | rendering a parsed tree and parsing again gives the same tree |
| `WhereParser.WhereParser.Enter` | internal/query/parser.go:260-266 | counts one level and refuses beyond 200 |
| `WhereParser.WhereParser.ParseDottedField` | internal/query/parser.go:699-717 | reads the field the grammar reads and stops where it stops |
| `WhereParser.WhereParser.ParseInExpr` | internal/query/parser.go:593-614 | reads the IN list the grammar reads |
| `WhereParser.WhereParser.ParseLikeExpr` | internal/query/parser.go:624-634 | reads the pattern the grammar reads |
| `WhereParser.WhereParser.ParseValue` | internal/query/parser.go:662-695 | reads the value the grammar reads |
| `WhereParser.WhereParser.ParseCondition` | internal/query/parser.go:538-591 | reads the condition the grammar reads |
| `WhereParser.WhereParser.ParseUnaryExpr` | internal/query/parser.go:510-535 | always ends, reads what the grammar reads and restores the depth on success |
| `WhereParser.WhereParser.ParseAndExpr` | internal/query/parser.go:493-507 | the loop builds the grammar's left-nested chain |
| `WhereParser.WhereParser.ParseExpr` | internal/query/parser.go:472-490 | always ends; on success the tree, the position and the restored depth are the grammar's |
| `WhereParser.ParseRendered` | internal/query/parser.go:472-535 | the parser object run on rendered tokens gives the tree back and stops at the rest |
| `Strings.ScanString` | internal/query/parser.go:179-201 | the scanner reads a quoted literal as its unquoting |
| `Strings.ScanIff` | internal/query/parser.go:179-201 | a literal reads as text with a rest exactly when it is that text with its quotes doubled, closed by a quote not followed by another |
| `RpmVersion.RpmSegments` | cmd/dirq/rpm.go:223-247 | the index loops split off the maximal digit and letter runs |
| `RpmVersion.SegmentsAre` | cmd/dirq/rpm.go:223-247 | every segment is non-empty and all digits or all letters |
| `RpmVersion.SegmentsSplit` | cmd/dirq/rpm.go:223-247 | the segments are the runs of digits and of letters that cannot be extended, left to right, with no letter or digit outside them |
| `RpmVersion.SegmentsKeepAlnum` | cmd/dirq/rpm.go:223-247 | the segments in order are the version without its separators |
| `RpmVersion.DigitCmpIsNumeric` | cmd/dirq/rpm.go:173-195 | comparing zero-stripped digit runs by length then byte is comparing the numbers they spell |
| `RpmVersion.SameValueIff` | cmd/dirq/rpm.go:173-195 | two digit runs spell the same number exactly when they agree after leading zeros |
| `RpmVersion.RpmVerCmp` | cmd/dirq/rpm.go:162-221 | the loop is comparison of segments pair by pair |
| `RpmVersion.KeysCmpMeans` | cmd/dirq/rpm.go:162-221 | the first pair of segments that differ decides, two numbers by value, a number over letters, letters by bytes; with no such pair the version with more segments wins |
| `RpmVersion.RpmVersionCompare` | cmd/dirq/rpm.go:137-158 | epochs first, then versions |
| `RpmVersion.VersionCmpMeans` | cmd/dirq/rpm.go:137-221 | the larger epoch wins; with equal ones the versions decide, by their first segments that differ or else by which has more |
| `RpmVersion.EpochIsBeforeTheColon` | cmd/dirq/rpm.go:152-160 | the epoch is what stands before the first colon, zero without one |
| `ByteOrder.StrCmpMeans` | cmd/dirq/rpm.go:196-204 | of two texts the smaller is a proper prefix of the other or has the smaller character where they first differ |
| `RpmVersion.VersionOrder` | cmd/dirq/rpm.go:137-221 | comparison is reflexive, antisymmetric in sign and transitive for every epoch reading |
| `RpmVersion.VersionEqualIff` | cmd/dirq/rpm.go:137-221 | versions compare equal exactly when epochs agree and segments agree one by one up to leading zeros |
| `RpmVersion.HighestFixes` | cmd/dirq/redhat.go:187-197 | for every package and release seen the kept version is one of those seen and none exceeds it |
| `RateLimiter.RateLimiter.Allow` | internal/server/ratelimit.go:33-57 | admits exactly when the refilled bucket holds a token, takes one then, and touches no other key |
| `RateLimiter.Bucket.Take` | internal/server/ratelimit.go:44-56 | refill by elapsed time up to the burst, then one token if there is one |
| `RateLimiter.FillIsLeastRoom` | internal/server/ratelimit.go:33-57 | the tokens at a call are the least room any window ending there leaves, over every run and key |
| `RateLimiter.AllowedIff` | internal/server/ratelimit.go:33-57 | a call passes exactly when every window ending at it still has a whole token of room under burst plus rate times length |
| `RateLimiter.WindowBound` | internal/server/ratelimit.go:33-57 | no window of any run lets more calls of a key through than burst plus rate times its length |
| `RateLimiter.TokensInRange` | internal/server/ratelimit.go:44-56 | tokens stay between zero and the burst |
| `RateLimiter.SpacedCallsPass` | internal/server/ratelimit.go:44-56 | with burst at least one, a call at least 1/rate after the key's earlier ones always passes |
| `FactStage.FactBatcher.Prepare` | internal/server/grpc.go:860-881 | one row for each table of the response, in any order, none for anything else |
| `FactStage.FactBatcher.Commit` | internal/server/grpc.go:883-898 | the stage becomes the old one with the accepted rows upserted in turn, and the drop count is the number refused |
| `FactStage.FactBatcher.StageFacts` | internal/server/grpc.go:845-914 | every table ends up staged or the stage is full; other keys keep their rows, none is lost and the cap holds |
| `FactStage.FactBatcher.TakeSnapshot` | internal/server/grpc.go:953-966 | the snapshot lists every staged row exactly once and the stage is empty |
| `FactStage.FactBatcher.BulkUpsertFacts` | internal/db/postgres/facts.go:36-58 | one statement upserts its rows, last write winning, or nothing |
| `FactStage.FactBatcher.WriteChunks` | internal/server/grpc.go:973-983 | the rows are cut in order into chunks of 5000, no key twice in one statement, and exactly the chunks whose statement went through are written, in order, whatever failed before |
| `FactStage.WrittenFrom` | internal/server/grpc.go:973-983 | what is written are distinct rows of the list, and all rows of the chunks so far when no statement failed |
| `FactStage.WrittenIff` | internal/server/grpc.go:973-983 | a row is written exactly when the statement of its chunk went through |
| `FactStage.FactBatcher.FlushFactStage` | internal/server/grpc.go:953-990 | undisturbed and without failure the database becomes itself overlaid by the stage; with failures each key has its old or its staged row |
| `FactStage.StageStaysWithinCap` | internal/server/grpc.go:883-898 | the stage never exceeds its cap and never loses a key |
| `FactStage.AdmissionIsFair` | internal/server/grpc.go:883-898 | rows of staged keys are always accepted, and a row is refused for good only by a full stage |
| `FactStage.RefusedIff` | internal/server/grpc.go:883-898 | within one response the refused rows are exactly those whose keys are absent afterwards |
| `FactStage.ListingOverlays` | internal/server/grpc.go:963-983 | writing a listing of a map row by row, in any order, is overlaying the map |
| `FactStage.StepRefines` | internal/server/grpc.go:845-990 | each interleaved step upserts exactly the rows it accepts into what a reader of database, snapshot and stage together sees |
| `FactStage.StagingRefinesUpserts` | internal/server/grpc.go:845-990 | over any run without a failed write, database overlaid by snapshot remainder overlaid by stage equals upserting every accepted row in order |
| `FactStage.DrainedIsExact` | internal/server/grpc.go:945-948 | once nothing is pending the database alone is that result |
| `FactStage.NothingInvented` | internal/server/grpc.go:949-983 | even with failed writes every row anywhere was there at the start or was accepted |
| `RegistrationBatcher.Batcher.Submit` | internal/server/registration_batcher.go:69-88 | queues, and either hands the full queue over and drops the timer or makes sure one is running |
| `RegistrationBatcher.Batcher.TimerFire` | internal/server/registration_batcher.go:90-99 | hands over what is queued, if anything, and forgets the tracked timer |
| `RegistrationBatcher.Batcher.FlushBatch` | internal/server/registration_batcher.go:110-121 | each registration of a batch receives one answer, the one at its own index |
| `RegistrationBatcher.StepInv` | internal/server/registration_batcher.go:69-121 | every interleaving step keeps submissions equal to batches then queue in order, the queue below the cap, a live tracked timer for a waiting queue, and answers equal to the flushed batches |
| `RegistrationBatcher.RunInv` | internal/server/registration_batcher.go:69-121 | so does every run |
| `RegistrationBatcher.AnsweredOnce` | internal/server/registration_batcher.go:69-121 | no registration is ever answered more often than submitted, and when no timer and no flush is outstanding all have been |
| `RegistrationBatcher.LandsInOneBatch` | internal/server/registration_batcher.go:69-121 | each handed-over registration is in exactly one batch at exactly one index, in submission order |
| `RegistrationBatcher.WindowCloses` | internal/server/registration_batcher.go:82-99 | from any reachable state with a waiting queue its tracked timer, by itself, hands it over as one batch |
| `BatchWindows.StrayExactlyByFailedStop` | internal/server/registration_batcher.go:69-99 | a step leaves a timer other than the tracked one exactly when it is a cap flush whose timer has already expired; while there is none no window is closed but by the cap or its own timer |
| `BatchWindows.RunKeepsWindowsIff` | internal/server/registration_batcher.go:69-99 | every state of a run is free of such timers exactly when no cap flush of it came too late for its timer, and then no window is closed early |
| `BatchWindows.StrayClosesEarly` | internal/server/registration_batcher.go:69-99 | from every reachable state with such a timer at most three further steps, none of them a late stop, close a window early |
| `BatchWindows.SafeForeverIff` | internal/server/registration_batcher.go:69-99 | without further late stops no window can ever be closed early exactly when no such timer is left |
| `BatchWindows.StaleTimerClosesNextWindow` | internal/server/registration_batcher.go:62-99 | at every cap from two up, 200 included, a late stop is reachable and its timer hands over the next window while that window's own timer still waits |
| `LeaderSelection.GroupByIP` | internal/server/registration_batcher.go:135-151 | one group per source IP with exactly its batch indices in order |
| `LeaderSelection.FindRep` | internal/server/registration_batcher.go:183-192 | the first member not on probation, none exactly when all are |
| `LeaderSelection.SpreadDomains` | internal/server/registration_batcher.go:210-223 | pass 1 promotes, first come first served, only representatives that bring both a new IP and a new domain, until slots or such groups run out |
| `LeaderSelection.FillDistinctIPs` | internal/server/registration_batcher.go:225-241 | pass 2 keeps pass 1 and fills up across leaderless IPs, first come first served |
| `LeaderSelection.SelectLeaders` | internal/server/registration_batcher.go:126-241 | promotions fit the open slots, one per IP, none flaky, none on a led IP; no usable slot stays open; no domain is passed over for a repeated one; among those one pass could take, the first to register is taken |
| `LeaderSelection.GroupDomainMeans` | internal/server/registration_batcher.go:210-223 | the domain of an IP is that of the first registration from it |
| `LeaderSelection.SlotsFilled` | internal/server/registration_batcher.go:168-241 | exactly as many are promoted as the smaller of open slots and leaderless IPs with a stable agent |
| `BatchAssignment.IpOfListen` | internal/server/registration_batcher.go:304-318 | the host is what precedes the last colon, the whole address without one |
| `BatchAssignment.HostUnique` | internal/server/registration_batcher.go:304-318 | that description determines the host |
| `BatchAssignment.CountOnlineZoneLeaders` | internal/server/meshtopology.go:768-778 | counts exactly the online leaders |
| `BatchAssignment.SurveyLeaders` | internal/server/registration_batcher.go:157-166 | the occupied IPs and non-empty domains are exactly those of the online leaders |
| `BatchAssignment.OccupiedMeans` | internal/server/registration_batcher.go:157-166 | an IP is occupied exactly when an online leader listens on it, a domain when it is not empty and an online leader's |
| `BatchAssignment.RestMeans` | internal/server/registration_batcher.go:243-257 | the others are answered in the order of the batch |
| `BatchAssignment.OwnIPRecognisedIff` | internal/server/grpc.go:80-97 | the host of a listen address built at registration is the source IP exactly when that IP holds no colon |
| `BatchAssignment.AnswerSeats` | internal/server/registration_batcher.go:196-208 | an answer seats its agent and disturbs no other agent's seat |
| `BatchAssignment.AssignBatchDiverse` | internal/server/registration_batcher.go:126-257 | every index is answered; the selected leaders are a sound, maximal, domain-first choice; anyone else becomes a leader only if nobody had room at its turn and joins an unbeaten parent otherwise; the mesh is the result of these turns; with distinct agents it shows each where it was told to go, still a forest if none had children or could be a parent before |
| `ReRegistration.TurnsForestIff` | internal/server/registration_batcher.go:126-257 | a batch, re-registrations included, leaves a forest after every turn exactly when no turn put an agent beneath itself |
| `ReRegistration.ReRegistrationForestIff` | internal/server/registration_batcher.go:126-294 | a known agent alone in its batch keeps the mesh a forest, whatever the map order, exactly when it wins a slot or no unbeaten parent is in its own subtree |
| `ReRegistration.ReRegistrationMustBreak` | internal/server/registration_batcher.go:126-294 | it breaks the forest for certain when it wins no slot and every unbeaten parent is in its own subtree |
| `ReRegistration.LoneChoice` | internal/server/registration_batcher.go:168-241 | alone in its batch a registration is selected exactly when a slot is open, it is stable and no online leader listens on its source IP |
| `ReRegistration.SoleLeaderBecomesItsOwnParent` | internal/server/registration_batcher.go:126-294 | a sole stable leader with room that registers again from the IP it listens on becomes its own parent, and no leader is left |
| `ReRegistration.ReRegistrationCycle` | internal/server/registration_batcher.go:126-294 | with room for one child each, a leader that registers again after its child joined is given that child as parent: a two-agent cycle without a leader |

## Left out

Whole areas:

- gRPC, HTTP, SQL, TLS and certificates, signing, Postgres leader election, the command line, module collectors, command building and process control: input and output, or external.
- Wall-clock time: timeouts, tickers and timers are steps that may happen at any moment; claim times, call times and collection times are parameters.
- Flap decay and failure-domain masking: `flaky` and `hot` are sets of agents, `domainOf` an arbitrary function. They are fixed during one call.
- Hostnames, logs, metrics, database writes beside the topology and the fallback addresses and ids sent along with an assignment.
- Reading and printing of numbers and values, case folding for LIKE and the scan of an epoch are parameters (`Printer`, `Reader`, `like`, `EpochReader`). The filtering theorems hold for every way to judge a filter on a value (`Judge`); the source's is `Conditions.JudgeOf`.
- Update messages from the server, which an agent only logs.
- Deploy and query broadcasts follow the same protocol as exec broadcasts and are covered by the one state machine; their payloads are not modelled.
- SELECT lists, ORDER BY, aggregation, and the lexer other than its string scanner.
- Promoting messages that `fillVacantZoneLeaderSlot` sends down every leader stream.

Where a contract says less than the program, or asks for more:

- MeshTopology.MeshTopology.AddAgent: the flap score it bumps is not part of the mesh; agent ids are database keys and never empty.
- MeshTopology.MeshTopology.AttachObserved: requires that the chain above the parent runs out or meets the child, because the source's walk does not end otherwise.
- MeshTopology.MeshTopology.ClearParent: modelled as written; no server code calls it.
- MeshTopology.MeshTopology.Remove: modelled as written; no server code calls it.
- MeshTopology.MeshTopology.Rehydrate: requires that no leader is on a parent cycle, because the source's queue never empties otherwise.
- PeerEvents.HandlePeerConnected: requires, for an allowed report only, that the walk it calls ends; the metrics of refused origins are not modelled.
- PeerEvents.RequestPeers: search and record are one step here, the source takes the lock for each; AnswerRequest states the second half on whatever mesh it finds.
- PeerEvents.ApplyRelayAssignment: search and record are one step here, the source takes the lock for each; AnswerRelay states the second half on whatever mesh it finds.
- MeshTopology.MeshTopology.SubtreeIDs: requires that an agent in a child set names its owner as parent, which no operation and no rebuilding breaks; so do MarkSubtreeOffline and the handlers that call either.
- ReRegistration.TurnsForestIff: for a batch of several agents the exact condition speaks of the answers given; before the call there is the exact one for a single registration and the sufficient one of AssignBatchDiverse.
- Rebalancer.CloseThenReassign: runs the two without another event in between; the source starts the second in its own goroutine.
- Rebalancer.ReassignOrphans: fallback parents and certificate pins in the message are not modelled.
- Flooding.BroadcastDelivery: takes the connected peers of an agent to be its children in the mesh, and streams to belong to leaders; so does Delivery.WhoActs.
- Routing.RoutedDelivery: asks that each agent on the path is connected to its children in the mesh while the message travels.
- BottomUp.BottomUpSafety: accounted is not finished; an agent given up on with a synthetic failure may still run, and a relay is compared with who was beneath it when the waves were planned.
- Filtering.FilterCollectedData: does not model giving up when the query is cancelled.
- Conditions.ProtoFiltersToConditions: numbers are reals; the infinities and not-a-number, which the source also reads from a text, are not among them.
- RpmVersion.RpmVerCmp: versions are strings of characters compared by code point, not bytes.
- RateLimiter.RateLimiter.Allow: tokens and times are reals, not floating-point numbers.
- FactStage.FactBatcher.StageFacts: a table is opaque text; values that cannot be marshalled count as not being tables.
- FactStage.StagingRefinesUpserts: one flusher, as the server has; a failed chunk is a step of its own and excluded here.
- RegistrationBatcher.Batcher.FlushBatch: requires that a batch has no repeated record; every call to submit makes its own.
- BatchAssignment.AssignBatchDiverse: one batch at a time; two batches flushed at once may both count the same open slot. Leaders are chosen first and then promoted, where the source promotes while choosing; nothing read in between depends on it. Probation and hot domains are fixed for the batch.
