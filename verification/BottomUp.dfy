// A whole bottom-up run: one broadcast session per wave, each started only when
// the one before it has completed.
module BottomUp {
  import opened Agents
  import opened Forest
  import opened Broadcast
  import opened Waves

  // sessions[i] belongs to waves[i]; the last one is current.  stopped: the run
  // gave up, after a wave that did not complete or could not be signed.
  datatype Bottom = Bottom(waves: seq<seq<AgentId>>, sessions: seq<Session>, stopped: bool)

  datatype Move =
    | Inside(wave: nat, step: Broadcast.Step)  // a step of one session; late sends reach finished ones too
    | NextWave                       // the current wave completed: dispatch the next
    | Stop

  ghost function Begin(waves: seq<seq<AgentId>>): Bottom
    requires waves != []
  {
    Bottom(waves, [Start(Elems(waves[0]))], false)
  }

  ghost predicate Allowed(b: Bottom, mv: Move) {
    match mv
    case Inside(w, step) => w < |b.sessions| && Enabled(b.sessions[w], step)
    case NextWave =>
      && !b.stopped && 0 < |b.sessions| < |b.waves|
      && b.sessions[|b.sessions| - 1].phase == Finished(Complete)
    case Stop => true
  }

  ghost function Do(b: Bottom, mv: Move): Bottom
    requires Allowed(b, mv)
  {
    match mv
    case Inside(w, step) => b.(sessions := b.sessions[w := Next(b.sessions[w], step)])
    case NextWave => b.(sessions := b.sessions + [Start(Elems(b.waves[|b.sessions|]))])
    case Stop => b.(stopped := true)
  }

  ghost predicate CanDo(b: Bottom, moves: seq<Move>)
    decreases |moves|
  {
    moves != [] ==> Allowed(b, moves[0]) && CanDo(Do(b, moves[0]), moves[1..])
  }

  ghost function DoAll(b: Bottom, moves: seq<Move>): Bottom
    requires CanDo(b, moves)
    decreases |moves|
  {
    if moves == [] then b else DoAll(Do(b, moves[0]), moves[1..])
  }

  ghost predicate WaveInv(b: Bottom) {
    && 0 < |b.sessions| <= |b.waves|
    && (forall i | 0 <= i < |b.sessions| :: Inv(b.sessions[i]) && b.sessions[i].targets == Elems(b.waves[i]))
    && (forall i | 0 <= i < |b.sessions| - 1 :: b.sessions[i].phase == Finished(Complete))
  }

  lemma DoKeeps(b: Bottom, mv: Move)
    requires WaveInv(b) && Allowed(b, mv)
    ensures WaveInv(Do(b, mv)) && Do(b, mv).waves == b.waves
  {
    hide Inv;
    match mv
    case Inside(w, step) => StepInv(b.sessions[w], step);
    case NextWave => StartInv(Elems(b.waves[|b.sessions|]));
    case Stop =>
  }

  lemma {:induction false} DoAllKeeps(b: Bottom, moves: seq<Move>)
    requires WaveInv(b) && CanDo(b, moves)
    ensures WaveInv(DoAll(b, moves)) && DoAll(b, moves).waves == b.waves
    decreases |moves|
  {
    if moves != [] {
      DoKeeps(b, moves[0]);
      DoAllKeeps(Do(b, moves[0]), moves[1..]);
    }
  }

  // Whenever a relay's wave has been dispatched, each targeted agent that was
  // strictly beneath it when the waves were planned was dispatched in an earlier
  // wave, and that wave has accounted for all of its agents.  Accounted is not
  // finished: an agent given up on with a synthetic failure may still run.
  lemma BottomUpSafety(m: Mesh, targets: seq<AgentId>, waves: seq<seq<AgentId>>, depths: seq<int>, moves: seq<Move>, i: nat, r: AgentId, x: AgentId)
    requires NoAgent !in m.nodes && DepthsGrow(m) && IsPlan(m, targets, waves, depths) && waves != []
    requires CanDo(Begin(waves), moves)
    requires i < |DoAll(Begin(waves), moves).sessions| && i < |waves| && r in waves[i]
    requires x in targets && StrictlyBeneath(m, x, r)
    ensures var b := DoAll(Begin(waves), moves);
            exists j :: 0 <= j < i && x in waves[j] && x in Claimed(b.sessions[j]) && b.sessions[j].pending == {}
  {
    hide Partitioned, Counted;
    StartInv(Elems(waves[0]));
    DoAllKeeps(Begin(waves), moves);
    BottomUpOrder(m, targets, waves, depths, i, r, x);
    var j :| 0 <= j < i && x in waves[j];
    assert x in DoAll(Begin(waves), moves).sessions[j].targets;
  }

  // A run whose current wave ended any other way dispatches nothing more.
  lemma {:induction false} StoppedStays(b: Bottom, moves: seq<Move>)
    requires WaveInv(b) && CanDo(b, moves)
    requires b.stopped || (b.sessions[|b.sessions| - 1].phase.Finished? && b.sessions[|b.sessions| - 1].phase != Finished(Complete))
    ensures |DoAll(b, moves).sessions| == |b.sessions|
    decreases |moves|
  {
    hide Inv;
    if moves != [] {
      DoKeeps(b, moves[0]);
      StoppedStays(Do(b, moves[0]), moves[1..]);
    }
  }

  // A run that completed its last wave has accounted for every target.
  lemma FinishedRunAccounts(m: Mesh, targets: seq<AgentId>, waves: seq<seq<AgentId>>, depths: seq<int>, moves: seq<Move>, x: AgentId)
    requires IsPlan(m, targets, waves, depths) && waves != [] && x in targets
    requires CanDo(Begin(waves), moves)
    requires var b := DoAll(Begin(waves), moves);
             |b.sessions| == |waves| && b.sessions[|waves| - 1].phase == Finished(Complete)
    ensures var b := DoAll(Begin(waves), moves);
            exists j :: 0 <= j < |waves| && x in waves[j] && x in Claimed(b.sessions[j])
  {
    hide Inv, AtDepth;
    StartInv(Elems(waves[0]));
    DoAllKeeps(Begin(waves), moves);
    assert DepthOf(m, x) in Elems(depths);
    var j :| 0 <= j < |depths| && depths[j] == DepthOf(m, x);
    InOwnWave(m, targets, depths[j], x);
    CompletePending(DoAll(Begin(waves), moves).sessions[j]);
  }

  lemma CompletePending(s: Session)
    requires Inv(s) && s.phase == Finished(Complete)
    ensures s.pending == {} && Claimed(s) == s.targets
  {}

  // What a run has got to, told from its moves: one session more than it has taken
  // next waves, and another is on offer exactly when the current one completed,
  // waves are left and nothing stopped the run.
  lemma {:induction false} RunMeans(waves: seq<seq<AgentId>>, moves: seq<Move>)
    requires waves != [] && CanDo(Begin(waves), moves)
    ensures var b := DoAll(Begin(waves), moves);
            && b.waves == waves
            && |b.sessions| == 1 + multiset(moves)[NextWave]
            && (Allowed(b, NextWave) <==>
                  Stop !in moves && |b.sessions| < |waves| && b.sessions[|b.sessions| - 1].phase == Finished(Complete))
  {
    MovesMean(Begin(waves), moves);
  }

  lemma {:induction false} MovesMean(b: Bottom, moves: seq<Move>)
    requires CanDo(b, moves)
    ensures DoAll(b, moves).waves == b.waves
    ensures |DoAll(b, moves).sessions| == |b.sessions| + multiset(moves)[NextWave]
    ensures DoAll(b, moves).stopped <==> b.stopped || Stop in moves
    decreases |moves|
  {
    if moves != [] {
      MovesMean(Do(b, moves[0]), moves[1..]);
      assert moves == [moves[0]] + moves[1..];
    }
  }

  // However many waves there are, some run dispatches them all and completes each.
  lemma EveryPlanCanFinish(waves: seq<seq<AgentId>>) returns (moves: seq<Move>)
    requires waves != []
    ensures CanDo(Begin(waves), moves)
    ensures var b := DoAll(Begin(waves), moves);
            |b.sessions| == |waves| && forall i | 0 <= i < |waves| :: b.sessions[i].phase == Finished(Complete)
  {
    moves := FinishFrom(Begin(waves));
  }

  lemma {:induction false} FinishFrom(b: Bottom) returns (moves: seq<Move>)
    requires !b.stopped && 0 < |b.sessions| <= |b.waves|
    requires forall i | 0 <= i < |b.sessions| - 1 :: b.sessions[i].phase == Finished(Complete)
    requires b.sessions[|b.sessions| - 1] == Start(Elems(b.waves[|b.sessions| - 1]))
    ensures CanDo(b, moves)
    ensures |DoAll(b, moves).sessions| == |b.waves|
    ensures forall s <- DoAll(b, moves).sessions :: s.phase == Finished(Complete)
    decreases |b.waves| - |b.sessions|
  {
    var w := |b.sessions| - 1;
    var steps := CanComplete(b.sessions[w]);
    var first := InsideAll(w, steps);
    InsideRuns(b, w, steps);
    var b1 := DoAll(b, first);
    if |b.sessions| == |b.waves| {
      moves := first;
    } else {
      var rest := FinishFrom(Do(b1, NextWave));
      assert ([NextWave] + rest)[1..] == rest;
      Then(b, first, [NextWave] + rest);
      moves := first + ([NextWave] + rest);
    }
  }

  function InsideAll(w: nat, steps: seq<Broadcast.Step>): seq<Move> {
    if steps == [] then [] else [Inside(w, steps[0])] + InsideAll(w, steps[1..])
  }

  lemma {:induction false} InsideRuns(b: Bottom, w: nat, steps: seq<Broadcast.Step>)
    requires w < |b.sessions| && CanRun(b.sessions[w], steps)
    ensures CanDo(b, InsideAll(w, steps))
    ensures DoAll(b, InsideAll(w, steps)) == b.(sessions := b.sessions[w := Broadcast.Run(b.sessions[w], steps)])
    decreases |steps|
  {
    if steps != [] {
      var b' := Do(b, Inside(w, steps[0]));
      InsideRuns(b', w, steps[1..]);
      assert InsideAll(w, steps)[1..] == InsideAll(w, steps[1..]);
      assert b'.sessions[w := Broadcast.Run(b'.sessions[w], steps[1..])] == b.sessions[w := Broadcast.Run(b.sessions[w], steps)];
    }
  }

  lemma {:induction false} Then(b: Bottom, first: seq<Move>, rest: seq<Move>)
    requires CanDo(b, first) && CanDo(DoAll(b, first), rest)
    ensures CanDo(b, first + rest) && DoAll(b, first + rest) == DoAll(DoAll(b, first), rest)
    decreases |first|
  {
    if first == [] {
      assert first + rest == rest;
    } else {
      assert (first + rest)[1..] == first[1..] + rest;
      Then(Do(b, first[0]), first[1..], rest);
    }
  }
}
