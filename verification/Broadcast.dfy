// One broadcast as a protocol: responses and synthetic failures race for each
// agent's slot while the dispatcher collects results.
//
// Claiming a slot and sending the result on the channel are two steps, and any
// other step may come between them.  The query, exec and deploy dispatchers run
// the same protocol; only the exec one has progress ticks.
module Broadcast {
  import opened Agents

  datatype Source = Real | Synthetic

  datatype Result = Result(agent: AgentId, source: Source)

  datatype Outcome = Complete | HardTimeout | Canceled

  // The dispatcher: about to test Remaining() > 0, waiting in select, draining
  // the channel after a clean exit, or returned.
  datatype Phase = Checking | Selecting | Draining | Finished(outcome: Outcome)

  // inFlight: claimed, not yet sent.  queue: the result channel, whose capacity
  // is the number of targets.  dropped: sends that found it full.
  datatype Session = Session(
    targets: set<AgentId>, pending: set<AgentId>, inFlight: set<Result>,
    queue: seq<Result>, emitted: seq<Result>, dropped: nat, phase: Phase)

  function Start(targets: set<AgentId>): Session {
    Session(targets, targets, {}, [], [], 0, Checking)
  }

  datatype Step =
    | Claim(r: Result)      // a handler or the notifier calls ClaimAgent
    | Send(r: Result)       // the claimer reaches its non-blocking send
    | Check                 // the dispatcher tests Remaining() > 0
    | Receive               // select takes a result from the channel
    | Tick                  // select takes a progress tick
    | TimeOut               // select takes the hard timeout
    | Cancel                // select takes the caller's cancellation
    | Drain                 // one turn of the clean-exit drain

  predicate Enabled(s: Session, step: Step) {
    match step
    case Claim(_) => true
    case Send(r) => r in s.inFlight
    case Check => s.phase == Checking
    case Receive => s.phase == Selecting && s.queue != []
    case Tick => s.phase == Selecting
    case TimeOut => s.phase == Selecting
    case Cancel => s.phase == Selecting
    case Drain => s.phase == Draining
  }

  function Next(s: Session, step: Step): Session
    requires Enabled(s, step)
  {
    match step
    case Claim(r) =>
      if r.agent in s.pending then s.(pending := s.pending - {r.agent}, inFlight := s.inFlight + {r}) else s
    case Send(r) =>
      var sent := s.(inFlight := s.inFlight - {r});
      if |s.queue| < |s.targets| then sent.(queue := s.queue + [r]) else sent.(dropped := s.dropped + 1)
    case Check => s.(phase := if |s.pending| > 0 then Selecting else Draining)
    case Receive => s.(queue := s.queue[1..], emitted := s.emitted + [s.queue[0]], phase := Checking)
    case Tick => s.(phase := Checking)
    case TimeOut => s.(phase := Finished(HardTimeout))
    case Cancel => s.(phase := Finished(Canceled))
    case Drain =>
      if s.queue != [] then s.(queue := s.queue[1..], emitted := s.emitted + [s.queue[0]])
      else s.(phase := Finished(Complete))
  }

  ghost predicate CanRun(s: Session, steps: seq<Step>)
    decreases |steps|
  {
    steps != [] ==> Enabled(s, steps[0]) && CanRun(Next(s, steps[0]), steps[1..])
  }

  ghost function Run(s: Session, steps: seq<Step>): Session
    requires CanRun(s, steps)
    decreases |steps|
  {
    if steps == [] then s else Run(Next(s, steps[0]), steps[1..])
  }

  // --------------------------------------------------------------------
  // The invariant
  // --------------------------------------------------------------------

  // Sent results in order: those already handed out, then those waiting.
  function Sent(s: Session): seq<Result> {
    s.emitted + s.queue
  }

  ghost predicate SentTo(s: Session, a: AgentId) {
    exists i :: 0 <= i < |Sent(s)| && Sent(s)[i].agent == a
  }

  ghost predicate InFlightTo(s: Session, a: AgentId) {
    exists r <- s.inFlight :: r.agent == a
  }

  // Every target is in exactly one place: pending, in flight, or sent (queued
  // or emitted), and nothing is anywhere twice.
  ghost predicate Partitioned(s: Session) {
    && s.pending <= s.targets
    && (forall a <- s.targets :: a in s.pending || InFlightTo(s, a) || SentTo(s, a))
    && (forall r <- s.inFlight :: r.agent in s.targets && r.agent !in s.pending && !SentTo(s, r.agent))
    && (forall i | 0 <= i < |Sent(s)| :: Sent(s)[i].agent in s.targets && Sent(s)[i].agent !in s.pending)
    && (forall q, r | q in s.inFlight && r in s.inFlight && q.agent == r.agent :: q == r)
    && (forall i, j | 0 <= i < j < |Sent(s)| :: Sent(s)[i].agent != Sent(s)[j].agent)
  }

  ghost predicate Counted(s: Session) {
    |s.pending| + |s.inFlight| + |s.queue| + |s.emitted| == |s.targets|
  }

  ghost predicate PhaseOk(s: Session) {
    && (s.phase.Selecting? ==> |s.emitted| < |s.targets|)
    && (s.phase.Draining? || s.phase == Finished(Complete) ==> s.pending == {})
  }

  ghost predicate Inv(s: Session) {
    Partitioned(s) && Counted(s) && PhaseOk(s) && s.dropped == 0
  }

  lemma StartInv(targets: set<AgentId>)
    ensures Inv(Start(targets))
  {}

  lemma ClaimPartitioned(s: Session, r: Result)
    requires Partitioned(s) && r.agent in s.pending
    ensures Partitioned(Next(s, Claim(r)))
  {
    var s' := Next(s, Claim(r));
    assert Sent(s') == Sent(s);
    assert r in s'.inFlight;
    forall a <- s.targets ensures a in s'.pending || InFlightTo(s', a) || SentTo(s', a) {
      if q :| q in s.inFlight && q.agent == a { assert q in s'.inFlight; }
    }
    forall q <- s'.inFlight ensures !SentTo(s', q.agent) {}
  }

  lemma SendPartitioned(s: Session, r: Result)
    requires Partitioned(s) && r in s.inFlight && |s.queue| < |s.targets|
    ensures Partitioned(Next(s, Send(r)))
  {
    var s' := Next(s, Send(r));
    assert Sent(s') == Sent(s) + [r];
    assert !SentTo(s, r.agent);
    assert Sent(s')[|Sent(s)|] == r;
    forall a <- s.targets ensures a in s'.pending || InFlightTo(s', a) || SentTo(s', a) {
      if q :| q in s.inFlight && q.agent == a {
        if q == r { assert SentTo(s', a); } else { assert q in s'.inFlight; }
      } else if i :| 0 <= i < |Sent(s)| && Sent(s)[i].agent == a {
        assert Sent(s')[i].agent == a;
      }
    }
  }

  // Taking the head of the queue moves it from waiting to handed out.
  lemma TakeKeepsSent(s: Session, s': Session)
    requires s.queue != [] && s'.queue == s.queue[1..] && s'.emitted == s.emitted + [s.queue[0]]
    ensures Sent(s') == Sent(s)
  {}

  lemma SameSentPartitioned(s: Session, s': Session)
    requires Partitioned(s) && Sent(s') == Sent(s)
    requires s'.targets == s.targets && s'.pending == s.pending && s'.inFlight == s.inFlight
    ensures Partitioned(s')
  {}

  // The channel has room for every claimer: the drop in the sender's default
  // case cannot happen.
  lemma SendHasRoom(s: Session, r: Result)
    requires Inv(s) && Enabled(s, Send(r))
    ensures |s.queue| < |s.targets|
  {}

  lemma StepInv(s: Session, step: Step)
    requires Inv(s) && Enabled(s, step)
    ensures Inv(Next(s, step))
  {
    hide Inv, Next;
    match step
    case Claim(r) => ClaimStepInv(s, r);
    case Send(r) => SendStepInv(s, r);
    case _ => OtherStepInv(s, step);
  }

  lemma ClaimStepInv(s: Session, r: Result)
    requires Inv(s)
    ensures Inv(Next(s, Claim(r)))
  {
    hide Partitioned;
    if r.agent in s.pending {
      ClaimPartitioned(s, r);
      FreshClaim(s, r);
    }
  }

  lemma SendStepInv(s: Session, r: Result)
    requires Inv(s) && Enabled(s, Send(r))
    ensures Inv(Next(s, Send(r)))
  {
    hide Partitioned;
    SendHasRoom(s, r);
    SendPartitioned(s, r);
  }

  // The dispatcher's own steps only move results from the queue to the output.
  lemma OtherStepInv(s: Session, step: Step)
    requires Inv(s) && Enabled(s, step) && !step.Claim? && !step.Send?
    ensures Inv(Next(s, step))
  {
    hide Partitioned;
    var s' := Next(s, step);
    if s'.queue != s.queue { TakeKeepsSent(s, s'); }
    SameSentPartitioned(s, s');
  }

  lemma FreshClaim(s: Session, r: Result)
    requires Partitioned(s) && r.agent in s.pending
    ensures r !in s.inFlight
  {}

  // After every interleaving whatever.
  lemma {:induction false} RunInv(s: Session, steps: seq<Step>)
    requires Inv(s) && CanRun(s, steps)
    ensures Inv(Run(s, steps))
    decreases |steps|
  {
    if steps != [] {
      StepInv(s, steps[0]);
      RunInv(Next(s, steps[0]), steps[1..]);
    }
  }

  // --------------------------------------------------------------------
  // What the invariant means
  // --------------------------------------------------------------------

  ghost function Claimed(s: Session): set<AgentId> {
    s.targets - s.pending
  }

  lemma NextForgets(s: Session, step: Step)
    requires Enabled(s, step)
    ensures Next(s, step).targets == s.targets && Next(s, step).pending <= s.pending && s.emitted <= Next(s, step).emitted
    ensures s.phase.Finished? ==> Next(s, step).phase == s.phase && Next(s, step).emitted == s.emitted
  {}

  lemma {:induction false} RunForgets(s: Session, steps: seq<Step>)
    requires CanRun(s, steps)
    ensures Run(s, steps).targets == s.targets && Run(s, steps).pending <= s.pending
    ensures s.phase.Finished? ==> Run(s, steps).phase == s.phase && Run(s, steps).emitted == s.emitted
    ensures exists more :: Run(s, steps).emitted == s.emitted + more
    decreases |steps|
  {
    if steps == [] {
      assert s.emitted == s.emitted + [];
    } else {
      hide Enabled, Next;
      NextForgets(s, steps[0]);
      var s' := Next(s, steps[0]);
      RunForgets(s', steps[1..]);
      var more :| Run(s', steps[1..]).emitted == s'.emitted + more;
      var first := s'.emitted[|s.emitted|..];
      assert s'.emitted == s.emitted + first;
      assert Run(s, steps).emitted == s.emitted + (first + more);
    }
  }

  // From the start of a broadcast, at every point of every run: each agent's
  // slot is taken at most once, no result is dropped, total minus accounted is
  // the number pending, and no agent is reported twice.
  lemma BroadcastSafety(targets: set<AgentId>, steps: seq<Step>)
    requires CanRun(Start(targets), steps)
    ensures var s := Run(Start(targets), steps);
            && s.targets == targets && s.dropped == 0
            && |targets| - |Claimed(s)| == |s.pending|
            && |Claimed(s)| == |s.inFlight| + |s.queue| + |s.emitted|
            && (forall i, j | 0 <= i < j < |s.emitted| :: s.emitted[i].agent != s.emitted[j].agent)
            && (forall r <- s.emitted :: r.agent in Claimed(s))
  {
    StartInv(targets);
    RunInv(Start(targets), steps);
    RunForgets(Start(targets), steps);
    var s := Run(Start(targets), steps);
    assert targets == Claimed(s) + s.pending;
    forall i | 0 <= i < |s.emitted| ensures s.emitted[i] == Sent(s)[i] {}
  }

  // First terminal event wins: once an agent's slot has been claimed, by a real
  // response or a synthetic failure, no later event for it changes anything.
  lemma ClaimedForGood(s: Session, r: Result, steps: seq<Step>, late: Result)
    requires CanRun(Next(s, Claim(r)), steps) && late.agent == r.agent
    ensures var t := Run(Next(s, Claim(r)), steps);
            late.agent !in t.pending && Next(t, Claim(late)) == t
  {
    RunForgets(Next(s, Claim(r)), steps);
  }

  // A dispatcher blocked in select is never waiting for nothing.
  lemma WaitingHasWork(targets: set<AgentId>, steps: seq<Step>)
    requires CanRun(Start(targets), steps)
    ensures var s := Run(Start(targets), steps);
            s.phase.Selecting? ==> s.pending != {} || s.inFlight != {} || s.queue != []
  {
    StartInv(targets);
    RunInv(Start(targets), steps);
  }

  // The step that completes a broadcast leaves out exactly the results whose
  // claimers had not reached their send; with none of those, everybody's result
  // has been handed out.
  lemma CompletionGap(s: Session)
    requires Inv(s) && s.phase == Draining && s.queue == []
    ensures Next(s, Drain).phase == Finished(Complete)
    ensures forall a <- s.targets :: InFlightTo(s, a) != exists r <- s.emitted :: r.agent == a
    ensures (forall a <- s.targets :: exists r <- s.emitted :: r.agent == a) <==> s.inFlight == {}
  {
    assert Sent(s) == s.emitted;
    forall a <- s.targets ensures SentTo(s, a) <==> exists r <- s.emitted :: r.agent == a {
      if r :| r in s.emitted && r.agent == a {
        var i :| 0 <= i < |s.emitted| && s.emitted[i] == r;
      }
      if i :| 0 <= i < |Sent(s)| && Sent(s)[i].agent == a {
        assert s.emitted[i] in s.emitted;
      }
    }
    forall r <- s.inFlight ensures InFlightTo(s, r.agent) {}
  }

  // A completed broadcast has accounted for everyone, and stays that way.
  lemma CompleteMeansAccounted(targets: set<AgentId>, steps: seq<Step>)
    requires CanRun(Start(targets), steps)
    ensures Run(Start(targets), steps).phase == Finished(Complete) ==> Run(Start(targets), steps).pending == {}
  {
    StartInv(targets);
    RunInv(Start(targets), steps);
  }

  // The gap is real, without a tick and without a timeout: the last claimer is
  // overtaken by the dispatcher, which reports completion one result short.
  lemma ResultOvertaken(r: Result)
    ensures var steps := [Claim(r), Check, Drain, Send(r)];
            && CanRun(Start({r.agent}), steps)
            && Run(Start({r.agent}), steps).phase == Finished(Complete)
            && Run(Start({r.agent}), steps).emitted == []
            && Run(Start({r.agent}), steps).queue == [r]
  {
    var s0 := Start({r.agent});
    var s1 := Next(s0, Claim(r));
    assert s1.pending == {} && s1.inFlight == {r};
    var s2 := Next(s1, Check);
    var s3 := Next(s2, Drain);
    RunUnfold(s0, [Claim(r), Check, Drain, Send(r)]);
    RunUnfold(s1, [Check, Drain, Send(r)]);
    RunUnfold(s2, [Drain, Send(r)]);
    RunUnfold(s3, [Send(r)]);
  }

  lemma RunUnfold(s: Session, steps: seq<Step>)
    requires steps != [] && Enabled(s, steps[0])
    ensures CanRun(Next(s, steps[0]), steps[1..]) <==> CanRun(s, steps)
    ensures CanRun(s, steps) ==> Run(s, steps) == Run(Next(s, steps[0]), steps[1..])
  {}

  // A broadcast ends by the step its outcome names, and complete only with nobody
  // pending and nothing queued.
  lemma OutcomeMeans(targets: set<AgentId>, steps: seq<Step>, step: Step)
    requires CanRun(Start(targets), steps)
    ensures var s := Run(Start(targets), steps);
            Enabled(s, step) && !s.phase.Finished? && Next(s, step).phase.Finished? ==>
              && (Next(s, step).phase == Finished(HardTimeout) <==> step.TimeOut?)
              && (Next(s, step).phase == Finished(Canceled) <==> step.Cancel?)
              && (Next(s, step).phase == Finished(Complete) ==> step.Drain? && s.pending == {} && s.queue == [])
  {
    StartInv(targets);
    RunInv(Start(targets), steps);
  }

  // The first event for r's agent among these steps is r.
  ghost predicate FirstFor(steps: seq<Step>, r: Result) {
    exists i :: 0 <= i < |steps| && steps[i] == Claim(r) && forall j | 0 <= j < i && steps[j].Claim? :: steps[j].r.agent != r.agent
  }

  ghost predicate Held(s: Session, r: Result) {
    r in s.inFlight || r in s.queue || r in s.emitted
  }

  // Whatever a broadcast holds or has shown of an agent is the first event there was
  // for it, unaltered.
  lemma {:induction false} FirstEventWins(targets: set<AgentId>, steps: seq<Step>, r: Result)
    requires CanRun(Start(targets), steps) && Held(Run(Start(targets), steps), r)
    ensures FirstFor(steps, r)
    decreases |steps|
  {
    if steps != [] {
      var init, step := steps[..|steps| - 1], steps[|steps| - 1];
      assert steps == init + [step];
      RunLast(Start(targets), init, step);
      var s := Run(Start(targets), init);
      if Held(s, r) {
        FirstEventWins(targets, init, r);
        var i :| 0 <= i < |init| && init[i] == Claim(r) && forall j | 0 <= j < i && init[j].Claim? :: init[j].r.agent != r.agent;
        assert steps[i] == Claim(r);
      } else {
        HeldByClaim(s, step, r);
        forall j | 0 <= j < |init| && init[j].Claim? ensures init[j].r.agent != r.agent {
          ClaimedBefore(targets, init, j);
        }
      }
    }
  }

  lemma HeldByClaim(s: Session, step: Step, r: Result)
    requires Enabled(s, step) && Held(Next(s, step), r) && !Held(s, r)
    ensures step == Claim(r) && r.agent in s.pending
  {}

  lemma {:induction false} RunLast(s: Session, init: seq<Step>, step: Step)
    requires CanRun(s, init + [step])
    ensures CanRun(s, init) && Enabled(Run(s, init), step) && Run(s, init + [step]) == Next(Run(s, init), step)
    decreases |init|
  {
    var steps := init + [step];
    if init == [] {
      assert steps == [step] && steps[1..] == [];
    } else {
      assert steps[1..] == init[1..] + [step];
      RunLast(Next(s, init[0]), init[1..], step);
    }
  }

  lemma {:induction false} ClaimedBefore(targets: set<AgentId>, steps: seq<Step>, j: nat)
    requires CanRun(Start(targets), steps) && j < |steps| && steps[j].Claim?
    ensures steps[j].r.agent !in Run(Start(targets), steps).pending
    decreases |steps|
  {
    var init, step := steps[..|steps| - 1], steps[|steps| - 1];
    assert steps == init + [step];
    RunLast(Start(targets), init, step);
    NextForgets(Run(Start(targets), init), step);
    if j < |init| {
      ClaimedBefore(targets, init, j);
    }
  }

  // --------------------------------------------------------------------
  // Termination and progress
  // --------------------------------------------------------------------

  function PhaseWeight(p: Phase): nat {
    match p
    case Checking => 3
    case Selecting => 2
    case Draining => 1
    case Finished(_) => 0
  }

  function Weight(s: Session): nat {
    4 * |s.pending| + 3 * |s.inFlight| + 2 * |s.queue| + PhaseWeight(s.phase)
  }

  // Progress ticks and events for agents already accounted change nothing that
  // matters; every other step uses up some of a fixed budget.
  ghost predicate Effective(s: Session, step: Step) {
    !step.Tick? && (step.Claim? ==> step.r.agent in s.pending)
  }

  lemma StepUsesBudget(s: Session, step: Step)
    requires Inv(s) && Enabled(s, step) && Effective(s, step)
    ensures Weight(Next(s, step)) < Weight(s)
  {
    if step.Claim? {
      ClaimUsesBudget(s, step.r);
    } else if step.Send? {
      SendUsesBudget(s, step.r);
    } else {
      hide Inv;
    }
  }

  lemma ClaimUsesBudget(s: Session, r: Result)
    requires Inv(s) && Enabled(s, Claim(r)) && Effective(s, Claim(r))
    ensures Weight(Next(s, Claim(r))) < Weight(s)
  {
    FreshClaim(s, r);
    hide Inv;
    assert |s.pending - {r.agent}| == |s.pending| - 1;
  }

  lemma SendUsesBudget(s: Session, r: Result)
    requires Inv(s) && Enabled(s, Send(r))
    ensures Weight(Next(s, Send(r))) < Weight(s)
  {
    SendHasRoom(s, r);
    hide Inv;
    assert |s.inFlight - {r}| == |s.inFlight| - 1;
  }

  ghost predicate AllEffective(s: Session, steps: seq<Step>)
    requires CanRun(s, steps)
    decreases |steps|
  {
    steps != [] ==> Effective(s, steps[0]) && AllEffective(Next(s, steps[0]), steps[1..])
  }

  lemma {:induction false} RunUsesBudget(s: Session, steps: seq<Step>)
    requires Inv(s) && CanRun(s, steps) && AllEffective(s, steps)
    ensures |steps| + Weight(Run(s, steps)) <= Weight(s)
    decreases |steps|
  {
    if steps != [] {
      StepUsesBudget(s, steps[0]);
      StepInv(s, steps[0]);
      RunUsesBudget(Next(s, steps[0]), steps[1..]);
    }
  }

  // No broadcast takes more than this many steps that do anything.
  lemma BroadcastLength(targets: set<AgentId>, steps: seq<Step>)
    requires CanRun(Start(targets), steps) && AllEffective(Start(targets), steps)
    ensures |steps| <= 4 * |targets| + 3
  {
    StartInv(targets);
    RunUsesBudget(Start(targets), steps);
  }

  // Once every agent is accounted for, the dispatcher finishes on its own:
  // until it has, a step other than a timeout, a cancellation or a tick is
  // possible and brings the end nearer.
  lemma CompletionNeedsNoTimeout(s: Session) returns (step: Step)
    requires Inv(s) && s.pending == {} && !s.phase.Finished?
    ensures Enabled(s, step) && !step.TimeOut? && !step.Cancel? && Effective(s, step)
    ensures Weight(Next(s, step)) < Weight(s)
  {
    if s.phase == Checking {
      step := Check;
    } else if s.phase == Draining {
      step := Drain;
    } else if s.queue != [] {
      step := Receive;
    } else {
      var r :| r in s.inFlight;
      step := Send(r);
    }
    StepUsesBudget(s, step);
  }

  // From wherever the dispatcher is about to check with nothing under way, the
  // broadcast can still complete: every agent that is pending answers in turn.
  lemma {:induction false} CanComplete(s: Session) returns (steps: seq<Step>)
    requires s.phase == Checking && s.inFlight == {} && s.queue == [] && s.pending <= s.targets
    ensures CanRun(s, steps) && Run(s, steps).phase == Finished(Complete)
    decreases |s.pending|
  {
    if s.pending == {} {
      assert CanRun(Next(Next(s, Check), Drain), []);
      OneMore(Next(s, Check), Drain, []);
      OneMore(s, Check, [Drain]);
      steps := [Check, Drain];
    } else {
      var a :| a in s.pending;
      var r := Result(a, Real);
      var checked := Next(s, Check);
      var claimed := Next(checked, Claim(r));
      var sent := Next(claimed, Send(r));
      assert |s.targets| > 0;
      assert sent.queue == [r] && sent.inFlight == {};
      var rest := CanComplete(Next(sent, Receive));
      OneMore(sent, Receive, rest);
      OneMore(claimed, Send(r), [Receive] + rest);
      OneMore(checked, Claim(r), [Send(r)] + ([Receive] + rest));
      steps := [Check] + ([Claim(r)] + ([Send(r)] + ([Receive] + rest)));
      OneMore(s, Check, steps[1..]);
      assert steps == [Check] + steps[1..];
    }
  }

  lemma OneMore(s: Session, step: Step, rest: seq<Step>)
    requires Enabled(s, step) && CanRun(Next(s, step), rest)
    ensures CanRun(s, [step] + rest) && Run(s, [step] + rest) == Run(Next(s, step), rest)
  {
    assert ([step] + rest)[1..] == rest;
  }
}
