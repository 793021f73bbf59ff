// When a registration window is closed by something other than the cap or its
// own timer.
module BatchWindows {
  import opened Options
  import opened RegistrationBatcher

  // Every timer still to come is the one the batcher tracks.
  ghost predicate Exclusive<R>(s: State<R>) {
    forall i <- s.armed + s.firing :: s.tracked == Some(i)
  }

  // The submit that fills the queue stops its timer too late: the timer has
  // expired and only waits for the lock.
  predicate StopFails<R>(s: State<R>, e: Event<R>, cap: int) {
    e.Submit? && |s.queue| + 1 >= cap && s.tracked.Some? && s.tracked.value in s.firing
  }

  // A timer hands over a queue that another timer was started for.
  predicate ClosesEarly<R>(s: State<R>, e: Event<R>) {
    e.TimerFire? && s.queue != [] && s.tracked != Some(e.t)
  }

  // One step leaves a stray timer exactly when it is a stop that fails, and
  // without a stray timer no window is closed early.
  lemma StrayExactlyByFailedStop<R>(s: State<R>, e: Event<R>, t: State<R>, cap: int)
    requires Windowed(s, cap) && Next(s, e, t, cap) && Exclusive(s)
    ensures Exclusive(t) <==> !StopFails(s, e, cap)
    ensures !ClosesEarly(s, e)
  {
    match e
    case Submit(p) =>
      if StopFails(s, e, cap) { assert s.tracked.value in t.armed + t.firing; }
    case Expire(i) =>
      assert t.armed + t.firing == s.armed + s.firing;
    case TimerFire(i) =>
      assert i in s.armed + s.firing;
    case Flush(b) =>
  }

  ghost predicate IsPath<R>(s: State<R>, states: seq<State<R>>, events: seq<Event<R>>, cap: int) {
    && |states| == |events| + 1 && states[0] == s
    && forall i | 0 <= i < |events| :: Next(states[i], events[i], states[i + 1], cap)
  }

  ghost predicate StopsInTime<R>(states: seq<State<R>>, events: seq<Event<R>>, cap: int)
    requires |states| == |events| + 1
  {
    forall i | 0 <= i < |events| :: !StopFails(states[i], events[i], cap)
  }

  lemma {:induction false} PathInv<R>(s: State<R>, states: seq<State<R>>, events: seq<Event<R>>, n: nat, cap: int)
    requires Inv(s, cap) && IsPath(s, states, events, cap) && n <= |events|
    ensures Inv(states[n], cap)
  {
    hide Inv, Next;
    if n > 0 {
      PathInv(s, states, events, n - 1, cap);
      StepInv(states[n - 1], events[n - 1], states[n], cap);
    }
  }

  lemma {:induction false} StaysExclusive<R>(s: State<R>, states: seq<State<R>>, events: seq<Event<R>>, n: nat, cap: int)
    requires Inv(s, cap) && Exclusive(s) && IsPath(s, states, events, cap) && n <= |events|
    requires StopsInTime(states, events, cap)
    ensures Exclusive(states[n]) && (n < |events| ==> !ClosesEarly(states[n], events[n]))
  {
    hide Next, Exclusive, ClosesEarly, StopFails, Conserved;
    if n > 0 {
      StaysExclusive(s, states, events, n - 1, cap);
      PathInv(s, states, events, n - 1, cap);
      StrayExactlyByFailedStop(states[n - 1], events[n - 1], states[n], cap);
    }
    if n < |events| {
      PathInv(s, states, events, n, cap);
      StrayExactlyByFailedStop(states[n], events[n], states[n + 1], cap);
    }
  }

  // In every run, all windows up to any point are closed only by the cap or by
  // their own timer, and no stray timer is left, exactly when no stop failed.
  lemma {:induction false} RunKeepsWindowsIff<R>(states: seq<State<R>>, events: seq<Event<R>>, cap: int)
    requires IsRun(states, events, cap)
    ensures (forall n | 0 <= n <= |events| :: Exclusive(states[n])) <==> StopsInTime(states, events, cap)
    ensures StopsInTime(states, events, cap) ==> forall n | 0 <= n < |events| :: !ClosesEarly(states[n], events[n])
  {
    hide Next, Exclusive, ClosesEarly, StopFails, Inv;
    NoTimerYet<R>(cap);
    assert IsPath(Initial(), states, events, cap);
    if StopsInTime(states, events, cap) {
      forall n | 0 <= n <= |events| ensures Exclusive(states[n]) && (n < |events| ==> !ClosesEarly(states[n], events[n])) {
        StaysExclusive(Initial(), states, events, n, cap);
      }
    }
    if forall n | 0 <= n <= |events| :: Exclusive(states[n]) {
      forall n | 0 <= n < |events| ensures !StopFails(states[n], events[n], cap) {
        PathInv(Initial(), states, events, n, cap);
        InvWindowed(states[n], cap);
        StrayExactlyByFailedStop(states[n], events[n], states[n + 1], cap);
      }
    }
  }

  lemma NoTimerYet<R>(cap: int)
    ensures Exclusive(Initial<R>()) && Inv(Initial<R>(), cap)
  {
    assert Flatten<R>([]) + [] == [];
  }

  lemma InvWindowed<R>(s: State<R>, cap: int)
    requires Inv(s, cap)
    ensures Windowed(s, cap)
  {}

  // A stray timer can always close a window early, in at most three more steps
  // of which none is a failed stop: it expires, a registration opens a window if
  // none is open, and it fires.
  lemma StrayClosesEarly<R>(s: State<R>, p: R, cap: int) returns (states: seq<State<R>>, events: seq<Event<R>>)
    requires Windowed(s, cap) && !Exclusive(s) && cap >= 2
    ensures IsPath(s, states, events, cap) && 1 <= |events| <= 3 && StopsInTime(states, events, cap)
    ensures ClosesEarly(states[|events| - 1], events[|events| - 1])
  {
    var i :| i in s.armed + s.firing && s.tracked != Some(i);
    var ready := if i in s.armed then s.(armed := s.armed - {i}, firing := s.firing + {i}) else s;
    states, events := [s], [];
    if i in s.armed {
      states, events := [s, ready], [Expire(i)];
    }
    if s.queue == [] {
      var open := Submitted(ready, p, cap);
      assert open.queue == [p] && i in open.firing && open.tracked != Some(i);
      states, events := states + [open], events + [Submit(p)];
    }
    var last := states[|events|];
    states, events := states + [Fired(last, i)], events + [TimerFire(i)];
  }

  // So, without further failed stops, a state is safe for ever exactly when it
  // has no stray timer.
  lemma SafeForeverIff<R(!new)>(s: State<R>, p: R, cap: int)
    requires Inv(s, cap) && cap >= 2
    ensures Exclusive(s) <==>
              forall states, events | IsPath(s, states, events, cap) && StopsInTime(states, events, cap) ::
                forall n | 0 <= n < |events| :: !ClosesEarly(states[n], events[n])
  {
    if Exclusive(s) {
      forall states, events, n: nat | IsPath(s, states, events, cap) && StopsInTime(states, events, cap) && n < |events| ensures !ClosesEarly(states[n], events[n]) {
        StaysExclusive(s, states, events, n, cap);
      }
    } else {
      var states, events := StrayClosesEarly(s, p, cap);
    }
  }

  // --------------------------------------------------------------------
  // The failing family is reachable at every cap that lets windows open
  // --------------------------------------------------------------------

  // The state after these registrations in a row, fewer than the cap.
  function Open<R>(regs: seq<R>): State<R> {
    if regs == [] then Initial() else State(regs, Some(0), {0}, {}, 1, [], {}, [], regs)
  }

  lemma {:induction false} OpenPath<R>(regs: seq<R>, cap: int) returns (states: seq<State<R>>, events: seq<Event<R>>)
    requires |regs| < cap
    ensures IsRun(states, events, cap) && |events| == |regs| && states[|events|] == Open(regs)
    ensures StopsInTime(states, events, cap)
    decreases |regs|
  {
    if regs == [] {
      states, events := [Initial()], [];
    } else {
      var init, p := regs[..|regs| - 1], regs[|regs| - 1];
      assert regs == init + [p];
      states, events := OpenPath(init, cap);
      OneMore(init, p, cap);
      states, events := states + [Open(regs)], events + [Submit(p)];
    }
  }

  lemma OneMore<R>(regs: seq<R>, p: R, cap: int)
    requires |regs| + 1 < cap
    ensures Submitted(Open(regs), p, cap) == Open(regs + [p])
  {
    if regs == [] { assert regs + [p] == [p]; }
  }

  // At any cap from two up, the server's 200 among them: the timer expires, the
  // registration that fills the queue cannot stop it, and the window that opens
  // next is handed over by it while its own timer still waits.
  lemma StaleTimerClosesNextWindow<R>(regs: seq<R>, next: R, cap: int) returns (states: seq<State<R>>, events: seq<Event<R>>)
    requires cap >= 2 && |regs| == cap
    ensures IsRun(states, events, cap) && |events| == cap + 3
    ensures StopFails(states[cap], events[cap], cap) && ClosesEarly(states[cap + 2], events[cap + 2])
    ensures states[cap + 3].batches == [regs, [next]] && 1 in states[cap + 3].armed
  {
    var init, p := regs[..cap - 1], regs[cap - 1];
    assert regs == init + [p];
    states, events := OpenPath(init, cap);
    var s := Open(init);
    var s1 := s.(armed := {}, firing := {0});
    var s2 := Submitted(s1, p, cap);
    assert s2.batches == [regs] && s2.queue == [] && s2.tracked.None? && s2.firing == {0} && s2.armed == {};
    var s3 := Submitted(s2, next, cap);
    assert s3.queue == [next] && s3.tracked == Some(1) && s3.armed == {1};
    assert {0} - {0} == {} && {} + {0} == {0};
    states, events := states + [s1, s2, s3, Fired(s3, 0)], events + [Expire(0), Submit(p), Submit(next), TimerFire(0)];
  }
}
