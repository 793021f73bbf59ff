// The batching window in front of role assignment: registrations queue up
// until a timer fires or the queue reaches its cap.
module RegistrationBatcher {
  import opened Agents
  import opened Options

  // queue, tracked: the batcher's own fields.  armed, firing: the runtime's
  // timers, waiting and past the point where stopping them has an effect.
  // batches: what has been handed over, in order; flushed: the ones whose
  // goroutine has run; answered: the registrations it answered, in order.
  datatype State<R(==)> = State(
    queue: seq<R>,
    tracked: Option<nat>,
    armed: set<nat>,
    firing: set<nat>,
    nextTimer: nat,
    batches: seq<seq<R>>,
    flushed: set<nat>,
    answered: seq<R>,
    submitted: seq<R>)

  datatype Event<R> = Submit(p: R) | Expire(t: nat) | TimerFire(t: nat) | Flush(b: nat)

  function Initial<R>(): State<R> {
    State([], None, {}, {}, 0, [], {}, [], [])
  }

  function StopTracked<R>(s: State<R>): State<R> {
    if s.tracked.None? then s else s.(tracked := None, armed := s.armed - {s.tracked.value})
  }

  function StartTimer<R>(s: State<R>): State<R> {
    s.(tracked := Some(s.nextTimer), armed := s.armed + {s.nextTimer}, nextTimer := s.nextTimer + 1)
  }

  function Submitted<R>(s: State<R>, p: R, cap: int): State<R> {
    var q := s.(queue := s.queue + [p], submitted := s.submitted + [p]);
    if |q.queue| >= cap then StopTracked(q.(queue := [], batches := q.batches + [q.queue]))
    else if q.tracked.None? then StartTimer(q)
    else q
  }

  function Fired<R>(s: State<R>, t: nat): State<R> {
    s.(queue := [], tracked := None, firing := s.firing - {t}, batches := if s.queue == [] then s.batches else s.batches + [s.queue])
  }

  ghost predicate Next<R>(s: State<R>, e: Event<R>, t: State<R>, cap: int) {
    match e
    case Submit(p) => t == Submitted(s, p, cap)
    case Expire(i) => i in s.armed && t == s.(armed := s.armed - {i}, firing := s.firing + {i})
    case TimerFire(i) => i in s.firing && t == Fired(s, i)
    case Flush(b) => b < |s.batches| && b !in s.flushed && t == s.(flushed := s.flushed + {b}, answered := s.answered + s.batches[b])
  }

  // --------------------------------------------------------------------
  // What every step keeps
  // --------------------------------------------------------------------

  function Flatten<R>(batches: seq<seq<R>>): seq<R> {
    if batches == [] then [] else Flatten(batches[..|batches| - 1]) + batches[|batches| - 1]
  }

  // The registrations of the batches already flushed.
  ghost function Due<R>(batches: seq<seq<R>>, flushed: set<nat>): multiset<R> {
    if batches == [] then multiset{}
    else Due(batches[..|batches| - 1], flushed) + if |batches| - 1 in flushed then multiset(batches[|batches| - 1]) else multiset{}
  }

  // Nothing is lost, doubled or reordered.
  ghost predicate Conserved<R>(s: State<R>) {
    && s.submitted == Flatten(s.batches) + s.queue
    && (forall b <- s.flushed :: b < |s.batches|)
    && multiset(s.answered) == Due(s.batches, s.flushed)
  }

  // A waiting queue has a timer that will come for it, and is below the cap.
  ghost predicate Windowed<R>(s: State<R>, cap: int) {
    && (|s.queue| < cap || s.queue == [])
    && (s.queue != [] ==> s.tracked.Some?)
    && (s.tracked.Some? ==> s.tracked.value in s.armed + s.firing)
    && (forall i <- s.armed + s.firing :: i < s.nextTimer)
    && s.armed !! s.firing
    && (forall k | 0 <= k < |s.batches| :: s.batches[k] != [] && (|s.batches[k]| <= cap || |s.batches[k]| == 1))
  }

  ghost predicate Inv<R>(s: State<R>, cap: int) {
    Conserved(s) && Windowed(s, cap)
  }

  lemma FlattenSnoc<R>(batches: seq<seq<R>>, b: seq<R>)
    ensures Flatten(batches + [b]) == Flatten(batches) + b
  {
    assert (batches + [b])[..|batches|] == batches;
  }

  lemma DueSnoc<R>(batches: seq<seq<R>>, b: seq<R>, flushed: set<nat>)
    requires |batches| !in flushed
    ensures Due(batches + [b], flushed) == Due(batches, flushed)
  {
    assert (batches + [b])[..|batches|] == batches;
  }

  lemma {:induction false} DueFlush<R>(batches: seq<seq<R>>, flushed: set<nat>, b: nat)
    requires b < |batches| && b !in flushed
    ensures Due(batches, flushed + {b}) == Due(batches, flushed) + multiset(batches[b])
  {
    var init := batches[..|batches| - 1];
    if b < |init| {
      DueFlush(init, flushed, b);
    } else {
      DueSame(init, flushed, flushed + {b});
    }
  }

  lemma {:induction false} DueSame<R>(batches: seq<seq<R>>, f: set<nat>, g: set<nat>)
    requires forall i | 0 <= i < |batches| :: i in f <==> i in g
    ensures Due(batches, f) == Due(batches, g)
  {
    if batches != [] { DueSame(batches[..|batches| - 1], f, g); }
  }

  lemma StepInv<R>(s: State<R>, e: Event<R>, t: State<R>, cap: int)
    requires Inv(s, cap) && Next(s, e, t, cap)
    ensures Inv(t, cap)
  {
    StepWindowed(s, e, t, cap);
    StepConserves(s, e, t, cap);
  }

  lemma StepConserves<R>(s: State<R>, e: Event<R>, t: State<R>, cap: int)
    requires Conserved(s) && Next(s, e, t, cap)
    ensures Conserved(t)
  {
    hide Flatten, Due;
    match e
    case Submit(p) =>
      hide Conserved, Submitted;
      SubmitConserves(s, p, cap);
    case Expire(i) =>
    case TimerFire(i) => HandOver(s, s.queue, []);
    case Flush(b) => DueFlush(s.batches, s.flushed, b);
  }

  lemma StepWindowed<R>(s: State<R>, e: Event<R>, t: State<R>, cap: int)
    requires Windowed(s, cap) && Next(s, e, t, cap)
    ensures Windowed(t, cap)
  {
    match e
    case Submit(p) =>
      assert s.nextTimer !in s.armed + s.firing;
      assert t.queue == [] || t.queue == s.queue + [p];
      assert t.batches == s.batches || t.batches == s.batches + [s.queue + [p]];
    case Expire(i) =>
      assert t.armed + t.firing == s.armed + s.firing;
    case TimerFire(i) =>
    case Flush(b) =>
  }

  lemma SubmitConserves<R>(s: State<R>, p: R, cap: int)
    requires Conserved(s)
    ensures Conserved(Submitted(s, p, cap))
  {
    hide Flatten, Due;
    HandOver(s, s.queue + [p], [p]);
    assert s.submitted + [p] == Flatten(s.batches) + (s.queue + [p]);
  }

  // A batch leaves the queue: it is now the last in the order.
  lemma HandOver<R>(s: State<R>, batch: seq<R>, more: seq<R>)
    requires Conserved(s) && batch == s.queue + more
    ensures s.submitted + more == Flatten(s.batches + [batch]) + []
    ensures Due(s.batches + [batch], s.flushed) == Due(s.batches, s.flushed)
  {
    FlattenSnoc(s.batches, batch);
    DueSnoc(s.batches, batch, s.flushed);
  }

  ghost predicate IsRun<R>(states: seq<State<R>>, events: seq<Event<R>>, cap: int) {
    && |states| == |events| + 1 && states[0] == Initial()
    && forall i | 0 <= i < |events| :: Next(states[i], events[i], states[i + 1], cap)
  }

  lemma {:induction false} RunInv<R>(states: seq<State<R>>, events: seq<Event<R>>, n: nat, cap: int)
    requires IsRun(states, events, cap) && n <= |events|
    ensures Inv(states[n], cap)
  {
    if n == 0 {
      assert Flatten<R>([]) + [] == [];
    } else {
      RunInv(states, events, n - 1, cap);
      StepInv(states[n - 1], events[n - 1], states[n], cap);
    }
  }

  lemma {:induction false} DueAll<R>(batches: seq<seq<R>>, flushed: set<nat>)
    ensures Due(batches, flushed) <= multiset(Flatten(batches))
    ensures (forall i | 0 <= i < |batches| :: i in flushed) ==> Due(batches, flushed) == multiset(Flatten(batches))
  {
    if batches != [] { DueAll(batches[..|batches| - 1], flushed); }
  }

  // In every run no registration is answered more often than it was
  // submitted, and when no timer and no flush is outstanding every one has
  // been answered: none waits in the queue.
  lemma AnsweredOnce<R>(states: seq<State<R>>, events: seq<Event<R>>, n: nat, cap: int)
    requires IsRun(states, events, cap) && n <= |events|
    ensures var s := states[n];
            && multiset(s.answered) <= multiset(s.submitted)
            && (s.armed + s.firing == {} && (forall b | 0 <= b < |s.batches| :: b in s.flushed) ==> s.queue == [] && multiset(s.answered) == multiset(s.submitted))
  {
    RunInv(states, events, n, cap);
    var s := states[n];
    DueAll(s.batches, s.flushed);
    assert multiset(s.submitted) == multiset(Flatten(s.batches)) + multiset(s.queue);
  }

  function Total<R>(batches: seq<seq<R>>): nat {
    |Flatten(batches)|
  }

  // Where registration k of the submission order went.
  ghost predicate LandsAt<R>(batches: seq<seq<R>>, k: nat, b: nat, i: nat) {
    b < |batches| && i < |batches[b]| && k == Total(batches[..b]) + i
  }

  // A registration is in exactly one batch at exactly one index, in
  // submission order, unless it is still queued.
  lemma {:induction false} LandsInOneBatch<R>(batches: seq<seq<R>>, k: nat)
    requires k < Total(batches)
    ensures exists b: nat, i: nat :: LandsAt(batches, k, b, i) && batches[b][i] == Flatten(batches)[k]
    ensures forall b: nat, i: nat, c: nat, j: nat :: LandsAt(batches, k, b, i) && LandsAt(batches, k, c, j) ==> b == c && i == j
  {
    var b, i := Locate(batches, k);
    assert LandsAt(batches, k, b, i);
    forall b: nat, i: nat, c: nat, j: nat | LandsAt(batches, k, b, i) && LandsAt(batches, k, c, j) ensures b == c && i == j {
      if b < c { TotalGrows(batches, b, c); }
      if c < b { TotalGrows(batches, c, b); }
    }
  }

  lemma {:induction false} Locate<R>(batches: seq<seq<R>>, k: nat) returns (b: nat, i: nat)
    requires k < Total(batches)
    ensures LandsAt(batches, k, b, i) && batches[b][i] == Flatten(batches)[k]
  {
    var init := batches[..|batches| - 1];
    if k < Total(init) {
      b, i := Locate(init, k);
      assert init[..b] == batches[..b];
    } else {
      b, i := |init|, k - Total(init);
    }
  }

  lemma {:induction false} TotalGrows<R>(batches: seq<seq<R>>, b: nat, c: nat)
    requires b < c <= |batches|
    ensures Total(batches[..b]) + |batches[b]| <= Total(batches[..c])
    decreases c
  {
    assert batches[..c] == batches[..c - 1] + [batches[c - 1]];
    FlattenSnoc(batches[..c - 1], batches[c - 1]);
    if b < c - 1 { TotalGrows(batches, b, c - 1); }
  }

  // A run of the window's own timer empties the queue.
  lemma WindowCloses<R>(s: State<R>, cap: int) returns (events: seq<Event<R>>, states: seq<State<R>>)
    requires Inv(s, cap) && s.queue != []
    ensures |events| <= 2 && |states| == |events| + 1 && states[0] == s
    ensures forall i | 0 <= i < |events| :: Next(states[i], events[i], states[i + 1], cap)
    ensures var last := states[|events|];
            last.queue == [] && last.tracked.None? && last.batches == s.batches + [s.queue]
  {
    var t := s.tracked.value;
    if t in s.armed {
      var mid := s.(armed := s.armed - {t}, firing := s.firing + {t});
      events, states := [Expire(t), TimerFire(t)], [s, mid, Fired(mid, t)];
    } else {
      events, states := [TimerFire(t)], [s, Fired(s, t)];
    }
  }

  // --------------------------------------------------------------------
  // The batcher
  // --------------------------------------------------------------------

  datatype Assignment = ZoneLeader | Relay(parent: AgentId)

  class PendingReg {
    const agent: AgentId
    var resp: seq<Assignment>

    constructor (agent: AgentId)
      ensures this.agent == agent && resp == []
    {
      this.agent, resp := agent, [];
    }
  }

  class Batcher {
    const batchCap: int
    var queue: seq<PendingReg>
    var timer: Option<nat>
    var armed: set<nat>
    var firing: set<nat>
    var nextTimer: nat
    var batches: seq<seq<PendingReg>>
    ghost var flushed: set<nat>
    ghost var answered: seq<PendingReg>
    ghost var submitted: seq<PendingReg>

    constructor (batchCap: int)
      ensures View() == Initial() && this.batchCap == batchCap && Inv(View(), batchCap)
    {
      this.batchCap := batchCap;
      queue, timer, armed, firing, nextTimer, batches := [], None, {}, {}, 0, [];
      flushed, answered, submitted := {}, [], [];
      new;
      assert Flatten<PendingReg>([]) + [] == [];
    }

    ghost function View(): State<PendingReg>
      reads this
    {
      State(queue, timer, armed, firing, nextTimer, batches, flushed, answered, submitted)
    }

    method Submit(p: PendingReg)
      requires Inv(View(), batchCap)
      modifies this
      ensures View() == Submitted(old(View()), p, batchCap) && Inv(View(), batchCap)
    {
      queue := queue + [p];
      submitted := submitted + [p];
      if |queue| >= batchCap {
        var batch := queue;
        queue := [];
        if timer.Some? {
          armed := armed - {timer.value};
          timer := None;
        }
        batches := batches + [batch];
      } else if timer.None? {
        timer := Some(nextTimer);
        armed := armed + {nextTimer};
        nextTimer := nextTimer + 1;
      }
      StepInv(old(View()), Event.Submit(p), View(), batchCap);
    }

    method TimerFire(t: nat)
      requires Inv(View(), batchCap) && t in firing
      modifies this
      ensures View() == Fired(old(View()), t) && Inv(View(), batchCap)
    {
      firing := firing - {t};
      var batch := queue;
      queue := [];
      timer := None;
      if |batch| > 0 {
        batches := batches + [batch];
      }
      StepInv(old(View()), Event.TimerFire(t), View(), batchCap);
    }

    // Each registration of the batch gets the assignment at its own index.
    // Every call to submit brings its own record, so a batch has no repeats.
    method FlushBatch(b: nat, assignments: seq<Assignment>)
      requires Inv(View(), batchCap) && b < |batches| && b !in flushed
      requires |assignments| == |batches[b]| && NoDups(batches[b])
      modifies this, batches[b]
      ensures Inv(View(), batchCap) && Next(old(View()), Event.Flush(b), View(), batchCap)
      ensures forall i | 0 <= i < |batches[b]| :: batches[b][i].resp == old(batches[b][i].resp) + [assignments[i]]
    {
      var batch := batches[b];
      for i := 0 to |batch|
        invariant View() == old(View())
        invariant forall j | 0 <= j < i :: batch[j].resp == old(batch[j].resp) + [assignments[j]]
        invariant forall j | i <= j < |batch| :: batch[j].resp == old(batch[j].resp)
      {
        var p := batch[i];
        p.resp := p.resp + [assignments[i]];
      }
      flushed := flushed + {b};
      answered := answered + batch;
      StepInv(old(View()), Event.Flush(b), View(), batchCap);
    }
  }
}
