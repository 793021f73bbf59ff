// The per-key token bucket in front of the HTTP API.
module RateLimiter {

  // The value of one bucket.
  datatype Level = Level(tokens: real, lastTime: real)

  type Levels = map<string, Level>

  datatype Limits = Limits(rate: real, burst: int)

  datatype Call = Call(key: string, time: real)

  function Min(x: real, y: real): real {
    if x <= y then x else y
  }

  // Tokens earned over a stretch of time.
  function Earned(elapsed: real, l: Limits): real {
    elapsed * l.rate
  }

  function Refilled(b: Level, now: real, l: Limits): real {
    Min(l.burst as real, b.tokens + Earned(now - b.lastTime, l))
  }

  // Tokens a key has at a time: a key never seen has a full bucket.
  function Fill(m: Levels, key: string, now: real, l: Limits): real {
    if key in m then Refilled(m[key], now, l)
    else l.burst as real
  }

  function Admits(m: Levels, c: Call, l: Limits): bool {
    Fill(m, c.key, c.time, l) >= 1.0
  }

  function AfterCall(m: Levels, c: Call, l: Limits): Levels {
    m[c.key := Level(Fill(m, c.key, c.time, l) - (if Admits(m, c, l) then 1.0 else 0.0), c.time)]
  }

  class Bucket {
    var tokens: real
    var lastTime: real

    constructor (tokens: real, lastTime: real)
      ensures this.tokens == tokens && this.lastTime == lastTime
    {
      this.tokens, this.lastTime := tokens, lastTime;
    }

    ghost function Value(): Level
      reads this
    {
      Level(tokens, lastTime)
    }

    method Take(now: real, limits: Limits) returns (allowed: bool)
      modifies this
      ensures var have := Refilled(old(Value()), now, limits);
              allowed == (have >= 1.0) && Value() == Level(if allowed then have - 1.0 else have, now)
    {
      var elapsed := now - lastTime;
      tokens := tokens + Earned(elapsed, limits);
      if tokens > limits.burst as real {
        tokens := limits.burst as real;
      }
      lastTime := now;
      if tokens < 1.0 {
        return false;
      }
      tokens := tokens - 1.0;
      return true;
    }
  }

  class RateLimiter {
    var buckets: map<string, Bucket>
    const limits: Limits

    constructor (rate: real, burst: int)
      ensures Valid() && State() == map[] && limits == Limits(rate, burst) && buckets == map[]
    {
      limits := Limits(rate, burst);
      buckets := map[];
    }

    // No two keys share a bucket.
    ghost predicate Valid()
      reads this
    {
      forall j, k | j in buckets && k in buckets && j != k :: buckets[j] != buckets[k]
    }

    ghost function State(): Levels
      reads this, buckets.Values
    {
      map k | k in buckets :: buckets[k].Value()
    }

    method Allow(key: string, now: real) returns (allowed: bool)
      requires Valid()
      modifies this`buckets, buckets.Values
      ensures Valid() && fresh(buckets.Values - old(buckets.Values))
      ensures allowed == Admits(old(State()), Call(key, now), limits)
      ensures State() == AfterCall(old(State()), Call(key, now), limits)
    {
      if key !in buckets {
        var fullBucket := new Bucket(limits.burst as real, now);
        buckets := buckets[key := fullBucket];
      }
      EarnedAdds(now - now, 0.0, limits);
      assert Refilled(buckets[key].Value(), now, limits) == Fill(old(State()), key, now, limits);
      allowed := buckets[key].Take(now, limits);
    }
  }

  // --------------------------------------------------------------------
  // Runs
  // --------------------------------------------------------------------

  // The buckets before call i of a run from a new limiter.
  function Before(calls: seq<Call>, i: nat, l: Limits): Levels
    requires i <= |calls|
  {
    if i == 0 then map[] else AfterCall(Before(calls, i - 1, l), calls[i - 1], l)
  }

  predicate AllowedAt(calls: seq<Call>, i: nat, l: Limits)
    requires i < |calls|
  {
    Admits(Before(calls, i, l), calls[i], l)
  }

  // How many calls for key among calls[i..j] were let through.
  function Passed(calls: seq<Call>, key: string, i: nat, j: nat, l: Limits): nat
    requires i <= j <= |calls|
    decreases j - i
  {
    if i == j then 0
    else Passed(calls, key, i, j - 1, l) + if calls[j - 1].key == key && AllowedAt(calls, j - 1, l) then 1 else 0
  }

  predicate InTime(calls: seq<Call>) {
    forall i, j | 0 <= i <= j < |calls| :: calls[i].time <= calls[j].time
  }

  lemma EarnedAdds(x: real, y: real, l: Limits)
    ensures Earned(x + y, l) == Earned(x, l) + Earned(y, l)
    ensures l.rate >= 0.0 && x >= 0.0 ==> Earned(x, l) >= 0.0
    ensures Earned(0.0, l) == 0.0
  {}

  // What the window from i to j leaves to spend at j.
  function Room(calls: seq<Call>, key: string, i: nat, j: nat, l: Limits): real
    requires i <= j < |calls|
  {
    l.burst as real + Earned(calls[j].time - calls[i].time, l) - Passed(calls, key, i, j, l) as real
  }

  // One call takes at most one token, and only from its own key.
  function Taken(m: Levels, c: Call, key: string, l: Limits): real {
    if c.key == key && Admits(m, c, l) then 1.0 else 0.0
  }

  // Between two calls a key's tokens fall by what the first took and rise by
  // what the wait earned, up to the burst.
  lemma FillStep(m: Levels, c: Call, key: string, later: real, l: Limits)
    requires l.rate >= 0.0 && c.time <= later
    ensures Fill(AfterCall(m, c, l), key, later, l)
         == Min(l.burst as real, Fill(m, key, c.time, l) - Taken(m, c, key, l) + Earned(later - c.time, l))
  {
    hide Earned;
    EarnedAdds(later - c.time, 0.0, l);
    if key != c.key && key in m {
      var before := c.time - m[key].lastTime;
      EarnedAdds(before, later - c.time, l);
      assert before + (later - c.time) == later - m[key].lastTime;
    }
  }

  lemma RoomStep(calls: seq<Call>, key: string, i: nat, j: nat, l: Limits)
    requires i < j < |calls|
    ensures Room(calls, key, i, j, l)
         == Room(calls, key, i, j - 1, l) - Taken(Before(calls, j - 1, l), calls[j - 1], key, l) + Earned(calls[j].time - calls[j - 1].time, l)
  {}

  // The tokens at a call are the least room any window ending there leaves.
  lemma {:induction false} FillIsLeastRoom(calls: seq<Call>, key: string, j: nat, l: Limits) returns (full: nat)
    requires j < |calls| && InTime(calls) && l.rate >= 0.0
    ensures full <= j && Fill(Before(calls, j, l), key, calls[j].time, l) == Room(calls, key, full, j, l)
    ensures forall i | 0 <= i <= j :: Fill(Before(calls, j, l), key, calls[j].time, l) <= Room(calls, key, i, j, l)
  {
    EarnedAdds(0.0, 0.0, l);
    assert Room(calls, key, j, j, l) == l.burst as real;
    hide Earned, Room, Fill, Taken;
    if j == 0 {
      full := 0;
      FillStarts(key, calls[0].time, l);
    } else {
      full := FillIsLeastRoom(calls, key, j - 1, l);
      FillStep(Before(calls, j - 1, l), calls[j - 1], key, calls[j].time, l);
      forall i | 0 <= i < j ensures Fill(Before(calls, j, l), key, calls[j].time, l) <= Room(calls, key, i, j, l) {
        RoomStep(calls, key, i, j, l);
      }
      RoomStep(calls, key, full, j, l);
      if Fill(Before(calls, j, l), key, calls[j].time, l) == l.burst as real {
        full := j;
      }
    }
  }

  lemma FillStarts(key: string, now: real, l: Limits)
    ensures Fill(map[], key, now, l) == l.burst as real
  {}

  // A call passes exactly when every window ending at it still has a token
  // of room: burst + rate * length, less the calls passed in it.
  lemma AllowedIff(calls: seq<Call>, j: nat, l: Limits)
    requires j < |calls| && InTime(calls) && l.rate >= 0.0
    ensures AllowedAt(calls, j, l) <==> forall i | 0 <= i <= j :: Room(calls, calls[j].key, i, j, l) >= 1.0
  {
    hide Room, Fill, Before;
    var full := FillIsLeastRoom(calls, calls[j].key, j, l);
  }

  lemma {:induction false} EarnedBound(calls: seq<Call>, key: string, i: nat, j: nat, l: Limits)
    requires i <= j < |calls| && InTime(calls) && l.rate >= 0.0 && l.burst >= 0
    ensures Passed(calls, key, i, j + 1, l) as real <= l.burst as real + Earned(calls[j].time - calls[i].time, l)
  {
    hide Earned, Fill;
    EarnedAdds(0.0, 0.0, l);
    if calls[j].key == key && AllowedAt(calls, j, l) {
      AllowedIff(calls, j, l);
      assert Room(calls, key, i, j, l) >= 1.0;
    } else if i < j {
      EarnedBound(calls, key, i, j - 1, l);
      EarnedAdds(calls[j - 1].time - calls[i].time, calls[j].time - calls[j - 1].time, l);
      EarnedAdds(calls[j].time - calls[j - 1].time, 0.0, l);
      assert calls[j].time - calls[i].time == (calls[j - 1].time - calls[i].time) + (calls[j].time - calls[j - 1].time);
    }
  }

  lemma EarnedIs(elapsed: real, l: Limits)
    ensures Earned(elapsed, l) == elapsed * l.rate
  {}

  // No window of any run lets more than burst + rate * length calls through.
  lemma WindowBound(calls: seq<Call>, key: string, i: nat, j: nat, l: Limits)
    requires i <= j < |calls| && InTime(calls) && l.rate >= 0.0 && l.burst >= 0
    ensures Passed(calls, key, i, j + 1, l) as real <= l.burst as real + (calls[j].time - calls[i].time) * l.rate
  {
    hide Earned, Passed;
    EarnedBound(calls, key, i, j, l);
    EarnedIs(calls[j].time - calls[i].time, l);
  }

  lemma {:induction false} TokensInRange(calls: seq<Call>, j: nat, key: string, l: Limits)
    requires j <= |calls| && InTime(calls) && l.rate >= 0.0 && l.burst >= 0 && key in Before(calls, j, l)
    ensures 0.0 <= Before(calls, j, l)[key].tokens <= l.burst as real
    ensures exists i | 0 <= i < j :: calls[i].key == key && Before(calls, j, l)[key].lastTime == calls[i].time
  {
    var c, m := calls[j - 1], Before(calls, j - 1, l);
    hide Earned;
    if c.key == key {
      if key in m {
        TokensInRange(calls, j - 1, key, l);
        EarnedAdds(c.time - m[key].lastTime, 0.0, l);
      }
      assert Before(calls, j, l)[key].lastTime == calls[j - 1].time;
    } else {
      TokensInRange(calls, j - 1, key, l);
    }
  }

  // A caller that waits 1/rate between its calls is never refused, whatever
  // the others do.
  lemma SpacedCallsPass(calls: seq<Call>, j: nat, l: Limits)
    requires j < |calls| && InTime(calls) && l.rate > 0.0 && l.burst >= 1
    requires forall i | 0 <= i < j && calls[i].key == calls[j].key :: calls[j].time - calls[i].time >= 1.0 / l.rate
    ensures AllowedAt(calls, j, l)
  {
    var key, m := calls[j].key, Before(calls, j, l);
    var gap := 1.0 / l.rate;
    assert Earned(gap, l) == 1.0;
    hide Earned;
    if key in m {
      TokensInRange(calls, j, key, l);
      var wait := calls[j].time - m[key].lastTime;
      EarnedAdds(wait - gap, gap, l);
      assert (wait - gap) + gap == wait;
    }
  }
}
