// The per-broadcast bookkeeper every dispatcher shares: the first terminal
// event of an agent, real or synthetic, takes its slot and no other does.
module Accounting {
  import opened Agents

  const ARRIVALS_CAPACITY := 4096

  // How many of the times are later than cutoff.
  function CountAfter(times: seq<int>, cutoff: int): nat {
    if times == [] then 0
    else CountAfter(times[..|times| - 1], cutoff) + if times[|times| - 1] > cutoff then 1 else 0
  }

  // The positions in times that hold a later time.
  ghost function LaterThan(times: seq<int>, cutoff: int): set<nat> {
    set i | 0 <= i < |times| && times[i] > cutoff
  }

  lemma {:induction false} CountAfterMeans(times: seq<int>, cutoff: int)
    ensures CountAfter(times, cutoff) == |LaterThan(times, cutoff)|
  {
    if times != [] {
      var n := |times| - 1;
      CountAfterMeans(times[..n], cutoff);
      assert LaterThan(times, cutoff) == LaterThan(times[..n], cutoff) + (if times[n] > cutoff then {n} else {});
    } else {
      assert LaterThan(times, cutoff) == {};
    }
  }

  lemma {:induction false} CountAfterConcat(a: seq<int>, b: seq<int>, cutoff: int)
    ensures CountAfter(a + b, cutoff) == CountAfter(a, cutoff) + CountAfter(b, cutoff)
  {
    if b == [] {
      assert a + b == a;
    } else {
      assert (a + b)[..|a + b| - 1] == a + b[..|b| - 1];
      CountAfterConcat(a, b[..|b| - 1], cutoff);
    }
  }

  // The most recent n entries.
  function Recent(times: seq<int>, n: nat): seq<int> {
    if |times| <= n then times else times[|times| - n..]
  }

  lemma {:induction false} DistinctSize<T>(s: seq<T>)
    ensures |Elems(s)| <= |s|
    ensures |Elems(s)| == |s| <==> NoDups(s)
  {
    if s == [] {
      assert Elems(s) == {};
    } else {
      var init, last := s[..|s| - 1], s[|s| - 1];
      assert s == init + [last];
      DistinctSize(init);
      assert Elems(s) == Elems(init) + {last};
      if NoDups(s) {
        forall i | 0 <= i < |init| ensures init[i] != last { assert s[i] != s[|s| - 1]; }
      }
      if |Elems(s)| == |s| {
        forall i, j | 0 <= i < j < |s| ensures s[i] != s[j] {
          if j == |s| - 1 { assert s[i] in Elems(init); }
        }
      }
    }
  }

  // ring, read from the write index round, holds the most recent times.
  ghost predicate Ring(ring: seq<int>, n: nat, times: seq<int>) {
    && |ring| == ARRIVALS_CAPACITY && |times| == n
    && var at := n % ARRIVALS_CAPACITY;
       Recent(times, ARRIVALS_CAPACITY) == if n < ARRIVALS_CAPACITY then ring[..at] else ring[at..] + ring[..at]
  }

  lemma RingStep(ring: seq<int>, n: nat, times: seq<int>, now: int)
    requires |ring| == ARRIVALS_CAPACITY && |times| == n && (n > 0 ==> Ring(ring, n, times))
    ensures Ring(ring[n % ARRIVALS_CAPACITY := now], n + 1, times + [now])
  {}

  class SessionAccounting {
    var pending: set<AgentId>
    var total: nat
    var accounted: nat
    var arrivals: array?<int>
    var arrivalsI: nat

    // Agents claimed so far and when, oldest first.
    ghost var claims: seq<AgentId>
    ghost var claimTimes: seq<int>

    ghost predicate Valid()
      reads this, arrivals
    {
      && NoDups(claims) && Elems(claims) !! pending
      && accounted == arrivalsI == |claims|
      && Recorded()
    }

    // Once the ring exists it holds the recent claim times.
    ghost predicate Recorded()
      reads this`arrivals, this`arrivalsI, this`claimTimes, arrivals
    {
      && |claimTimes| == arrivalsI
      && (arrivalsI > 0 ==> arrivals != null)
      && (arrivals != null ==> Ring(arrivals[..], arrivalsI, claimTimes))
    }

    // Duplicates in the target list would make the totals disagree for ever;
    // target ids are primary keys, so there are none.
    constructor (targetIDs: seq<AgentId>)
      ensures Valid() && claims == [] && pending == Elems(targetIDs) && total == |targetIDs| && arrivals == null
      ensures total - accounted == |pending| <==> NoDups(targetIDs)
    {
      var waiting: set<AgentId> := {};
      for i := 0 to |targetIDs|
        invariant waiting == Elems(targetIDs[..i])
      {
        assert targetIDs[..i + 1] == targetIDs[..i] + [targetIDs[i]];
        waiting := waiting + {targetIDs[i]};
      }
      assert targetIDs[..|targetIDs|] == targetIDs;
      DistinctSize(targetIDs);
      pending, total, accounted := waiting, |targetIDs|, 0;
      arrivals, arrivalsI, claims, claimTimes := null, 0, [], [];
    }

    method ClaimAgent(agentID: AgentId, now: int) returns (first: bool)
      requires Valid()
      modifies this, arrivals
      ensures Valid() && total == old(total)
      ensures first <==> agentID in old(pending)
      ensures pending == old(pending) - {agentID}
      ensures claims == if first then old(claims) + [agentID] else old(claims)
      ensures claimTimes == if first then old(claimTimes) + [now] else old(claimTimes)
      ensures total - accounted - |pending| == old(total - accounted - |pending|)
      ensures arrivals == old(arrivals) || fresh(arrivals)
    {
      hide Recorded;
      assert agentID !in pending ==> pending - {agentID} == pending;
      if agentID !in pending {
        return false;
      }
      RecordArrival(now);
      NoDupsSnoc(claims, agentID);
      pending := pending - {agentID};
      accounted := accounted + 1;
      claims := claims + [agentID];
      return true;
    }

    // The ring is allocated by the first claim.
    method RecordArrival(now: int)
      requires Recorded()
      modifies this`arrivals, this`arrivalsI, this`claimTimes, arrivals
      ensures Recorded() && arrivalsI == old(arrivalsI) + 1 && claimTimes == old(claimTimes) + [now]
      ensures arrivals == old(arrivals) || fresh(arrivals)
    {
      if arrivals == null {
        arrivals := new int[ARRIVALS_CAPACITY];
      }
      ghost var was := arrivals[..];
      arrivals[arrivalsI % ARRIVALS_CAPACITY] := now;
      assert arrivals[..] == was[arrivalsI % ARRIVALS_CAPACITY := now];
      RingStep(was, arrivalsI, claimTimes, now);
      arrivalsI := arrivalsI + 1;
      claimTimes := claimTimes + [now];
    }

    // How many of the last ARRIVALS_CAPACITY claims fell inside the window.
    method ArrivalsSince(now: int, window: int) returns (count: nat)
      requires Valid()
      ensures count == CountAfter(Recent(claimTimes, ARRIVALS_CAPACITY), now - window)
    {
      var cutoff := now - window;
      count := 0;
      var scan := if arrivalsI < ARRIVALS_CAPACITY then arrivalsI else ARRIVALS_CAPACITY;
      for i := 0 to scan
        invariant arrivals != null || scan == 0
        invariant count == if arrivals == null then 0 else CountAfter(arrivals[..i], cutoff)
      {
        assert arrivals[..i + 1][..i] == arrivals[..i];
        if arrivals[i] > cutoff {
          count := count + 1;
        }
      }
      if arrivals != null {
        var at := arrivalsI % ARRIVALS_CAPACITY;
        if arrivalsI >= ARRIVALS_CAPACITY {
          assert arrivals[..scan] == arrivals[..at] + arrivals[at..];
          CountAfterConcat(arrivals[..at], arrivals[at..], cutoff);
          CountAfterConcat(arrivals[at..], arrivals[..at], cutoff);
        }
      }
    }

    method Remaining() returns (n: nat)
      ensures n == |pending|
    {
      n := |pending|;
    }
  }
}
