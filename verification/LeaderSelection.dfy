// Which members of a registration batch become zone leaders: at most one per
// source IP, failure domains first, nobody on reboot probation.
module LeaderSelection {
  import opened Agents

  datatype Reg = Reg(agent: AgentId, sourceIP: string, listenAddr: string)

  // domainOf: the failure domain of a listen address, "" if it has none.
  type Domains = string -> string

  // --------------------------------------------------------------------
  // Groups by source IP
  // --------------------------------------------------------------------

  // The indices below n registered from ip.
  function Members(batch: seq<Reg>, ip: string, n: nat): (r: seq<nat>)
    requires n <= |batch|
    ensures forall k | 0 <= k < |r| :: r[k] < n && batch[r[k]].sourceIP == ip
    ensures forall i | 0 <= i < n && batch[i].sourceIP == ip :: i in r
    ensures forall j, k | 0 <= j < k < |r| :: r[j] < r[k]
  {
    if n == 0 then []
    else Members(batch, ip, n - 1) + if batch[n - 1].sourceIP == ip then [n - 1] else []
  }

  function Group(batch: seq<Reg>, ip: string): seq<nat> {
    Members(batch, ip, |batch|)
  }

  predicate Seen(batch: seq<Reg>, ip: string) {
    exists i | 0 <= i < |batch| :: batch[i].sourceIP == ip
  }

  // A group's representative is its first member not on probation.
  ghost predicate IsRep(batch: seq<Reg>, flaky: set<AgentId>, rep: nat) {
    && rep < |batch| && batch[rep].agent !in flaky
    && forall i | 0 <= i < rep && batch[i].sourceIP == batch[rep].sourceIP :: batch[i].agent in flaky
  }

  ghost predicate AllFlaky(batch: seq<Reg>, flaky: set<AgentId>, ip: string) {
    forall i | 0 <= i < |batch| && batch[i].sourceIP == ip :: batch[i].agent in flaky
  }

  // A group's domain is its first member's.
  function GroupDomain(batch: seq<Reg>, ip: string, domainOf: Domains): string {
    var g := Group(batch, ip);
    if g == [] then "" else domainOf(batch[g[0]].listenAddr)
  }

  // The domain of a group is that of the address its first member listens on.
  lemma GroupDomainMeans(batch: seq<Reg>, i: nat, domainOf: Domains)
    requires i < |batch| && forall j | 0 <= j < i :: batch[j].sourceIP != batch[i].sourceIP
    ensures GroupDomain(batch, batch[i].sourceIP, domainOf) == domainOf(batch[i].listenAddr)
  {
    var g := Group(batch, batch[i].sourceIP);
    assert i in g;
    var k :| 0 <= k < |g| && g[k] == i;
    assert g[0] <= g[k];
  }

  lemma MembersStep(batch: seq<Reg>, ip: string, n: nat)
    requires n < |batch|
    ensures Members(batch, ip, n + 1) == Members(batch, ip, n) + if batch[n].sourceIP == ip then [n] else []
  {}

  // Where the batch first names ip.
  function FirstSeen(batch: seq<Reg>, ip: string): nat {
    var g := Group(batch, ip);
    if g == [] then |batch| else g[0]
  }

  lemma FirstSeenMeans(batch: seq<Reg>, i: nat)
    requires i < |batch|
    ensures FirstSeen(batch, batch[i].sourceIP) <= i
    ensures batch[FirstSeen(batch, batch[i].sourceIP)].sourceIP == batch[i].sourceIP
  {
    var g := Group(batch, batch[i].sourceIP);
    assert i in g;
    var k :| 0 <= k < |g| && g[k] == i;
    assert g[0] <= g[k];
  }

  // The source IPs of the batch in the order in which it names them.
  ghost predicate InBatchOrder(batch: seq<Reg>, ipOrder: seq<string>) {
    && (forall ip :: ip in ipOrder <==> Seen(batch, ip))
    && (forall j, k | 0 <= j < k < |ipOrder| :: FirstSeen(batch, ipOrder[j]) < FirstSeen(batch, ipOrder[k]))
  }

  function IP(batch: seq<Reg>, i: nat): string {
    if i < |batch| then batch[i].sourceIP else ""
  }

  // The groups among the first n registrations.
  ghost predicate Grouped(batch: seq<Reg>, n: nat, ipOrder: seq<string>, indexByIP: map<string, seq<nat>>)
    requires n <= |batch|
  {
    && NoDups(ipOrder)
    && (forall ip :: ip in ipOrder <==> ip in indexByIP)
    && (forall ip :: ip in indexByIP <==> Members(batch, ip, n) != [])
    && (forall ip <- indexByIP :: indexByIP[ip] == Members(batch, ip, n))
    && AllBefore(batch, ipOrder, n)
  }

  ghost predicate AllBefore(batch: seq<Reg>, ipOrder: seq<string>, n: nat)
    requires n <= |batch|
  {
    forall j, k | 0 <= j < k < |ipOrder| :: Before(batch, ipOrder[j], ipOrder[k], n)
  }

  ghost predicate Before(batch: seq<Reg>, a: string, b: string, n: nat)
    requires n <= |batch|
  {
    Members(batch, a, n) != [] && Members(batch, b, n) != [] && Members(batch, a, n)[0] < Members(batch, b, n)[0]
  }

  lemma GroupedStart(batch: seq<Reg>)
    ensures Grouped(batch, 0, [], map[])
  {}

  lemma GroupedStep(batch: seq<Reg>, n: nat, ipOrder: seq<string>, indexByIP: map<string, seq<nat>>)
    requires n < |batch| && Grouped(batch, n, ipOrder, indexByIP)
    ensures var ip := batch[n].sourceIP;
            if ip in indexByIP then Grouped(batch, n + 1, ipOrder, indexByIP[ip := indexByIP[ip] + [n]])
            else Grouped(batch, n + 1, ipOrder + [ip], indexByIP[ip := [n]])
  {
    hide Members, AllBefore;
    OrderStep(batch, n, ipOrder);
    if batch[n].sourceIP in indexByIP {
      KnownIP(batch, n, ipOrder, indexByIP);
    } else {
      NewIP(batch, n, ipOrder, indexByIP);
    }
  }

  lemma KnownIP(batch: seq<Reg>, n: nat, ipOrder: seq<string>, indexByIP: map<string, seq<nat>>)
    requires n < |batch| && Grouped(batch, n, ipOrder, indexByIP) && batch[n].sourceIP in indexByIP
    requires AllBefore(batch, ipOrder, n + 1)
    ensures var ip := batch[n].sourceIP; Grouped(batch, n + 1, ipOrder, indexByIP[ip := indexByIP[ip] + [n]])
  {
    hide Members, AllBefore, NoDups;
    forall ip ensures Members(batch, ip, n + 1) == Members(batch, ip, n) + if batch[n].sourceIP == ip then [n] else [] {
      MembersStep(batch, ip, n);
    }
  }

  lemma NewIP(batch: seq<Reg>, n: nat, ipOrder: seq<string>, indexByIP: map<string, seq<nat>>)
    requires n < |batch| && Grouped(batch, n, ipOrder, indexByIP) && batch[n].sourceIP !in indexByIP
    requires AllBefore(batch, ipOrder + [batch[n].sourceIP], n + 1)
    ensures var ip := batch[n].sourceIP; Grouped(batch, n + 1, ipOrder + [ip], indexByIP[ip := [n]])
  {
    hide Members, AllBefore;
    var here := batch[n].sourceIP;
    assert NoDups(ipOrder + [here]);
    hide NoDups;
    forall ip ensures Members(batch, ip, n + 1) == Members(batch, ip, n) + if here == ip then [n] else [] {
      MembersStep(batch, ip, n);
    }
    assert Members(batch, here, n + 1) == [n];
  }

  lemma OrderStep(batch: seq<Reg>, n: nat, ipOrder: seq<string>)
    requires n < |batch| && AllBefore(batch, ipOrder, n) && forall ip <- ipOrder :: Members(batch, ip, n) != []
    ensures AllBefore(batch, ipOrder, n + 1)
    ensures Members(batch, batch[n].sourceIP, n) == [] ==> AllBefore(batch, ipOrder + [batch[n].sourceIP], n + 1)
  {
    hide Before, Members;
    forall j, k | 0 <= j < k < |ipOrder| ensures Before(batch, ipOrder[j], ipOrder[k], n + 1) {
      BeforeStep(batch, ipOrder[j], ipOrder[k], n);
    }
    forall j | 0 <= j < |ipOrder| && Members(batch, batch[n].sourceIP, n) == [] ensures Before(batch, ipOrder[j], batch[n].sourceIP, n + 1) {
      NewComesLast(batch, ipOrder[j], n);
    }
  }

  lemma BeforeStep(batch: seq<Reg>, a: string, b: string, n: nat)
    requires n < |batch| && Before(batch, a, b, n)
    ensures Before(batch, a, b, n + 1)
  {
    MembersStep(batch, a, n);
    MembersStep(batch, b, n);
  }

  lemma NewComesLast(batch: seq<Reg>, a: string, n: nat)
    requires n < |batch| && Members(batch, a, n) != [] && Members(batch, batch[n].sourceIP, n) == []
    ensures Before(batch, a, batch[n].sourceIP, n + 1)
  {
    MembersStep(batch, a, n);
    MembersStep(batch, batch[n].sourceIP, n);
  }

  method GroupByIP(batch: seq<Reg>) returns (ipOrder: seq<string>, indexByIP: map<string, seq<nat>>)
    ensures NoDups(ipOrder) && InBatchOrder(batch, ipOrder)
    ensures forall ip :: ip in ipOrder <==> ip in indexByIP
    ensures forall ip <- indexByIP :: indexByIP[ip] == Group(batch, ip) && indexByIP[ip] != []
  {
    hide Grouped;
    ipOrder, indexByIP := [], map[];
    GroupedStart(batch);
    for i := 0 to |batch|
      invariant Grouped(batch, i, ipOrder, indexByIP)
    {
      GroupedStep(batch, i, ipOrder, indexByIP);
      var ip := batch[i].sourceIP;
      if ip !in indexByIP {
        ipOrder := ipOrder + [ip];
        ghost var was := indexByIP;
        indexByIP := indexByIP[ip := []];
        assert indexByIP[ip] + [i] == [i] && indexByIP[ip := [i]] == was[ip := [i]];
      }
      indexByIP := indexByIP[ip := indexByIP[ip] + [i]];
    }
    GroupedAll(batch, ipOrder, indexByIP);
  }

  lemma GroupedAll(batch: seq<Reg>, ipOrder: seq<string>, indexByIP: map<string, seq<nat>>)
    requires Grouped(batch, |batch|, ipOrder, indexByIP)
    ensures NoDups(ipOrder) && InBatchOrder(batch, ipOrder) && forall ip :: ip in ipOrder <==> ip in indexByIP
    ensures forall ip <- indexByIP :: indexByIP[ip] == Group(batch, ip) && indexByIP[ip] != []
  {
    forall ip ensures Members(batch, ip, |batch|) != [] <==> Seen(batch, ip) {
      if Members(batch, ip, |batch|) != [] {
        assert batch[Members(batch, ip, |batch|)[0]].sourceIP == ip;
      }
    }
    forall j, k | 0 <= j < k < |ipOrder| ensures FirstSeen(batch, ipOrder[j]) < FirstSeen(batch, ipOrder[k]) {
      assert Before(batch, ipOrder[j], ipOrder[k], |batch|);
    }
  }

  // rep == -1 when the whole group is on probation.
  method FindRep(batch: seq<Reg>, flaky: set<AgentId>, ip: string, indices: seq<nat>) returns (rep: int)
    requires indices == Group(batch, ip)
    ensures rep == -1 || (0 <= rep && IsRep(batch, flaky, rep) && batch[rep].sourceIP == ip)
    ensures rep == -1 <==> AllFlaky(batch, flaky, ip)
  {
    for k := 0 to |indices|
      invariant forall j | 0 <= j < k :: batch[indices[j]].agent in flaky
    {
      if batch[indices[k]].agent !in flaky {
        return indices[k];
      }
    }
    return -1;
  }

  // --------------------------------------------------------------------
  // The selection
  // --------------------------------------------------------------------

  // What the online leaders occupy before the batch is looked at.
  datatype Occupied = Occupied(ips: set<string>, domains: set<string>)

  ghost function IPsOf(batch: seq<Reg>, chosen: seq<nat>): set<string> {
    set i <- chosen :: IP(batch, i)
  }

  ghost function DomainsOf(batch: seq<Reg>, chosen: seq<nat>, domainOf: Domains): set<string> {
    (set i <- chosen :: GroupDomain(batch, IP(batch, i), domainOf)) - {""}
  }

  // Every promotion is one the fleet can bear: a slot was open, the agent is
  // its group's representative, and no leader sits on its IP.
  ghost predicate Sound(batch: seq<Reg>, flaky: set<AgentId>, openZL: int, taken: Occupied, chosen: seq<nat>) {
    && |chosen| <= (if openZL > 0 then openZL else 0)
    && (forall i <- chosen :: IsRep(batch, flaky, i) && batch[i].sourceIP !in taken.ips)
    && (forall j, k | 0 <= j < k < |chosen| :: IP(batch, chosen[j]) != IP(batch, chosen[k]))
  }

  // No slot stays open that a stable agent on a leaderless IP could take.
  ghost predicate Maximal(batch: seq<Reg>, flaky: set<AgentId>, openZL: int, taken: Occupied, chosen: seq<nat>) {
    |chosen| < openZL ==>
      forall ip | Seen(batch, ip) :: ip in taken.ips || ip in IPsOf(batch, chosen) || AllFlaky(batch, flaky, ip)
  }

  // The first `spread` promotions each brought a domain no leader had, and
  // nobody was promoted after them while a group could have brought another.
  ghost predicate DomainsFirst(batch: seq<Reg>, flaky: set<AgentId>, taken: Occupied, domainOf: Domains, chosen: seq<nat>, spread: nat) {
    && spread <= |chosen|
    && (forall k | 0 <= k < spread ::
          GroupDomain(batch, IP(batch, chosen[k]), domainOf) !in taken.domains + DomainsOf(batch, chosen[..k], domainOf))
    && (spread < |chosen| ==>
          forall ip | Seen(batch, ip) :: AllFlaky(batch, flaky, ip) || ip in taken.ips + IPsOf(batch, chosen[..spread])
                                         || GroupDomain(batch, ip, domainOf) in taken.domains + DomainsOf(batch, chosen[..spread], domainOf))
  }

  // Groups are served in the order of the batch: when one is promoted, each group seen
  // before it is on probation, already led, or, up to `spread`, of a domain already led.
  ghost predicate FirstComeFirst(batch: seq<Reg>, flaky: set<AgentId>, taken: Occupied, domainOf: Domains, chosen: seq<nat>, spread: nat) {
    && spread <= |chosen|
    && forall k, ip | 0 <= k < |chosen| && Seen(batch, ip) && FirstSeen(batch, ip) < FirstSeen(batch, IP(batch, chosen[k])) ::
         Passed(batch, flaky, taken, domainOf, chosen[..k], ip, k < spread)
  }

  // Nobody of this IP is promoted after these.
  ghost predicate Passed(batch: seq<Reg>, flaky: set<AgentId>, taken: Occupied, domainOf: Domains, chosen: seq<nat>, ip: string, spreading: bool) {
    || AllFlaky(batch, flaky, ip) || ip in taken.ips + IPsOf(batch, chosen)
    || (spreading && GroupDomain(batch, ip, domainOf) in taken.domains + DomainsOf(batch, chosen, domainOf))
  }

  lemma NextCome(batch: seq<Reg>, flaky: set<AgentId>, taken: Occupied, domainOf: Domains, ipOrder: seq<string>, g: nat, chosen: seq<nat>, spread: nat, rep: nat, spreading: bool)
    requires InBatchOrder(batch, ipOrder) && g < |ipOrder| && IP(batch, rep) == ipOrder[g]
    requires FirstComeFirst(batch, flaky, taken, domainOf, chosen, spread) && (spreading ==> spread == |chosen|)
    requires forall h | 0 <= h < g :: Passed(batch, flaky, taken, domainOf, chosen, ipOrder[h], spreading)
    ensures FirstComeFirst(batch, flaky, taken, domainOf, chosen + [rep], if spreading then spread + 1 else spread)
  {
    hide Passed, FirstSeen, Seen, IP;
    var more, spread' := chosen + [rep], if spreading then spread + 1 else spread;
    forall k, ip | 0 <= k < |more| && Seen(batch, ip) && FirstSeen(batch, ip) < FirstSeen(batch, IP(batch, more[k]))
      ensures Passed(batch, flaky, taken, domainOf, more[..k], ip, k < spread')
    {
      if k < |chosen| {
        assert more[..k] == chosen[..k];
      } else {
        assert more[..k] == chosen;
        var h :| 0 <= h < |ipOrder| && ipOrder[h] == ip;
      }
    }
  }

  lemma PromoteOne(batch: seq<Reg>, flaky: set<AgentId>, openZL: int, taken: Occupied, domainOf: Domains, chosen: seq<nat>, rep: nat)
    requires Sound(batch, flaky, openZL, taken, chosen) && |chosen| < openZL
    requires IsRep(batch, flaky, rep) && batch[rep].sourceIP !in taken.ips + IPsOf(batch, chosen)
    ensures Sound(batch, flaky, openZL, taken, chosen + [rep])
    ensures IPsOf(batch, chosen + [rep]) == IPsOf(batch, chosen) + {batch[rep].sourceIP}
    ensures DomainsOf(batch, chosen + [rep], domainOf) == DomainsOf(batch, chosen, domainOf) + ({GroupDomain(batch, batch[rep].sourceIP, domainOf)} - {""})
  {
    var more := chosen + [rep];
    assert forall i :: i in more <==> i in chosen || i == rep;
    assert forall ip :: ip in IPsOf(batch, more) <==> ip in IPsOf(batch, chosen) || ip == IP(batch, rep);
    assert forall j | 0 <= j < |chosen| :: chosen[j] in chosen;
  }

  lemma NothingChosen(batch: seq<Reg>, flaky: set<AgentId>, openZL: int, taken: Occupied, domainOf: Domains)
    ensures Sound(batch, flaky, openZL, taken, []) && DomainsFirst(batch, flaky, taken, domainOf, [], 0)
    ensures FirstComeFirst(batch, flaky, taken, domainOf, [], 0)
    ensures IPsOf(batch, []) == {} && DomainsOf(batch, [], domainOf) == {}
  {}

  lemma RepInBatch(batch: seq<Reg>, flaky: set<AgentId>, rep: nat)
    requires IsRep(batch, flaky, rep)
    ensures rep < |batch|
  {}

  lemma SpreadOne(batch: seq<Reg>, flaky: set<AgentId>, taken: Occupied, domainOf: Domains, chosen: seq<nat>, rep: nat)
    requires DomainsFirst(batch, flaky, taken, domainOf, chosen, |chosen|)
    requires GroupDomain(batch, IP(batch, rep), domainOf) !in taken.domains + DomainsOf(batch, chosen, domainOf)
    ensures DomainsFirst(batch, flaky, taken, domainOf, chosen + [rep], |chosen + [rep]|)
  {
    hide GroupDomain, DomainsOf;
    assert chosen[..|chosen|] == chosen;
    assert forall k | 0 <= k <= |chosen| :: (chosen + [rep])[..k] == chosen[..k];
  }

  // Pass 1 promotes groups whose IP and domain are both unrepresented.
  method SpreadDomains(batch: seq<Reg>, flaky: set<AgentId>, openZL: int, taken: Occupied, domainOf: Domains,
      ipOrder: seq<string>, reps: map<string, int>, domains: map<string, string>)
    returns (chosen: seq<nat>, now: Occupied)
    requires Surveyed(batch, flaky, domainOf, ipOrder, reps, domains)
    ensures Sound(batch, flaky, openZL, taken, chosen)
    ensures now == Occupied(taken.ips + IPsOf(batch, chosen), taken.domains + DomainsOf(batch, chosen, domainOf))
    ensures DomainsFirst(batch, flaky, taken, domainOf, chosen, |chosen|) && FirstComeFirst(batch, flaky, taken, domainOf, chosen, |chosen|)
    ensures |chosen| < openZL ==>
              forall ip <- ipOrder :: reps[ip] < 0 || ip in now.ips || domains[ip] in now.domains
  {
    hide IsRep, GroupDomain, Sound, IPsOf, DomainsOf, DomainsFirst, AllFlaky, FirstComeFirst, InBatchOrder;
    chosen, now := [], taken;
    NothingChosen(batch, flaky, openZL, taken, domainOf);
    if openZL <= 0 {
      return;
    }
    for g := 0 to |ipOrder|
      invariant Sound(batch, flaky, openZL, taken, chosen)
      invariant now == Occupied(taken.ips + IPsOf(batch, chosen), taken.domains + DomainsOf(batch, chosen, domainOf))
      invariant DomainsFirst(batch, flaky, taken, domainOf, chosen, |chosen|) && FirstComeFirst(batch, flaky, taken, domainOf, chosen, |chosen|)
      invariant forall k | 0 <= k < g :: reps[ipOrder[k]] < 0 || ipOrder[k] in now.ips || domains[ipOrder[k]] in now.domains
    {
      if openZL - |chosen| <= 0 {
        break;
      }
      var ip := ipOrder[g];
      if reps[ip] < 0 || ip in now.ips || domains[ip] in now.domains {
        continue;
      }
      PromoteOne(batch, flaky, openZL, taken, domainOf, chosen, reps[ip]);
      RepInBatch(batch, flaky, reps[ip]);
      SpreadOne(batch, flaky, taken, domainOf, chosen, reps[ip]);
      NextCome(batch, flaky, taken, domainOf, ipOrder, g, chosen, |chosen|, reps[ip], true);
      chosen := chosen + [reps[ip]];
      now := Occupied(now.ips + {ip}, if domains[ip] != "" then now.domains + {domains[ip]} else now.domains);
    }
  }

  // What is known about each group before the passes.
  ghost predicate Surveyed(batch: seq<Reg>, flaky: set<AgentId>, domainOf: Domains, ipOrder: seq<string>, reps: map<string, int>, domains: map<string, string>) {
    && InBatchOrder(batch, ipOrder)
    && (forall ip <- ipOrder :: ip in reps && ip in domains)
    && (forall ip <- ipOrder :: reps[ip] < 0 <==> AllFlaky(batch, flaky, ip))
    && (forall ip <- ipOrder :: reps[ip] >= 0 ==> IsRep(batch, flaky, reps[ip]) && batch[reps[ip]].sourceIP == ip)
    && (forall ip <- ipOrder :: domains[ip] == GroupDomain(batch, ip, domainOf))
  }

  // Pass 2 fills what is left across IPs that still have no leader.
  method FillDistinctIPs(batch: seq<Reg>, flaky: set<AgentId>, openZL: int, taken: Occupied, domainOf: Domains,
      ipOrder: seq<string>, reps: map<string, int>, domains: map<string, string>, first: seq<nat>, ips: set<string>)
    returns (chosen: seq<nat>)
    requires Surveyed(batch, flaky, domainOf, ipOrder, reps, domains) && Sound(batch, flaky, openZL, taken, first)
    requires ips == taken.ips + IPsOf(batch, first) && FirstComeFirst(batch, flaky, taken, domainOf, first, |first|)
    ensures Sound(batch, flaky, openZL, taken, chosen) && Maximal(batch, flaky, openZL, taken, chosen)
    ensures first <= chosen && (|first| >= openZL ==> chosen == first)
    ensures FirstComeFirst(batch, flaky, taken, domainOf, chosen, |first|)
  {
    hide IsRep, GroupDomain, Sound, IPsOf, DomainsOf, FirstComeFirst, FirstSeen;
    chosen := first;
    var ipHasZL := ips;
    if openZL - |chosen| <= 0 {
      return;
    }
    for g := 0 to |ipOrder|
      invariant Sound(batch, flaky, openZL, taken, chosen) && first <= chosen && FirstComeFirst(batch, flaky, taken, domainOf, chosen, |first|)
      invariant ipHasZL == taken.ips + IPsOf(batch, chosen)
      invariant forall k | 0 <= k < g :: reps[ipOrder[k]] < 0 || ipOrder[k] in ipHasZL
    {
      if openZL - |chosen| <= 0 {
        break;
      }
      var ip := ipOrder[g];
      if reps[ip] < 0 || ip in ipHasZL {
        continue;
      }
      PromoteOne(batch, flaky, openZL, taken, domainOf, chosen, reps[ip]);
      RepInBatch(batch, flaky, reps[ip]);
      NextCome(batch, flaky, taken, domainOf, ipOrder, g, chosen, |first|, reps[ip], false);
      chosen := chosen + [reps[ip]];
      ipHasZL := ipHasZL + {ip};
    }
  }

  method SelectLeaders(batch: seq<Reg>, flaky: set<AgentId>, openZL: int, taken: Occupied, domainOf: Domains)
    returns (chosen: seq<nat>, ghost spread: nat)
    ensures Sound(batch, flaky, openZL, taken, chosen)
    ensures Maximal(batch, flaky, openZL, taken, chosen)
    ensures DomainsFirst(batch, flaky, taken, domainOf, chosen, spread) && FirstComeFirst(batch, flaky, taken, domainOf, chosen, spread)
  {
    hide FirstComeFirst, FirstSeen, Sound, Maximal, AllFlaky, IPsOf, DomainsOf, DomainsFirst;
    var ipOrder, indexByIP := GroupByIP(batch);
    var reps: map<string, int>, domains: map<string, string> := map[], map[];
    for g := 0 to |ipOrder|
      invariant forall ip <- ipOrder[..g] :: ip in reps && ip in domains
      invariant forall ip <- ipOrder[..g] :: (reps[ip] < 0 <==> AllFlaky(batch, flaky, ip))
                                             && (reps[ip] >= 0 ==> IsRep(batch, flaky, reps[ip]) && batch[reps[ip]].sourceIP == ip)
      invariant forall ip <- ipOrder[..g] :: domains[ip] == GroupDomain(batch, ip, domainOf)
    {
      var ip := ipOrder[g];
      assert ipOrder[..g + 1] == ipOrder[..g] + [ip];
      var rep := FindRep(batch, flaky, ip, indexByIP[ip]);
      reps := reps[ip := rep];
      domains := domains[ip := domainOf(batch[indexByIP[ip][0]].listenAddr)];
    }
    assert ipOrder[..|ipOrder|] == ipOrder;
    var first, now := SpreadDomains(batch, flaky, openZL, taken, domainOf, ipOrder, reps, domains);
    chosen := FillDistinctIPs(batch, flaky, openZL, taken, domainOf, ipOrder, reps, domains, first, now.ips);
    spread := |first|;
    FilledAfterSpread(batch, flaky, openZL, taken, domainOf, ipOrder, reps, domains, first, now, chosen);
  }

  lemma FilledAfterSpread(batch: seq<Reg>, flaky: set<AgentId>, openZL: int, taken: Occupied, domainOf: Domains,
      ipOrder: seq<string>, reps: map<string, int>, domains: map<string, string>, first: seq<nat>, now: Occupied, chosen: seq<nat>)
    requires Surveyed(batch, flaky, domainOf, ipOrder, reps, domains) && DomainsFirst(batch, flaky, taken, domainOf, first, |first|)
    requires now == Occupied(taken.ips + IPsOf(batch, first), taken.domains + DomainsOf(batch, first, domainOf))
    requires |first| < openZL ==> forall ip <- ipOrder :: reps[ip] < 0 || ip in now.ips || domains[ip] in now.domains
    requires first <= chosen && (|first| >= openZL ==> chosen == first)
    ensures DomainsFirst(batch, flaky, taken, domainOf, chosen, |first|)
  {
    hide IsRep, GroupDomain, AllFlaky, IPsOf, DomainsOf, Seen;
    assert first[..|first|] == first;
    assert forall k | 0 <= k <= |first| :: chosen[..k] == first[..k];
  }

  // The IPs a leader could still be taken from.
  ghost function Eligible(batch: seq<Reg>, flaky: set<AgentId>, taken: Occupied): set<string> {
    set i | 0 <= i < |batch| && batch[i].sourceIP !in taken.ips && !AllFlaky(batch, flaky, batch[i].sourceIP) :: batch[i].sourceIP
  }

  lemma {:induction false} DistinctIPs(batch: seq<Reg>, chosen: seq<nat>)
    requires forall j, k | 0 <= j < k < |chosen| :: IP(batch, chosen[j]) != IP(batch, chosen[k])
    ensures |IPsOf(batch, chosen)| == |chosen|
  {
    if chosen == [] {
      assert IPsOf(batch, chosen) == {};
    } else {
      var init, last := chosen[..|chosen| - 1], chosen[|chosen| - 1];
      DistinctIPs(batch, init);
      assert chosen == init + [last];
      assert forall ip :: ip in IPsOf(batch, chosen) <==> ip in IPsOf(batch, init) || ip == IP(batch, last);
      assert IPsOf(batch, chosen) == IPsOf(batch, init) + {IP(batch, last)};
    }
  }

  lemma SubsetSize<T>(a: set<T>, b: set<T>)
    requires a <= b
    ensures |a| <= |b| && (b <= a ==> |a| == |b|)
  {
    assert b == a + (b - a);
  }

  // A sound and maximal selection fills as many slots as there are open slots
  // and eligible IPs, no fewer.
  lemma SlotsFilled(batch: seq<Reg>, flaky: set<AgentId>, openZL: int, taken: Occupied, chosen: seq<nat>)
    requires Sound(batch, flaky, openZL, taken, chosen) && Maximal(batch, flaky, openZL, taken, chosen)
    ensures var n := |Eligible(batch, flaky, taken)|;
            |chosen| == if openZL <= 0 then 0 else if openZL < n then openZL else n
  {
    DistinctIPs(batch, chosen);
    assert IPsOf(batch, chosen) <= Eligible(batch, flaky, taken);
    SubsetSize(IPsOf(batch, chosen), Eligible(batch, flaky, taken));
    if |chosen| < openZL {
      forall ip <- Eligible(batch, flaky, taken) ensures ip in IPsOf(batch, chosen) {
        assert Seen(batch, ip);
      }
    }
  }
}
