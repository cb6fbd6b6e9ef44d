/**
 * Port election over DNS-SD advertisements of the wireless-debugging service
 * (`_adb-tls-connect._tcp`): which resolved advertisement becomes the elected
 * `adbPort`, and which discovered advertisements are still waiting to be resolved.
 */
module DnsDiscover {
  import opened Wrappers
  import opened Numbers

  /** `NsdManager.FAILURE_ALREADY_ACTIVE`: a resolve is already running for this service. */
  const FailureAlreadyActive: int := 3

  /**
   * One advertisement as `NsdServiceInfo` reports it. `expirationTime` is the
   * value already parsed from the advertisement's `expirationTime:` text
   * (epoch milliseconds), `None` when absent or unparsable.
   */
  datatype Service = Service(serviceName: string, port: int, hostAddress: string, expirationTime: Option<int>)

  /** The current winner: elected port, its expiration time and its service name. */
  datatype Election = Election(adbPort: Option<int>, bestExpirationTime: Option<int>, bestServiceName: Option<string>)

  const NoWinner := Election(None, None, None)

  // ---------------------------------------------------------------------
  // The counter of a numbered service name: regex `\((\d+)\)`, first match.
  // ---------------------------------------------------------------------

  /** The end of the run of digits that starts at offset `i`. */
  function DigitRunEnd(s: string, i: nat): (j: nat)
    requires i <= |s|
    ensures i <= j <= |s|
    decreases |s| - i
  {
    if i < |s| && IsDigit(s[i]) then DigitRunEnd(s, i + 1) else i
  }

  /** `\d+` is greedy: the run holds only digits and stops before a non-digit. */
  lemma {:induction false} DigitRunIsMaximal(s: string, i: nat)
    requires i <= |s|
    ensures var j := DigitRunEnd(s, i); AllDigits(s[i..j]) && (j < |s| ==> !IsDigit(s[j]))
    decreases |s| - i
  {
    if i < |s| && IsDigit(s[i]) {
      DigitRunIsMaximal(s, i + 1);
      var j := DigitRunEnd(s, i);
      assert forall k :: 0 < k < j - i ==> s[i..j][k] == s[i + 1..j][k - 1];
    }
  }

  lemma {:induction false} DigitRunEndOf(s: string, i: nat, j: nat)
    requires i <= j < |s| && AllDigits(s[i..j]) && !IsDigit(s[j])
    ensures DigitRunEnd(s, i) == j
    decreases j - i
  {
    if i < j {
      assert s[i] == s[i..j][0];
      assert s[i + 1..j] == s[i..j][1..];
      DigitRunEndOf(s, i + 1, j);
    }
  }

  /** `\((\d+)\)` matches at offset `i`: an opening parenthesis, digits, a closing one. */
  predicate MatchesAt(s: string, i: nat) {
    i < |s| && s[i] == '(' &&
    var j := DigitRunEnd(s, i + 1); i + 1 < j < |s| && s[j] == ')'
  }

  /**
   * The regex search from offset `i` on: the value of the digits of the
   * leftmost match (`toIntOrNull`), -1 when there is no match or the digits do
   * not fit in 32 bits.
   */
  function CounterFrom(s: string, i: nat): int
    requires i <= |s|
    decreases |s| - i
  {
    if i == |s| then -1
    else if MatchesAt(s, i) then ParseInt(s[i + 1..DigitRunEnd(s, i + 1)]).GetOr(-1)
    else CounterFrom(s, i + 1)
  }

  /** The counter of a service name: the number in its first `(digits)` group, or -1. */
  function Counter(name: string): int {
    CounterFrom(name, 0)
  }

  /** The search skips offsets where the pattern does not match. */
  lemma {:induction false} CounterSkips(s: string, i: nat, m: nat)
    requires i <= m <= |s|
    requires forall k :: i <= k < m ==> !MatchesAt(s, k)
    ensures CounterFrom(s, i) == CounterFrom(s, m)
    decreases m - i
  {
    if i < m {
      CounterSkips(s, i + 1, m);
    }
  }

  /** Every counter lies between -1 and the largest 32-bit value. */
  lemma {:induction false} CounterRange(s: string, i: nat)
    requires i <= |s|
    ensures -1 <= CounterFrom(s, i) <= MaxInt
    decreases |s| - i
  {
    if i < |s| {
      if MatchesAt(s, i) {
        DigitRunIsMaximal(s, i + 1);
      } else {
        CounterRange(s, i + 1);
      }
    }
  }

  /** A name without an opening parenthesis is unnumbered. */
  lemma UnnumberedCounter(name: string)
    requires '(' !in name
    ensures Counter(name) == -1
  {
    CounterSkips(name, 0, |name|);
  }

  /**
   * The name a conflicting advertiser takes under mDNS renaming (section 9 of
   * RFC 6762), `base (n)`, has counter `n`.
   */
  lemma {:induction false} NumberedCounter(base: string, n: nat)
    requires '(' !in base && n <= MaxInt
    ensures Counter(base + " (" + DecimalNat(n) + ")") == n
  {
    var digits := DecimalNat(n);
    var name := base + " (" + digits + ")";
    var open := |base| + 1;
    var close := open + 1 + |digits|;
    assert name[open] == '(' && name[close] == ')';
    assert name[open + 1..close] == digits;
    DigitRunEndOf(name, open + 1, close);
    assert MatchesAt(name, open);
    forall k | 0 <= k < open
      ensures !MatchesAt(name, k)
    {
      assert name[k] != '(' by {
        if k < |base| { assert name[k] == base[k]; }
      }
    }
    CounterSkips(name, 0, open);
    DigitsValueOfDecimal(n);
  }

  /**
   * `strings.maxByOrNull { counter }`, as its index: scanning from the front,
   * a later element replaces the maximum only when its counter is strictly higher.
   */
  function HighestIndex(strings: seq<string>): (k: nat)
    requires strings != []
    ensures k < |strings|
  {
    if |strings| == 1 then 0
    else
      var m := HighestIndex(strings[..|strings| - 1]);
      if Counter(strings[m]) < Counter(strings[|strings| - 1]) then |strings| - 1 else m
  }

  /** `maxByOrNull` returns an element with the highest counter, the first one on ties. */
  lemma {:induction false} HighestIndexIsFirstMax(strings: seq<string>)
    requires strings != []
    ensures var k := HighestIndex(strings);
      (forall j :: 0 <= j < |strings| ==> Counter(strings[j]) <= Counter(strings[k])) &&
      (forall j :: 0 <= j < k ==> Counter(strings[j]) < Counter(strings[k]))
  {
    if |strings| > 1 {
      var earlier := strings[..|strings| - 1];
      HighestIndexIsFirstMax(earlier);
      assert forall j :: 0 <= j < |strings| - 1 ==> earlier[j] == strings[j];
    }
  }

  /** `getHighestNumberedString`: the fallback to the first element is dead on a non-empty list. */
  function HighestNumbered(strings: seq<string>): string
    requires strings != []
  {
    strings[HighestIndex(strings)]
  }

  /**
   * A candidate wins the name comparison against the current best exactly when
   * it carries the same name or a strictly higher counter.
   */
  lemma NameComparison(best: string, candidate: string)
    ensures HighestNumbered([best, candidate]) == candidate <==>
            candidate == best || Counter(candidate) > Counter(best)
  {
    var strings := [best, candidate];
    var k := HighestIndex(strings);
    HighestIndexIsFirstMax(strings);
    assert Counter(strings[0]) <= Counter(strings[k]) && Counter(strings[1]) <= Counter(strings[k]);
  }

  // ---------------------------------------------------------------------
  // The election rule (`updateIfNewest`).
  // ---------------------------------------------------------------------

  /** `update()`: port, expiration time and name are all taken from the candidate. */
  function Overwrite(s: Service): Election {
    Election(Some(s.port), s.expirationTime, Some(s.serviceName))
  }

  /** One run of `updateIfNewest` on a resolved advertisement. */
  function Elect(e: Election, s: Service): (r: Election)
    ensures r == e || r == Overwrite(s)
  {
    if e.adbPort.None? then Overwrite(s)
    else if s.expirationTime.Some? then
      if e.bestExpirationTime.None? || s.expirationTime.value > e.bestExpirationTime.value
      then Overwrite(s) else e
    else if s.serviceName == HighestNumbered([e.bestServiceName.GetOr(""), s.serviceName])
    then Overwrite(s)
    else e
  }

  /** When the candidate replaces the winner, stated without the name search. */
  predicate Accepts(e: Election, s: Service) {
    || e.adbPort.None?
    || (s.expirationTime.Some? &&
        (e.bestExpirationTime.None? || s.expirationTime.value > e.bestExpirationTime.value))
    || (s.expirationTime.None? &&
        var best := e.bestServiceName.GetOr("");
        s.serviceName == best || Counter(s.serviceName) > Counter(best))
  }

  /**
   * The election rule: a candidate replaces the winner (port, expiration and
   * name together) exactly when there is no winner yet; or it carries an
   * expiration time and none is recorded or its own is strictly later; or it
   * carries none and its name is the same or has a higher counter. Otherwise
   * nothing changes.
   */
  lemma ElectionRule(e: Election, s: Service)
    ensures Elect(e, s) == if Accepts(e, s) then Overwrite(s) else e
  {
    if e.adbPort.Some? && s.expirationTime.None? {
      NameComparison(e.bestServiceName.GetOr(""), s.serviceName);
    }
  }

  /** The winner after the advertisements `services` resolve in this order. */
  function ElectAll(e: Election, services: seq<Service>): Election {
    if services == [] then e
    else Elect(ElectAll(e, services[..|services| - 1]), services[|services| - 1])
  }

  predicate AllTimed(services: seq<Service>) {
    forall i :: 0 <= i < |services| ==> services[i].expirationTime.Some?
  }

  predicate AllUntimed(services: seq<Service>) {
    forall i :: 0 <= i < |services| ==> services[i].expirationTime.None?
  }

  /** The election rule restricted to advertisements that carry an expiration time. */
  function ElectTimed(e: Election, s: Service): Election
    requires s.expirationTime.Some?
  {
    if e.adbPort.None? || e.bestExpirationTime.None? || s.expirationTime.value > e.bestExpirationTime.value
    then Overwrite(s) else e
  }

  /** The election rule restricted to advertisements without an expiration time. */
  function ElectUntimed(e: Election, s: Service): Election {
    var best := e.bestServiceName.GetOr("");
    if e.adbPort.None? || s.serviceName == best || Counter(s.serviceName) > Counter(best)
    then Overwrite(s) else e
  }

  function ElectAllTimed(e: Election, services: seq<Service>): Election
    requires AllTimed(services)
  {
    if services == [] then e
    else ElectTimed(ElectAllTimed(e, services[..|services| - 1]), services[|services| - 1])
  }

  function ElectAllUntimed(e: Election, services: seq<Service>): Election {
    if services == [] then e
    else ElectUntimed(ElectAllUntimed(e, services[..|services| - 1]), services[|services| - 1])
  }

  lemma {:induction false} TimedFoldAgrees(e: Election, services: seq<Service>)
    requires AllTimed(services)
    ensures ElectAll(e, services) == ElectAllTimed(e, services)
  {
    if services != [] {
      var earlier := services[..|services| - 1];
      assert AllTimed(earlier) by {
        assert forall j :: 0 <= j < |earlier| ==> earlier[j] == services[j];
      }
      TimedFoldAgrees(e, earlier);
    }
  }

  lemma {:induction false} UntimedFoldAgrees(e: Election, services: seq<Service>)
    requires AllUntimed(services)
    ensures ElectAll(e, services) == ElectAllUntimed(e, services)
  {
    if services != [] {
      var earlier := services[..|services| - 1];
      var x := services[|services| - 1];
      assert AllUntimed(earlier) by {
        assert forall j :: 0 <= j < |earlier| ==> earlier[j] == services[j];
      }
      UntimedFoldAgrees(e, earlier);
      ElectionRule(ElectAll(e, earlier), x);
    }
  }

  /** `services[k]` has the latest expiration time and no earlier one has it too. */
  predicate IsFirstLatest(services: seq<Service>, k: nat)
    requires AllTimed(services)
  {
    k < |services| &&
    (forall j :: 0 <= j < |services| ==>
       services[j].expirationTime.value <= services[k].expirationTime.value) &&
    (forall j :: 0 <= j < k ==>
       services[j].expirationTime.value < services[k].expirationTime.value)
  }

  lemma {:induction false} LatestExpirationWinsTimed(services: seq<Service>) returns (k: nat)
    requires services != [] && AllTimed(services)
    ensures IsFirstLatest(services, k)
    ensures ElectAllTimed(NoWinner, services) == Overwrite(services[k])
  {
    var n := |services|;
    var earlier := services[..n - 1];
    var x := services[n - 1];
    if earlier == [] {
      assert ElectAllTimed(NoWinner, services) == ElectTimed(NoWinner, x);
      k := 0;
    } else {
      assert forall j :: 0 <= j < n - 1 ==> earlier[j] == services[j];
      k := LatestExpirationWinsTimed(earlier);
      if x.expirationTime.value > services[k].expirationTime.value {
        k := n - 1;
      }
    }
  }

  /**
   * Election monotonicity: when every advertisement carries an expiration time,
   * the winner is the advertisement with the latest one, the first seen on ties.
   */
  lemma LatestExpirationWins(services: seq<Service>)
    requires services != [] && AllTimed(services)
    ensures exists k :: (0 <= k < |services| && IsFirstLatest(services, k) &&
      ElectAll(NoWinner, services) == Overwrite(services[k]))
  {
    TimedFoldAgrees(NoWinner, services);
    var k := LatestExpirationWinsTimed(services);
  }

  /** No name in `services` has a higher counter than `services[k]`'s. */
  predicate HasTopCounter(services: seq<Service>, k: nat) {
    k < |services| &&
    forall j :: 0 <= j < |services| ==> Counter(services[j].serviceName) <= Counter(services[k].serviceName)
  }

  lemma {:induction false} HighestCounterWinsUntimed(services: seq<Service>) returns (k: nat)
    requires services != []
    ensures HasTopCounter(services, k)
    ensures ElectAllUntimed(NoWinner, services) == Overwrite(services[k])
  {
    var n := |services|;
    var earlier := services[..n - 1];
    var x := services[n - 1];
    if earlier == [] {
      assert ElectAllUntimed(NoWinner, services) == ElectUntimed(NoWinner, x);
      k := 0;
    } else {
      assert forall j :: 0 <= j < n - 1 ==> earlier[j] == services[j];
      k := HighestCounterWinsUntimed(earlier);
      if x.serviceName == services[k].serviceName || Counter(x.serviceName) > Counter(services[k].serviceName) {
        k := n - 1;
      }
    }
  }

  /**
   * Numbered-name fallback: when no advertisement carries an expiration time,
   * the winner is an advertisement whose name has the highest counter.
   */
  lemma HighestCounterWins(services: seq<Service>)
    requires services != [] && AllUntimed(services)
    ensures exists k :: (0 <= k < |services| && HasTopCounter(services, k) &&
      ElectAll(NoWinner, services) == Overwrite(services[k]))
  {
    UntimedFoldAgrees(NoWinner, services);
    var k := HighestCounterWinsUntimed(services);
  }

  lemma ExampleCounters()
    ensures Counter("ADB") == -1 && Counter("ADB (2)") == 2 && Counter("ADB (3)") == 3
  {
    UnnumberedCounter("ADB");
    assert "ADB (2)" == "ADB" + " (" + DecimalNat(2) + ")";
    NumberedCounter("ADB", 2);
    assert "ADB (3)" == "ADB" + " (" + DecimalNat(3) + ")";
    NumberedCounter("ADB", 3);
  }

  /**
   * `ADB`, `ADB (2)` and `ADB (3)` without expiration times, resolved in any
   * order, elect port 3.
   */
  lemma NumberedNamesExample(services: seq<Service>, host: string)
    requires multiset(services) == multiset{Service("ADB", 1, host, None), Service("ADB (2)", 2, host, None), Service("ADB (3)", 3, host, None)}
    ensures ElectAll(NoWinner, services).adbPort == Some(3)
  {
    var s1, s2, s3 := Service("ADB", 1, host, None), Service("ADB (2)", 2, host, None), Service("ADB (3)", 3, host, None);
    forall i | 0 <= i < |services|
      ensures services[i] == s1 || services[i] == s2 || services[i] == s3
    {
      assert services[i] in multiset(services);
    }
    assert AllUntimed(services);
    assert s3 in multiset(services);
    var j :| 0 <= j < |services| && services[j] == s3;
    HighestCounterWins(services);
    var k :| 0 <= k < |services| && HasTopCounter(services, k) && ElectAll(NoWinner, services) == Overwrite(services[k]);
    ExampleCounters();
    assert Counter(services[j].serviceName) == 3;
    assert services[k] == s3;
  }

  /** `handleResolvedService`'s filters: a non-zero port, and the local address when it is known. */
  predicate Admissible(s: Service, localIp: Option<string>) {
    !(localIp.Some? && s.hostAddress != localIp.value) && s.port != 0
  }

  /** `pendingServices.removeAll { it.serviceName == name }`, order kept. */
  function RemoveNamed(pending: seq<Service>, name: string): (r: seq<Service>)
    ensures forall x :: x in r <==> x in pending && x.serviceName != name
    ensures |r| <= |pending|
  {
    if pending == [] then []
    else if pending[0].serviceName == name then RemoveNamed(pending[1..], name)
    else [pending[0]] + RemoveNamed(pending[1..], name)
  }

  /** The discovery singleton, with the companion-object state folded into it. */
  class DnsDiscover {
    var started: bool
    var aliveTime: Option<int>
    var adbPort: Option<int>
    var bestExpirationTime: Option<int>
    var bestServiceName: Option<string>
    var pendingServices: seq<Service>
    var pendingResolves: bool

    function Winner(): Election
      reads this
    {
      Election(adbPort, bestExpirationTime, bestServiceName)
    }

    /**
     * The flag is up exactly while some advertisement awaits resolution; an
     * elected port is non-zero and has a name; discovery records when it began.
     */
    ghost predicate Valid()
      reads this
    {
      && pendingResolves == (pendingServices != [])
      && (adbPort.Some? ==> adbPort.value != 0 && bestServiceName.Some?)
      && (adbPort.None? ==> bestExpirationTime.None? && bestServiceName.None?)
      && (started ==> aliveTime.Some?)
    }

    constructor ()
      ensures Valid() && !started && aliveTime.None?
      ensures Winner() == NoWinner && pendingServices == []
    {
      started := false;
      aliveTime := None;
      adbPort, bestExpirationTime, bestServiceName := None, None, None;
      pendingServices := [];
      pendingResolves := false;
    }

    /**
     * `scanAdbPorts`: starts discovery once, recording `now` as `aliveTime`;
     * a second call changes nothing.
     */
    method ScanAdbPorts(now: int) returns (discoveryStarted: bool)
      requires Valid()
      modifies this
      ensures Valid()
      ensures discoveryStarted == !old(started)
      ensures old(started) ==> aliveTime == old(aliveTime) && started
      ensures !old(started) ==> started && aliveTime == Some(now)
      ensures Winner() == old(Winner()) && pendingServices == old(pendingServices)
      ensures pendingResolves == old(pendingResolves)
    {
      if started {
        return false;
      }
      started := true;
      aliveTime := Some(now);
      discoveryStarted := true;
    }

    /** `updateIfNewest`. */
    method UpdateIfNewest(s: Service)
      requires Valid() && s.port != 0
      modifies this
      ensures Valid()
      ensures Winner() == Elect(old(Winner()), s)
      ensures started == old(started) && aliveTime == old(aliveTime)
      ensures pendingServices == old(pendingServices) && pendingResolves == old(pendingResolves)
    {
      if adbPort == None {
        adbPort, bestExpirationTime, bestServiceName := Some(s.port), s.expirationTime, Some(s.serviceName);
        return;
      }
      if s.expirationTime != None {
        if bestExpirationTime == None {
          adbPort, bestExpirationTime, bestServiceName := Some(s.port), s.expirationTime, Some(s.serviceName);
          return;
        }
        if s.expirationTime.value > bestExpirationTime.value {
          adbPort, bestExpirationTime, bestServiceName := Some(s.port), s.expirationTime, Some(s.serviceName);
          return;
        } else {
          return;
        }
      }
      if s.serviceName == HighestNumbered([bestServiceName.GetOr(""), s.serviceName]) {
        adbPort, bestExpirationTime, bestServiceName := Some(s.port), s.expirationTime, Some(s.serviceName);
        return;
      }
    }

    /**
     * `handleResolvedService`: an advertisement from another host or with port
     * 0 is ignored; any other goes to the election.
     */
    method HandleResolvedService(s: Service, localIp: Option<string>)
      requires Valid()
      modifies this
      ensures Valid()
      ensures Winner() == if Admissible(s, localIp) then Elect(old(Winner()), s) else old(Winner())
      ensures started == old(started) && aliveTime == old(aliveTime)
      ensures pendingServices == old(pendingServices) && pendingResolves == old(pendingResolves)
    {
      if localIp.Some? && s.hostAddress != localIp.value {
        return;
      }
      if s.port == 0 {
        return;
      }
      UpdateIfNewest(s);
    }

    /** `onServiceFound`: the advertisement joins the pending list and the flag goes up. */
    method OnServiceFound(s: Service)
      requires Valid()
      modifies this
      ensures Valid()
      ensures pendingServices == old(pendingServices) + [s] && pendingResolves
      ensures Winner() == old(Winner()) && started == old(started) && aliveTime == old(aliveTime)
    {
      pendingServices := pendingServices + [s];
      pendingResolves := true;
    }

    /**
     * `onServiceResolved`: the election runs, every pending entry with the same
     * name leaves the list, and the flag drops only when the list is empty.
     */
    method OnServiceResolved(s: Service, localIp: Option<string>)
      requires Valid()
      modifies this
      ensures Valid()
      ensures Winner() == if Admissible(s, localIp) then Elect(old(Winner()), s) else old(Winner())
      ensures pendingServices == RemoveNamed(old(pendingServices), s.serviceName)
      ensures pendingResolves == (pendingServices != [])
      ensures started == old(started) && aliveTime == old(aliveTime)
    {
      HandleResolvedService(s, localIp);
      pendingServices := RemoveNamed(pendingServices, s.serviceName);
      if pendingServices == [] {
        pendingResolves := false;
      }
    }

    /**
     * `onResolveFailed`: only `FAILURE_ALREADY_ACTIVE` re-issues the resolve;
     * nothing is removed, so a pending advertisement keeps the flag up.
     */
    method OnResolveFailed(s: Service, errorCode: int) returns (reissued: bool)
      requires Valid()
      ensures reissued <==> errorCode == FailureAlreadyActive
      ensures s in pendingServices ==> pendingResolves
    {
      reissued := errorCode == FailureAlreadyActive;
    }
  }
}
