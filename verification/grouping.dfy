/** Offline grouping of an uploaded batch of events: which indexes belong to
    which source or account, and the findings drawn from the groups. */
module Grouping {
  import opened PyText

  datatype Event = Event(eventType: string, sourceIp: string, username: string, isService: bool,
                         timestamp: string, severity: string)

  const FAILURE := "authentication_failure"
  const SUCCESS := "authentication_success"

  // ── one pass over the events ──

  /** A dictionary of index lists, in insertion order. */
  datatype Groups<!K(==)> = Groups(keys: seq<K>, members: map<K, seq<nat>>)

  /** The declarative reading of a group: the ascending indexes below `n` of
      the events with key `k`. */
  function Indexes<K(==)>(events: seq<Event>, key: Event -> Option<K>, k: K, n: nat): (r: seq<nat>)
    requires n <= |events|
    ensures forall x | x in r :: x < n
  {
    if n == 0 then []
    else Indexes(events, key, k, n - 1) + if key(events[n - 1]) == Some(k) then [n - 1] else []
  }

  ghost predicate Agrees<K(!new)>(g: Groups<K>, events: seq<Event>, key: Event -> Option<K>, n: nat)
    requires n <= |events|
  {
    && (forall i, j | 0 <= i < j < |g.keys| :: g.keys[i] != g.keys[j])
    && (forall k :: k in g.keys <==> k in g.members)
    && (forall k :: Holds(g, events, key, k, n))
  }

  ghost predicate Holds<K>(g: Groups<K>, events: seq<Event>, key: Event -> Option<K>, k: K, n: nat)
    requires n <= |events|
  {
    var r := Indexes(events, key, k, n);
    if r == [] then k !in g.members else k in g.members && g.members[k] == r
  }

  /** One more index in the list of `k`, which starts out empty. */
  function Append<K(==)>(g: Groups<K>, k: K, i: nat): Groups<K> {
    if k in g.members then Groups(g.keys, g.members[k := g.members[k] + [i]])
    else Groups(g.keys + [k], g.members[k := [i]])
  }

  lemma AppendAgrees<K(!new)>(g: Groups<K>, events: seq<Event>, key: Event -> Option<K>, n: nat, next: nat)
    requires n < next == n + 1 <= |events| && Agrees(g, events, key, n)
    ensures Agrees(match key(events[n]) case None => g case Some(k) => Append(g, k, n), events, key, next)
  {
    match key(events[n])
    case None =>
      forall k
        ensures Holds(g, events, key, k, next)
      {
        assert Holds(g, events, key, k, n);
      }
    case Some(k0) =>
      var after := Append(g, k0, n);
      forall k
        ensures Holds(after, events, key, k, next)
      {
        assert Holds(g, events, key, k, n);
      }
  }

  /** The grouping loop every detector shares: `key` is None for an event the
      loop skips. */
  method GroupIndexes<K(==, !new)>(events: seq<Event>, key: Event -> Option<K>) returns (g: Groups<K>)
    ensures Agrees(g, events, key, |events|)
  {
    g := Groups([], map[]);
    assert forall k :: Holds(g, events, key, k, 0);
    for i := 0 to |events|
      invariant Agrees(g, events, key, i)
    {
      AppendAgrees(g, events, key, i, i + 1);
      var k := key(events[i]);
      if k.Some? {
        g := Append(g, k.value, i);
      }
    }
  }

  /** What a finished grouping says about one key. */
  lemma GroupOf<K(!new)>(g: Groups<K>, events: seq<Event>, key: Event -> Option<K>, k: K)
    requires Agrees(g, events, key, |events|)
    ensures k in g.keys <==> k in g.members
    ensures k in g.members <==> Indexes(events, key, k, |events|) != []
    ensures k in g.members ==> g.members[k] == Indexes(events, key, k, |events|)
  {
    assert Holds(g, events, key, k, |events|);
    hide Indexes;
  }

  // ── what a group is ──

  predicate Ascending(r: seq<nat>) {
    forall i, j | 0 <= i < j < |r| :: r[i] < r[j]
  }

  lemma AscendingAppend(r: seq<nat>, x: nat)
    requires Ascending(r) && forall y | y in r :: y < x
    ensures Ascending(r + [x])
  {
    forall i, j | 0 <= i < j < |r| + 1
      ensures (r + [x])[i] < (r + [x])[j]
    {
      assert r[i] in r;
    }
  }

  /** A group lists exactly the matching indexes, each once and ascending. */
  lemma {:induction false} IndexesExact<K>(events: seq<Event>, key: Event -> Option<K>, k: K, n: nat)
    requires n <= |events|
    ensures forall x: nat :: x in Indexes(events, key, k, n) <==> x < n && key(events[x]) == Some(k)
    ensures Ascending(Indexes(events, key, k, n))
  {
    if n > 0 {
      hide Ascending;
      IndexesExact(events, key, k, n - 1);
      AscendingAppend(Indexes(events, key, k, n - 1), n - 1);
    }
  }

  /** The events of one key, in no order. */
  function Matching<K(==)>(events: seq<Event>, key: Event -> Option<K>, k: K, n: nat): set<nat>
    requires n <= |events|
  {
    set x: nat | x < n && key(events[x]) == Some(k)
  }

  lemma {:induction false} IndexesCount<K>(events: seq<Event>, key: Event -> Option<K>, k: K, n: nat)
    requires n <= |events|
    ensures |Indexes(events, key, k, n)| == |Matching(events, key, k, n)|
  {
    if n == 0 {
      assert Matching(events, key, k, n) == {};
    } else {
      IndexesCount(events, key, k, n - 1);
      var before := Matching(events, key, k, n - 1);
      assert Matching(events, key, k, n) == if key(events[n - 1]) == Some(k) then before + {n - 1} else before;
    }
  }

  /** Two groups of one pass never share an event. */
  lemma GroupsDisjoint<K>(events: seq<Event>, key: Event -> Option<K>, k1: K, k2: K, n: nat, x: nat)
    requires n <= |events| && k1 != k2 && x in Indexes(events, key, k1, n)
    ensures x !in Indexes(events, key, k2, n)
  {
    IndexesExact(events, key, k1, n);
    IndexesExact(events, key, k2, n);
  }

  /** A finer key gives a group inside the coarser one's. */
  lemma {:induction false} Refines<K, L>(events: seq<Event>, fine: Event -> Option<K>, k: K,
                                         coarse: Event -> Option<L>, l: L, n: nat)
    requires n <= |events|
    requires forall e :: fine(e) == Some(k) ==> coarse(e) == Some(l)
    ensures |Indexes(events, fine, k, n)| <= |Indexes(events, coarse, l, n)|
  {
    if n > 0 {
      Refines(events, fine, k, coarse, l, n - 1);
      assert fine(events[n - 1]) == Some(k) ==> coarse(events[n - 1]) == Some(l);
    }
  }

  // ── findings per source address ──

  datatype Finding = Finding(source: string, count: nat, indexes: seq<nat>)

  function SourceType(e: Event): Option<(string, string)> {
    Some((e.sourceIp, e.eventType))
  }

  function FailedSource(e: Event): Option<string> {
    if e.eventType == FAILURE && e.sourceIp != "" && e.username != "" then Some(e.sourceIp) else None
  }

  /** Failed authentications from one address. */
  function Failures(events: seq<Event>, src: string): seq<nat> {
    Indexes(events, SourceType, (src, FAILURE), |events|)
  }

  /** The user names an address has failed to log in as. */
  function TargetedUsers(events: seq<Event>, src: string, n: nat): (users: set<string>)
    requires n <= |events|
  {
    if n == 0 then {}
    else TargetedUsers(events, src, n - 1)
         + if FailedSource(events[n - 1]) == Some(src) then {events[n - 1].username} else {}
  }

  predicate BruteForceFires(events: seq<Event>, threshold: int, src: string) {
    src != "" && Failures(events, src) != [] && |Failures(events, src)| >= threshold
  }

  predicate StuffingFires(events: seq<Event>, threshold: int, src: string) {
    Indexes(events, FailedSource, src, |events|) != [] && |TargetedUsers(events, src, |events|)| >= threshold
  }

  function Sources(findings: seq<Finding>): (r: set<string>)
    ensures forall i | 0 <= i < |findings| :: findings[i].source in r
  {
    set f | f in findings :: f.source
  }

  ghost predicate DistinctSources(findings: seq<Finding>) {
    forall i, j | 0 <= i < j < |findings| :: findings[i].source != findings[j].source
  }

  lemma SourcesSatisfy(findings: seq<Finding>, p: string -> bool)
    requires forall f | f in findings :: p(f.source)
    ensures forall src | src in Sources(findings) :: p(src)
  {
  }

  lemma AddFinding(findings: seq<Finding>, f: Finding)
    requires DistinctSources(findings) && forall g | g in findings :: g.source != f.source
    ensures DistinctSources(findings + [f]) && Sources(findings + [f]) == Sources(findings) + {f.source}
  {
  }

  lemma NoFindings()
    ensures DistinctSources([]) && Sources([]) == {}
  {
  }

  lemma FailuresAre(events: seq<Event>, src: string)
    ensures Failures(events, src) == Indexes(events, SourceType, (src, FAILURE), |events|)
  {
  }

  method BruteForce(events: seq<Event>, threshold: int) returns (findings: seq<Finding>)
    ensures DistinctSources(findings)
    ensures forall src :: src in Sources(findings) <==> BruteForceFires(events, threshold, src)
    ensures forall f | f in findings :: f.indexes == Failures(events, f.source) && f.count == |f.indexes|
  {
    hide Agrees, Holds, Indexes, Failures, Sources, DistinctSources;
    var bySourceType := GroupIndexes(events, SourceType);
    NoFindings();
    findings := [];
    for i := 0 to |bySourceType.keys|
      invariant DistinctSources(findings)
      invariant forall f | f in findings ::
                  (f.source, FAILURE) in bySourceType.keys[..i] && BruteForceFires(events, threshold, f.source)
                  && f.indexes == Failures(events, f.source) && f.count == |f.indexes|
      invariant forall src | (src, FAILURE) in bySourceType.keys[..i] && BruteForceFires(events, threshold, src) ::
                  src in Sources(findings)
    {
      var (src, et) := bySourceType.keys[i];
      GroupOf(bySourceType, events, SourceType, (src, et));
      if et != FAILURE || src == "" {
        continue;
      }
      var idxs := bySourceType.members[(src, et)];
      FailuresAre(events, src);
      if |idxs| >= threshold {
        AddFinding(findings, Finding(src, |idxs|, idxs));
        findings := findings + [Finding(src, |idxs|, idxs)];
      }
    }
    SourcesSatisfy(findings, src => BruteForceFires(events, threshold, src));
    forall src | BruteForceFires(events, threshold, src)
      ensures src in Sources(findings)
    {
      FailuresAre(events, src);
      GroupOf(bySourceType, events, SourceType, (src, FAILURE));
    }
  }

  /** The sets of user names the same pass collects beside the index lists. */
  method CollectUsers(events: seq<Event>) returns (byIpUsers: map<string, set<string>>)
    ensures forall src :: UsersIn(byIpUsers, src) == TargetedUsers(events, src, |events|)
  {
    byIpUsers := map[];
    for i := 0 to |events|
      invariant forall src :: UsersIn(byIpUsers, src) == TargetedUsers(events, src, i)
    {
      var ip := FailedSource(events[i]);
      if ip.Some? {
        byIpUsers := byIpUsers[ip.value := UsersIn(byIpUsers, ip.value) + {events[i].username}];
      }
    }
  }

  /** Reading a defaultdict of sets. */
  function UsersIn(byIpUsers: map<string, set<string>>, src: string): set<string> {
    if src in byIpUsers then byIpUsers[src] else {}
  }

  method CredentialStuffing(events: seq<Event>, threshold: int) returns (findings: seq<Finding>)
    ensures DistinctSources(findings)
    ensures forall src :: src in Sources(findings) <==> StuffingFires(events, threshold, src)
    ensures forall f | f in findings :: f.indexes == Indexes(events, FailedSource, f.source, |events|)
    ensures forall f | f in findings :: f.count == |TargetedUsers(events, f.source, |events|)|
  {
    var byIp := GroupIndexes(events, FailedSource);
    var byIpUsers := CollectUsers(events);
    findings := [];
    for i := 0 to |byIp.keys|
      invariant DistinctSources(findings)
      invariant forall f | f in findings :: f.source in byIp.keys[..i] && StuffingFires(events, threshold, f.source)
      invariant forall f | f in findings :: f.indexes == Indexes(events, FailedSource, f.source, |events|)
      invariant forall f | f in findings :: f.count == |TargetedUsers(events, f.source, |events|)|
      invariant forall src | src in byIp.keys[..i] && StuffingFires(events, threshold, src) :: src in Sources(findings)
    {
      hide Indexes, TargetedUsers, Sources, DistinctSources;
      var src := byIp.keys[i];
      assert Holds(byIp, events, FailedSource, src, |events|);
      var users := UsersIn(byIpUsers, src);
      if |users| >= threshold {
        AddFinding(findings, Finding(src, |users|, byIp.members[src]));
        findings := findings + [Finding(src, |users|, byIp.members[src])];
      }
    }
    forall src | StuffingFires(events, threshold, src)
      ensures src in Sources(findings)
    {
      assert Holds(byIp, events, FailedSource, src, |events|);
    }
  }

  /** No address targets more users than it has failures. */
  lemma {:induction false} UsersAtMostFailures(events: seq<Event>, src: string, n: nat)
    requires n <= |events|
    ensures |TargetedUsers(events, src, n)| <= |Indexes(events, FailedSource, src, n)|
  {
    if n > 0 {
      UsersAtMostFailures(events, src, n - 1);
    }
  }

  /** Where credential stuffing fires, brute force fires too, at any
      threshold that is no larger. */
  lemma StuffingImpliesBruteForce(events: seq<Event>, stuffing: int, brute: int, src: string)
    requires StuffingFires(events, stuffing, src) && brute <= stuffing
    ensures BruteForceFires(events, brute, src)
  {
    IndexesExact(events, FailedSource, src, |events|);
    var x := Indexes(events, FailedSource, src, |events|)[0];
    assert x in Indexes(events, FailedSource, src, |events|);
    assert FailedSource(events[x]) == Some(src);
    UsersAtMostFailures(events, src, |events|);
    Refines(events, FailedSource, src, SourceType, (src, FAILURE), |events|);
  }

  /** The failed authentications from one address. */
  function FailedFrom(events: seq<Event>, src: string, n: nat): set<nat>
    requires n <= |events|
  {
    set x: nat | x < n && events[x].eventType == "authentication_failure" && events[x].sourceIp == src
  }

  lemma FailedFromCount(events: seq<Event>, src: string, n: nat)
    requires n <= |events|
    ensures |Indexes(events, SourceType, (src, FAILURE), n)| == |FailedFrom(events, src, n)|
    ensures forall x: nat :: x in Indexes(events, SourceType, (src, FAILURE), n) <==> x in FailedFrom(events, src, n)
  {
    IndexesExact(events, SourceType, (src, FAILURE), n);
    IndexesCount(events, SourceType, (src, FAILURE), n);
    assert Matching(events, SourceType, (src, FAILURE), n) == FailedFrom(events, src, n);
    hide Indexes, Matching, FailedFrom;
  }

  /** Brute force is reported of an address with a failed authentication, and
      with as many as the threshold. */
  lemma BruteForceExact(events: seq<Event>, threshold: int, src: string)
    ensures BruteForceFires(events, threshold, src) <==>
            var failed := FailedFrom(events, src, |events|); src != "" && failed != {} && |failed| >= threshold
  {
    FailedFromCount(events, src, |events|);
    var r := Failures(events, src);
    assert r != [] ==> r[0] in r;
    hide Indexes;
  }

  /** The user names behind failed authentications from one address. */
  function UsersFailedFrom(events: seq<Event>, src: string): set<string> {
    set x: nat | x < |events| && x in FailedFrom(events, src, |events|) && events[x].username != "" ::
      events[x].username
  }

  /** Credential stuffing, of one with as many user names as that, at least one. */
  lemma StuffingExact(events: seq<Event>, threshold: int, src: string)
    ensures StuffingFires(events, threshold, src) <==>
            var users := UsersFailedFrom(events, src); src != "" && users != {} && |users| >= threshold
  {
    hide Indexes, TargetedUsers, UsersFailedFrom;
    SomeFailedSource(events, src);
    if src != "" {
      TargetedAre(events, src, |events|);
      UsersAre(events, src);
      assert TargetedUsers(events, src, |events|) == UsersFailedFrom(events, src);
    }
  }

  lemma UsersAre(events: seq<Event>, src: string)
    ensures forall u :: u in UsersFailedFrom(events, src) <==>
              u != "" && exists x: nat | x < |events| ::
                x in FailedFrom(events, src, |events|) && events[x].username == u
  {
  }

  lemma SomeFailedSource(events: seq<Event>, src: string)
    ensures Indexes(events, FailedSource, src, |events|) != [] <==> src != "" && UsersFailedFrom(events, src) != {}
  {
    IndexesExact(events, FailedSource, src, |events|);
    var r := Indexes(events, FailedSource, src, |events|);
    hide Indexes;
    if r != [] {
      assert r[0] in r && events[r[0]].username in UsersFailedFrom(events, src);
    }
    if src != "" && UsersFailedFrom(events, src) != {} {
      var u :| u in UsersFailedFrom(events, src);
      var x: nat :| x < |events| && x in FailedFrom(events, src, |events|) && events[x].username == u != "";
      assert x in r;
    }
  }

  lemma {:induction false} TargetedAre(events: seq<Event>, src: string, n: nat)
    requires n <= |events| && src != ""
    ensures forall u :: u in TargetedUsers(events, src, n) <==>
              u != "" && exists x: nat | x < n :: x in FailedFrom(events, src, |events|) && events[x].username == u
  {
    if n > 0 {
      TargetedAre(events, src, n - 1);
    }
  }

  // ── a success after failures from the same address ──

  datatype LoginFinding = LoginFinding(success: nat, source: string, failures: seq<nat>)

  predicate LoginAfterFailure(events: seq<Event>, threshold: int, x: nat)
    requires x < |events|
  {
    var e := events[x];
    e.eventType == SUCCESS && e.sourceIp != ""
    && |Indexes(events, SourceType, (e.sourceIp, FAILURE), x)| >= threshold
  }

  method LoginsAfterFailure(events: seq<Event>, threshold: int) returns (findings: seq<LoginFinding>)
    ensures forall x | 0 <= x < |events| ::
              LoginAfterFailure(events, threshold, x) <==> exists i | 0 <= i < |findings| :: findings[i].success == x
    ensures forall i, j | 0 <= i < j < |findings| :: findings[i].success < findings[j].success
    ensures forall f | f in findings :: f.success < |events| && f.source == events[f.success].sourceIp
              && f.failures == Indexes(events, SourceType, (f.source, FAILURE), f.success)
  {
    findings := [];
    for idx := 0 to |events|
      invariant forall x | 0 <= x < idx ::
                  LoginAfterFailure(events, threshold, x) <==>
                  exists i | 0 <= i < |findings| :: findings[i].success == x
      invariant forall i | 0 <= i < |findings| :: findings[i].success < idx
      invariant forall i, j | 0 <= i < j < |findings| :: findings[i].success < findings[j].success
      invariant forall f | f in findings :: f.success < |events| && f.source == events[f.success].sourceIp
                  && f.failures == Indexes(events, SourceType, (f.source, FAILURE), f.success)
    {
      var ev := events[idx];
      if ev.eventType != SUCCESS || ev.sourceIp == "" {
        continue;
      }
      var src := ev.sourceIp;
      var failIdxs: seq<nat> := [];
      for i := 0 to idx
        invariant failIdxs == Indexes(events, SourceType, (src, FAILURE), i)
      {
        if events[i].eventType == FAILURE && events[i].sourceIp == src {
          failIdxs := failIdxs + [i];
        }
      }
      if |failIdxs| >= threshold {
        ghost var before := findings;
        findings := findings + [LoginFinding(idx, src, failIdxs)];
        assert findings[|before|].success == idx;
        assert forall i | 0 <= i < |before| :: findings[i] == before[i];
      }
    }
  }

  /** A login after failures is a successful authentication from an address with
      as many failed ones before it as the threshold. */
  lemma LoginExact(events: seq<Event>, threshold: int, x: nat)
    requires x < |events|
    ensures LoginAfterFailure(events, threshold, x) <==>
            && events[x].eventType == "authentication_success" && events[x].sourceIp != ""
            && |FailedFrom(events, events[x].sourceIp, x)| >= threshold
  {
    FailedFromCount(events, events[x].sourceIp, x);
    hide Indexes;
  }

  /** Such a success is preceded by what brute force reports. */
  lemma LoginAfterFailureImpliesBruteForce(events: seq<Event>, login: int, brute: int, x: nat)
    requires x < |events| && LoginAfterFailure(events, login, x)
    requires 1 <= login && brute <= login
    ensures BruteForceFires(events, brute, events[x].sourceIp)
  {
    PrefixIndexes(events, SourceType, (events[x].sourceIp, FAILURE), x, |events|);
  }

  lemma {:induction false} PrefixIndexes<K>(events: seq<Event>, key: Event -> Option<K>, k: K, m: nat, n: nat)
    requires m <= n <= |events|
    ensures Indexes(events, key, k, m) <= Indexes(events, key, k, n)
    decreases n
  {
    if m < n {
      PrefixIndexes(events, key, k, m, n - 1);
    }
  }

  // ── correlation per account ──

  const MIN_FAILURES := 5
  const HIGH_VOLUME := 20
  const SAMPLE_LINES := 5

  /** The account an event counts for: service accounts and blank names are
      left out. */
  function AccountOf(e: Event): Option<string> {
    var u := Strip(e.username);
    if u == "" || e.isService then None else Some(u)
  }

  function FailedAccount(e: Event): Option<string> {
    if e.eventType == FAILURE then AccountOf(e) else None
  }

  function LoggedInAccount(e: Event): Option<string> {
    if e.eventType == SUCCESS then AccountOf(e) else None
  }

  datatype Pattern = Compromise | Attempt(high: bool)
  datatype Correlation = Correlation(account: string, pattern: Pattern, failedCount: nat, sample: seq<nat>)

  function AccountFailures(events: seq<Event>, account: string): seq<nat> {
    Indexes(events, FailedAccount, account, |events|)
  }

  function AccountSuccesses(events: seq<Event>, account: string): seq<nat> {
    Indexes(events, LoggedInAccount, account, |events|)
  }

  /** At least five failures, and a success after the first of them. */
  predicate Compromised(events: seq<Event>, account: string) {
    |AccountFailures(events, account)| >= MIN_FAILURES
    && exists x, y | 0 <= x < y < |events| ::
         FailedAccount(events[x]) == Some(account) && LoggedInAccount(events[y]) == Some(account)
  }

  function Later(succs: seq<nat>, first: nat): (r: seq<nat>)
    ensures forall y :: y in r <==> y in succs && y > first
  {
    if succs == [] then []
    else
      var rest := Later(succs[..|succs| - 1], first);
      assert succs == succs[..|succs| - 1] + [succs[|succs| - 1]];
      if succs[|succs| - 1] > first then rest + [succs[|succs| - 1]] else rest
  }

  /** What one account's failures and successes amount to. */
  function Judge(account: string, fails: seq<nat>, succs: seq<nat>): Option<Correlation> {
    if |fails| < MIN_FAILURES then None
    else
      var later := Later(succs, fails[0]);
      if later != [] then Some(Correlation(account, Compromise, |fails|, (fails + later[..1])[..SAMPLE_LINES]))
      else Some(Correlation(account, Attempt(|fails| >= HIGH_VOLUME), |fails|, fails[..SAMPLE_LINES]))
  }

  function Verdict(events: seq<Event>, account: string): (v: Option<Correlation>)
    ensures v.Some? ==> v.value.account == account && AccountFailures(events, account) != []
  {
    Judge(account, AccountFailures(events, account), AccountSuccesses(events, account))
  }

  method DetectCorrelations(events: seq<Event>) returns (findings: seq<Correlation>)
    ensures forall i, j | 0 <= i < j < |findings| :: findings[i].account != findings[j].account
    ensures forall c: Correlation :: c in findings <==>
              Verdict(events, c.account) == Some(c)
  {
    hide Agrees, Holds, Indexes, Judge;
    var fails := GroupIndexes(events, FailedAccount);
    var succs := GroupIndexes(events, LoggedInAccount);
    findings := [];
    for i := 0 to |fails.keys|
      invariant forall j, k | 0 <= j < k < |findings| :: findings[j].account != findings[k].account
      invariant forall c: Correlation :: c in findings <==>
                  c.account in fails.keys[..i]
                  && Verdict(events, c.account) == Some(c)
    {
      var account := fails.keys[i];
      GroupOf(fails, events, FailedAccount, account);
      GroupOf(succs, events, LoggedInAccount, account);
      var failIdxs := fails.members[account];
      var succIdxs := if account in succs.members then succs.members[account] else [];
      var verdict := Judge(account, failIdxs, succIdxs);
      assert verdict == Verdict(events, account);
      assert fails.keys[..i + 1] == fails.keys[..i] + [account];
      hide Verdict;
      if verdict.Some? {
        findings := findings + [verdict.value];
      }
    }
    forall c: Correlation | Verdict(events, c.account) == Some(c)
      ensures c.account in fails.keys
    {
      GroupOf(fails, events, FailedAccount, c.account);
    }
  }

  /** The compromise pattern is reported for an account exactly when it has
      five failures and a success after the first. */
  lemma CompromiseIff(events: seq<Event>, account: string)
    ensures Compromised(events, account) <==>
            var c := Verdict(events, account); c.Some? && c.value.pattern == Compromise
  {
    var fails, succs := AccountFailures(events, account), AccountSuccesses(events, account);
    IndexesExact(events, FailedAccount, account, |events|);
    IndexesExact(events, LoggedInAccount, account, |events|);
    hide Indexes, Later;
    if |fails| >= MIN_FAILURES {
      var first := fails[0];
      assert first in fails;
      if Compromised(events, account) {
        var x, y :| 0 <= x < y < |events|
          && FailedAccount(events[x]) == Some(account) && LoggedInAccount(events[y]) == Some(account);
        assert x in fails && y in succs;
        assert first <= x;
        assert y in Later(succs, first);
      }
      if Later(succs, first) != [] {
        var y := Later(succs, first)[0];
        assert y in Later(succs, first);
        assert FailedAccount(events[first]) == Some(account) && LoggedInAccount(events[y]) == Some(account);
      }
    }
  }

  /** The events of one type that count for an account: those of its stripped
      name, unless it is a service account. */
  function EventsOf(events: seq<Event>, eventType: string, account: string): set<nat> {
    set x: nat | x < |events| && events[x].eventType == eventType && !events[x].isService
                 && Strip(events[x].username) == account
  }

  /** What is reported of an account: nothing below five failures; a compromise
      when a success comes after the first of them, else an attempt, a heavy one
      from twenty failures on; and the number of failures. */
  lemma CorrelationExact(events: seq<Event>, account: string)
    requires account != ""
    ensures var fails := EventsOf(events, "authentication_failure", account);
            var succs := EventsOf(events, "authentication_success", account);
            var v := Verdict(events, account);
            && (v.Some? <==> |fails| >= 5)
            && (v.Some? ==>
                  && v.value.account == account && v.value.failedCount == |fails|
                  && v.value.pattern == if exists x, y | x in fails && y in succs :: x < y then Compromise
                                        else Attempt(|fails| >= 20))
  {
    var fails := EventsOf(events, "authentication_failure", account);
    IndexesCount(events, FailedAccount, account, |events|);
    assert Matching(events, FailedAccount, account, |events|) == fails;
    CompromiseIff(events, account);
    CompromisedExact(events, account);
    hide Indexes, Later, Compromised, EventsOf, Matching;
  }

  lemma CompromisedExact(events: seq<Event>, account: string)
    requires account != ""
    ensures var fails := EventsOf(events, "authentication_failure", account);
            var succs := EventsOf(events, "authentication_success", account);
            Compromised(events, account) <==>
            |AccountFailures(events, account)| >= 5 && exists x, y | x in fails && y in succs :: x < y
  {
    hide Indexes;
    var fails := EventsOf(events, "authentication_failure", account);
    var succs := EventsOf(events, "authentication_success", account);
    assert forall x: nat | x < |events| :: FailedAccount(events[x]) == Some(account) <==> x in fails;
    assert forall x: nat | x < |events| :: LoggedInAccount(events[x]) == Some(account) <==> x in succs;
    hide EventsOf, FailedAccount, LoggedInAccount, AccountFailures;
    if exists x, y | x in fails && y in succs :: x < y {
      var x, y :| x in fails && y in succs && x < y;
      assert FailedAccount(events[x]) == Some(account) && LoggedInAccount(events[y]) == Some(account);
    }
  }

  /** The events a finding names are the first five failures in order. A success
      that makes it a compromise stands behind all failures and is never one of them. */
  lemma SampleExact(events: seq<Event>, account: string)
    requires account != "" && Verdict(events, account).Some?
    ensures var fails := EventsOf(events, "authentication_failure", account);
            var sample := Verdict(events, account).value.sample;
            && |sample| == 5 && Ascending(sample) && (forall x | x in sample :: x in fails)
            && (forall x, y | x in fails && x !in sample && y in sample :: y < x)
            && (forall x | x in sample :: x !in EventsOf(events, "authentication_success", account))
  {
    var fails := AccountFailures(events, account);
    IndexesExact(events, FailedAccount, account, |events|);
    hide Indexes, Later;
    var sample := Verdict(events, account).value.sample;
    assert sample == fails[..5];
    forall x | x in sample
      ensures x in EventsOf(events, "authentication_failure", account)
    {
      assert x in fails;
    }
    forall x, y | x in EventsOf(events, "authentication_failure", account) && x !in sample && y in sample
      ensures y < x
    {
      assert x in fails;
      var i, j :| 0 <= i < |fails| && fails[i] == x && 0 <= j < 5 && fails[j] == y;
      assert 5 <= i;
    }
  }

  /** The success need not come after five failures: one failure before it
      and four after it are enough, although the detector's own description
      speaks of failures "and then" a success. */
  lemma OneFailureBeforeSuccessSuffices(f: Event, s: Event)
    requires f.eventType == FAILURE && s.eventType == SUCCESS
    requires AccountOf(f).Some? && AccountOf(s) == AccountOf(f)
    ensures Compromised([f, s, f, f, f, f], AccountOf(f).value)
  {
    var events, a := [f, s, f, f, f, f], AccountOf(f).value;
    assert FailedAccount(events[0]) == Some(a) && LoggedInAccount(events[1]) == Some(a);
    assert Indexes(events, FailedAccount, a, 1) == [0];
    assert Indexes(events, FailedAccount, a, 2) == [0];
    assert Indexes(events, FailedAccount, a, 3) == [0, 2];
    assert Indexes(events, FailedAccount, a, 4) == [0, 2, 3];
    assert Indexes(events, FailedAccount, a, 5) == [0, 2, 3, 4];
    assert Indexes(events, FailedAccount, a, 6) == [0, 2, 3, 4, 5];
  }
}
