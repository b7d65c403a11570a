/** What the response layer decides, said without the code that decides it:
    which actions an alert leads to, which agent carries one out, and when an
    action becomes an order. */
module Containment {
  import opened PyText
  import opened Orders
  import opened GuardRails

  // ── from an alert to actions ──

  predicate Severe(a: Alert) {
    a.severity == High || a.severity == Critical
  }

  predicate OfType(a: Alert, ruleType: string) {
    a.ruleType == Some(ruleType)
  }

  /** The playbook: containment for severe alerts of five kinds of rule, a word
      to the analyst for any other alert. */
  predicate Warrants(a: Alert, kind: ActionKind) {
    match kind
    case BlockIp =>
      Severe(a) && (OfType(a, "brute_force") || OfType(a, "port_scan") || OfType(a, "login_after_failure"))
    case DisableAccount => Severe(a) && (OfType(a, "login_after_failure") || OfType(a, "privilege_escalation"))
    case IsolateEndpoint => Severe(a) && OfType(a, "file_integrity")
    case NotifyAnalyst =>
      !Severe(a) || !(OfType(a, "brute_force") || OfType(a, "port_scan") || OfType(a, "login_after_failure")
                      || OfType(a, "privilege_escalation") || OfType(a, "file_integrity"))
  }

  predicate Missing(text: Option<string>) {
    text == None || text == Some("")
  }

  /** What an action is applied to: the first of these the alert carries. */
  predicate AimedAt(a: Alert, kind: ActionKind, target: string) {
    match kind
    case BlockIp => a.sourceIp == Some(target)
    case DisableAccount => a.username == Some(target) || (Missing(a.username) && a.dedupKey == Some(target))
    case IsolateEndpoint => a.hostname == Some(target) || (Missing(a.hostname) && a.dedupKey == Some(target))
    case NotifyAnalyst =>
      || a.dedupKey == Some(target)
      || (Missing(a.dedupKey) && (a.sourceIp == Some(target) || (Missing(a.sourceIp) && target == "unspecified")))
  }

  /** An alert leads to an action if and only if its playbook asks for one of
      the kind and it carries a target for it; the action names that target,
      the alert and the host, and is pending exactly when execution is on. */
  lemma DecisionsExact(s: Settings, a: Alert, x: Action)
    ensures x in Decisions(s, a, Playbook(a)) <==>
            && Warrants(a, x.kind) && x.target != "" && AimedAt(a, x.kind, x.target)
            && x.alertId == Some(a.id) && x.hostname == a.hostname
            && x.status == (if s.soarExecute then Pending else Simulated) && x.detail == Decided(s.soarExecute)
  {
    var kinds := Playbook(a);
    assert forall kind :: kind in kinds <==> Warrants(a, kind);
    hide Playbook, Warrants;
    DecidedFor(s, a, kinds, x);
    if x.target != "" {
      AimIs(a, x.kind, x.target);
    }
  }

  lemma {:induction false} DecidedFor(s: Settings, a: Alert, kinds: seq<ActionKind>, x: Action)
    ensures x in Decisions(s, a, kinds) <==>
            && x.kind in kinds && x.target != "" && TargetFor(x.kind, a) == Some(x.target)
            && x == Action(x.kind, x.target, Some(a.id), a.hostname, if s.soarExecute then Pending else Simulated,
                           Decided(s.soarExecute))
  {
    hide TargetFor;
    if kinds != [] {
      DecidedFor(s, a, kinds[1..], x);
      assert kinds == [kinds[0]] + kinds[1..];
    }
  }

  lemma AimIs(a: Alert, kind: ActionKind, target: string)
    requires target != ""
    ensures TargetFor(kind, a) == Some(target) <==> AimedAt(a, kind, target)
  {
  }

  /** One action of a kind at most, an account disabled before its address is
      blocked. */
  lemma DecisionsInOrder(s: Settings, a: Alert, i: nat, j: nat)
    requires i < j < |Decisions(s, a, Playbook(a))|
    ensures var created := Decisions(s, a, Playbook(a));
            created[i].kind == DisableAccount && created[j].kind == BlockIp
  {
    var kinds := Playbook(a);
    assert kinds[1..] == [] || kinds[1..] == [BlockIp];
    assert kinds[1..][..] == kinds[1..] && [BlockIp][1..] == [];
    assert Decisions(s, a, []) == [];
    assert |Decisions(s, a, kinds[1..])| <= |kinds[1..]|;
    hide TargetFor;
  }

  // ── choosing an agent ──

  predicate HasName(a: AgentRow, host: string) {
    a.enabled && a.hostname == Some(host)
  }

  predicate HasId(a: AgentRow, host: string) {
    a.enabled && a.endpointId == host
  }

  predicate FirstNamed(agents: seq<AgentRow>, host: string, i: nat) {
    i < |agents| && HasName(agents[i], host) && forall j | 0 <= j < i :: !HasName(agents[j], host)
  }

  predicate FirstWithId(agents: seq<AgentRow>, host: string, i: nat) {
    i < |agents| && HasId(agents[i], host) && forall j | 0 <= j < i :: !HasId(agents[j], host)
  }

  predicate OnlyEnabled(agents: seq<AgentRow>, i: nat) {
    i < |agents| && agents[i].enabled && forall j | 0 <= j < |agents| && j != i :: !agents[j].enabled
  }

  /** The enabled agent of the host's name; else the one of that endpoint; else
      the only enabled one there is. */
  predicate Chosen(agents: seq<AgentRow>, hostname: Option<string>, i: nat) {
    var host := if hostname == None then "" else hostname.value;
    var named := host != "" && exists a | a in agents :: HasName(a, host);
    var known := host != "" && exists a | a in agents :: HasId(a, host);
    if named then FirstNamed(agents, host, i)
    else if known then FirstWithId(agents, host, i)
    else OnlyEnabled(agents, i)
  }

  lemma AgentForExact(agents: seq<AgentRow>, hostname: Option<string>, row: AgentRow)
    ensures AgentFor(agents, hostname) == Some(row) <==>
            exists i: nat | i < |agents| :: Chosen(agents, hostname, i) && agents[i] == row
  {
    hide AgentFor, Chosen;
    var i := Choose(agents, hostname);
    if i.Some? {
      OneChosen(agents, hostname, i.value, row);
    }
  }

  lemma Choose(agents: seq<AgentRow>, hostname: Option<string>) returns (i: Option<nat>)
    ensures i.None? ==> AgentFor(agents, hostname) == None
                        && forall k: nat | k < |agents| :: !Chosen(agents, hostname, k)
    ensures i.Some? ==> i.value < |agents| && Chosen(agents, hostname, i.value)
                        && AgentFor(agents, hostname) == Some(agents[i.value])
  {
    hide Enabled, FirstWith;
    var host := if hostname == None then "" else hostname.value;
    if host != "" && exists a | a in agents :: HasName(a, host) {
      var k := FirstOfEnabled(agents, (a: AgentRow) => a.hostname == hostname);
      i := Some(k);
    } else if host != "" && exists a | a in agents :: HasId(a, host) {
      var k := FirstOfEnabled(agents, (a: AgentRow) => a.endpointId == hostname.value);
      i := Some(k);
    } else if |Enabled(agents)| == 1 {
      var k := SoleEnabled(agents);
      i := Some(k);
    } else {
      forall k: nat | k < |agents|
        ensures !OnlyEnabled(agents, k)
      {
        if OnlyEnabled(agents, k) {
          SoleIsList(agents, k);
        }
      }
      i := None;
    }
  }

  lemma OneChosen(agents: seq<AgentRow>, hostname: Option<string>, i: nat, row: AgentRow)
    requires i < |agents| && Chosen(agents, hostname, i)
    ensures (exists k: nat | k < |agents| :: Chosen(agents, hostname, k) && agents[k] == row) <==> agents[i] == row
  {
    assert forall k: nat | k < |agents| && Chosen(agents, hostname, k) :: k == i;
    hide HasName, HasId;
  }

  lemma {:induction false} FirstOfEnabled(agents: seq<AgentRow>, p: AgentRow -> bool) returns (i: nat)
    requires exists a | a in agents :: a.enabled && p(a)
    ensures i < |agents| && agents[i].enabled && p(agents[i])
    ensures forall j | 0 <= j < i :: !(agents[j].enabled && p(agents[j]))
    ensures FirstWith(Enabled(agents), p) == Some(agents[i])
  {
    if agents[0].enabled && p(agents[0]) {
      i := 0;
    } else {
      assert agents == [agents[0]] + agents[1..];
      var k := FirstOfEnabled(agents[1..], p);
      i := k + 1;
      if agents[0].enabled {
        FirstSkips(agents[0], Enabled(agents[1..]), p);
      }
      hide FirstWith;
    }
  }

  lemma FirstSkips(a: AgentRow, rest: seq<AgentRow>, p: AgentRow -> bool)
    requires !p(a)
    ensures FirstWith([a] + rest, p) == FirstWith(rest, p)
  {
    assert ([a] + rest)[1..] == rest;
  }

  lemma {:induction false} SoleIsList(agents: seq<AgentRow>, i: nat)
    requires OnlyEnabled(agents, i)
    ensures Enabled(agents) == [agents[i]]
  {
    var rest := agents[1..];
    if i == 0 {
      assert forall a | a in rest :: !a.enabled;
      assert Enabled(rest) != [] ==> Enabled(rest)[0] in Enabled(rest);
    } else {
      SoleIsList(rest, i - 1);
    }
  }

  lemma {:induction false} SoleEnabled(agents: seq<AgentRow>) returns (i: nat)
    requires |Enabled(agents)| == 1
    ensures OnlyEnabled(agents, i) && Enabled(agents) == [agents[i]]
  {
    var rest := agents[1..];
    if agents[0].enabled {
      i := 0;
      assert Enabled(rest) == [];
      assert forall j | 0 < j < |agents| :: agents[j] == rest[j - 1] && rest[j - 1] in rest;
    } else {
      var k := SoleEnabled(rest);
      i := k + 1;
      assert forall j | 0 < j < |agents| :: agents[j] == rest[j - 1];
    }
  }

  // ── from an action to an order ──

  function VerbOf(kind: ActionKind): string {
    match kind
    case BlockIp => "block_ip"
    case DisableAccount => "disable_user"
    case _ => ""
  }

  /** An action becomes an order if and only if agents know its verb, it is
      allowed, and there is an agent for it. */
  predicate BecomesOrder(db: Db, s: Settings, a: Action) {
    && (a.kind == BlockIp || a.kind == DisableAccount) && Allowed(s, VerbOf(a.kind), a.target)
    && AgentFor(db.agents, a.hostname).Some?
  }

  /** What a dispatch does to the tables: one queued order for that agent, with
      the action's own target; or a note why not; and nothing else. */
  lemma DispatchExact(db: Db, s: Settings, i: nat, issuer: string, uid: string, now: int)
    requires i < |db.actions|
    ensures var (after, verdict) := ExecuteAction(db, s, i, issuer, uid, now);
            var a := db.actions[i];
            && (verdict.executed <==> BecomesOrder(db, s, a))
            && (BecomesOrder(db, s, a) ==>
                  after == Db(db.agents,
                              db.orders + [Order(uid, AgentFor(db.agents, a.hostname).value.endpointId, VerbOf(a.kind),
                                                 a.target, Queued, Some(i), a.alertId, issuer, now,
                                                 Some(now + s.orderTtl), None, None, None)],
                              db.actions[i := a.(status := Pending, detail := AwaitingAgent(uid))]))
            && (a.kind == IsolateEndpoint || a.kind == NotifyAnalyst ==> after == db && verdict.detail == None)
            && (a.kind == BlockIp || a.kind == DisableAccount ==> verdict.detail == Some(after.actions[i].detail))
            && ((a.kind == BlockIp || a.kind == DisableAccount) && !BecomesOrder(db, s, a) ==>
                  && after.actions[i].status == Simulated && after.actions[i].target == a.target
                  && after == db.(actions := db.actions[i := after.actions[i]])
                  && if Allowed(s, VerbOf(a.kind), a.target) then after.actions[i].detail == NoAgent
                     else exists why ::
                            after.actions[i].detail == Refused(why) && True(s, VerbOf(a.kind), a.target, why))
  {
    RefusedIffNotAllowed(s, VerbOf(db.actions[i].kind), db.actions[i].target);
    hide RefuseReason, Allowed, True, AgentFor;
  }

  /** With a database that may fail: the same, as far as it was stored and marked. */
  lemma FaultyExact(db: Db, s: Settings, i: nat, issuer: string, uid: string, now: int, stored: bool, marked: bool)
    requires i < |db.actions|
    ensures var (after, verdict) := ExecuteFaulty(db, s, i, issuer, uid, now, stored, marked);
            var (clean, answer) := ExecuteAction(db, s, i, issuer, uid, now);
            var queues := BecomesOrder(db, s, db.actions[i]);
            && (verdict.executed <==> queues && stored)
            && (queues && !stored ==> after == db && verdict.detail == Some(InternalError))
            && (!queues || stored ==>
                  after == (if marked then clean else clean.(actions := db.actions)) && verdict == answer)
  {
    DispatchExact(db, s, i, issuer, uid, now);
    hide ExecuteAction, BecomesOrder;
  }

  /** A revocation queues the opposite of a block or of a disabled account, for
      the same endpoint and target, as long as that endpoint is registered. */
  lemma RevokeExact(db: Db, s: Settings, j: nat, issuer: string, uid: string, now: int)
    requires j < |db.orders|
    ensures var (after, queued) := Revoke(db, s, j, issuer, uid, now);
            var o := db.orders[j];
            && (queued <==> (o.action == "block_ip" || o.action == "disable_user")
                            && exists a | a in db.agents :: a.endpointId == o.endpointId)
            && after == if !queued then db
                        else db.(orders := db.orders + [Order(uid, o.endpointId,
                                 if o.action == "block_ip" then "unblock_ip" else "enable_user", o.target, Queued,
                                 None, None, issuer, now, Some(now + s.orderTtl), None, None, None)])
  {
    hide FirstWith;
  }

  // ── a report ──

  predicate Reported(o: Order, uid: string, endpoint: string) {
    o.uid == uid && o.endpointId == endpoint
  }

  /** What is kept of an agent's output. */
  function Cut(output: string): string {
    if |output| > 2048 then output[..2048] else output
  }

  function Concluding(o: Order, success: bool, output: string, now: int): Order {
    o.(status := if success then Succeeded else Failed, completedAt := Some(now), output := Some(Cut(output)))
  }

  /** A report concludes the first order of that identifier and endpoint, and
      its action with it; one about no such order changes nothing. */
  lemma ReportExact(db: Db, endpoint: string, uid: string, success: bool, output: string, now: int)
    ensures var (after, found) := RecordResult(db, endpoint, uid, success, output, now);
            && (!found ==> after == db && forall o | o in db.orders :: !Reported(o, uid, endpoint))
            && (found ==> exists j: nat | j < |db.orders| ::
                  && Reported(db.orders[j], uid, endpoint)
                  && (forall k | 0 <= k < j :: !Reported(db.orders[k], uid, endpoint))
                  && after.agents == db.agents
                  && after.orders == db.orders[j := Concluding(db.orders[j], success, output, now)]
                  && after.actions == ActionsAfter(db.actions, db.orders[j].actionId, success, output))
  {
    FirstReported(db.orders, uid, endpoint);
    hide FindOrder;
  }

  function ActionsAfter(actions: seq<Action>, i: Option<nat>, success: bool, output: string): seq<Action> {
    if i == None || i.value >= |actions| then actions
    else actions[i.value := actions[i.value].(status := if success then Executed else Unsuccessful,
                                              detail := Orders.Reported(success, Cut(output)))]
  }

  lemma {:induction false} FirstReported(orders: seq<Order>, uid: string, endpoint: string)
    ensures var j := FindOrder(orders, uid, endpoint);
            j.Some? ==> forall k | 0 <= k < j.value :: !Reported(orders[k], uid, endpoint)
  {
    if orders != [] {
      FirstReported(orders[1..], uid, endpoint);
      assert orders == [orders[0]] + orders[1..];
    }
  }
}
