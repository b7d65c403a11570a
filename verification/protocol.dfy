/** The containment protocol as a whole: the server, the network and the
    agents. The network may lose, delay, reorder and repeat signed responses
    and reports; agents' clocks are their own. A run is any sequence of steps,
    and a step that is not possible leaves the system as it is. */
module Protocol {
  import opened PyText
  import opened Orders
  import opened OrderQueue
  import opened GuardRails
  import Signing

  /** A signed answer to a poll. Only the server can sign for an endpoint, so
      the responses in the system are the ones it sent. */
  datatype Response = Response(endpoint: string, nonce: string, timestamp: int, items: seq<Item>)

  /** A signed result, one order's outcome as its agent posts it, the output
      cut to 2048 characters. */
  datatype Report = Report(endpoint: string, uid: string, success: bool, output: string)

  /** One order carried out: which acceptance it came with, and where in the
      accepted payload it stood. */
  datatype Applied = Applied(round: nat, position: nat, uid: string, action: string, target: string, success: bool,
                             output: string)

  /** An agent's memory of nonces, with the history of what it accepted (as
      indexes into the responses) and applied. */
  datatype Agent = Agent(seen: set<string>, accepted: seq<nat>, applied: seq<Applied>)

  datatype Sys = Sys(now: int, db: Db, sent: seq<Response>, reports: seq<Report>, agents: map<string, Agent>)

  function AgentOf(y: Sys, endpoint: string): Agent {
    if endpoint in y.agents then y.agents[endpoint] else Agent({}, [], [])
  }

  const START := Sys(0, Db([], [], []), [], [], map[])

  // ── steps ──

  datatype Outcome = Outcome(success: bool, output: string)

  datatype Step =
    | Wait(ticks: nat)
    | Enrol(row: AgentRow)
    | Change(i: nat, row: AgentRow)
    | Remove(i: nat)
    | Alerted(alert: Alert, uids: seq<string>)
    | ExecuteNow(i: nat, issuedBy: string, uid: string)
    | RevokeNow(j: nat, issuedBy: string, uid: string)
    | Poll(endpoint: string, ip: Option<string>, nonce: string)
    | Receive(endpoint: string, k: nat, clock: int, outcomes: seq<Outcome>)
    | Deliver(k: nat)

  predicate FreshUids(orders: seq<Order>, uids: seq<string>) {
    && (forall i, j | 0 <= i < j < |uids| :: uids[i] != uids[j])
    && (forall u, o | u in uids && o in orders :: o.uid != u)
  }

  /** The agent's check on a response, as `Signing.SignedHeaderAccepted`
      reduces it to the clock and the memory of nonces. */
  predicate Accepts(a: Agent, endpoint: string, r: Response, clock: int) {
    r.endpoint == endpoint && Signing.WithinSkew(clock, r.timestamp) && r.nonce !in a.seen
  }

  function ApplyAll(round: nat, items: seq<Item>, outcomes: seq<Outcome>): (r: seq<Applied>)
    requires |outcomes| <= |items|
    ensures |r| == |outcomes|
    ensures forall p | 0 <= p < |r| ::
              r[p] == Applied(round, p, items[p].id, items[p].action, items[p].target, outcomes[p].success,
                              outcomes[p].output)
  {
    seq(|outcomes|, p requires 0 <= p < |outcomes| =>
      Applied(round, p, items[p].id, items[p].action, items[p].target, outcomes[p].success, outcomes[p].output))
  }

  function ReportAll(endpoint: string, applied: seq<Applied>): (r: seq<Report>)
    ensures |r| == |applied|
    ensures forall p | 0 <= p < |r| ::
              r[p] == Report(endpoint, applied[p].uid, applied[p].success, Stored(applied[p].output))
  {
    seq(|applied|, p requires 0 <= p < |applied| =>
      Report(endpoint, applied[p].uid, applied[p].success, Stored(applied[p].output)))
  }

  /** An accepted response: the orders are applied in turn and reported. An
      error ends the tick early, so only the first `|outcomes|` may be
      reached. */
  function AcceptResponse(y: Sys, endpoint: string, k: nat, outcomes: seq<Outcome>): Sys
    requires k < |y.sent| && |outcomes| <= |y.sent[k].items|
  {
    var a := AgentOf(y, endpoint);
    var done := ApplyAll(|a.accepted|, y.sent[k].items, outcomes);
    var after := Agent(Signing.Remember(a.seen, y.sent[k].nonce), a.accepted + [k], a.applied + done);
    y.(agents := y.agents[endpoint := after], reports := y.reports + ReportAll(endpoint, done))
  }

  function Do(y: Sys, s: Settings, step: Step): Sys {
    match step
    case Wait(ticks) => y.(now := y.now + ticks)
    case Enrol(row) =>
      if AgentIndex(y.db.agents, row.endpointId).None? then y.(db := y.db.(agents := y.db.agents + [row])) else y
    case Change(i, row) =>
      if i < |y.db.agents| && row.endpointId == y.db.agents[i].endpointId
      then y.(db := y.db.(agents := y.db.agents[i := row])) else y
    case Remove(i) =>
      if i < |y.db.agents| then y.(db := y.db.(agents := y.db.agents[..i] + y.db.agents[i + 1..])) else y
    case Alerted(alert, uids) =>
      if |uids| >= |Playbook(alert)| && FreshUids(y.db.orders, uids)
      then y.(db := Respond(y.db, s, alert, uids, y.now)) else y
    case ExecuteNow(i, issuer, uid) =>
      if i < |y.db.actions| && FreshUids(y.db.orders, [uid])
      then y.(db := ExecuteAction(y.db, s, i, issuer, uid, y.now).0) else y
    case RevokeNow(j, issuer, uid) =>
      if j < |y.db.orders| && FreshUids(y.db.orders, [uid])
      then y.(db := Revoke(y.db, s, j, issuer, uid, y.now).0) else y
    case Poll(endpoint, ip, nonce) =>
      var (db, agent, items) := CollectOrders(y.db, endpoint, ip, y.now);
      if agent.None? || exists r | r in y.sent :: r.nonce == nonce then y
      else y.(db := db, sent := y.sent + [Response(endpoint, nonce, y.now, items)])
    case Receive(endpoint, k, clock, outcomes) =>
      if k < |y.sent| && |outcomes| <= |y.sent[k].items| && Accepts(AgentOf(y, endpoint), endpoint, y.sent[k], clock)
      then AcceptResponse(y, endpoint, k, outcomes) else y
    case Deliver(k) =>
      if k < |y.reports| then
        var i := AgentIndex(y.db.agents, y.reports[k].endpoint);
        if i.Some? && y.db.agents[i.value].enabled then
          var r := y.reports[k];
          y.(db := RecordResult(y.db, r.endpoint, r.uid, r.success, r.output, y.now).0)
        else y
      else y
  }

  function Run(s: Settings, steps: seq<Step>): Sys {
    if steps == [] then START else Do(Run(s, steps[..|steps| - 1]), s, steps[|steps| - 1])
  }

  // ── how operations change the order table ──

  /** One of the four verbs agents understand, for a target it is allowed for. */
  predicate Harmless(s: Settings, o: Order) {
    && (o.action == "block_ip" || o.action == "unblock_ip" || o.action == "disable_user" || o.action == "enable_user")
    && Allowed(s, o.action, o.target)
  }

  /** A row as `queue_order` writes it. */
  predicate Issued(s: Settings, o: Order, now: int) {
    && o.status == Queued && o.createdAt == now && o.expiresAt == Some(now + s.orderTtl) && o.deliveredAt == None
    && o.completedAt == None && o.output == None && Harmless(s, o)
  }

  predicate GuardRailsKept(s: Settings, orders: seq<Order>) {
    forall o | o in orders :: Harmless(s, o)
  }

  predicate UidsDistinct(orders: seq<Order>) {
    forall i, j | 0 <= i < j < |orders| :: orders[i].uid != orders[j].uid
  }

  /** Only new rows, freshly named, behind the old ones. */
  predicate Extends(s: Settings, before: seq<Order>, after: seq<Order>, uids: seq<string>, now: int) {
    && before <= after
    && (forall i | |before| <= i < |after| :: Issued(s, after[i], now) && after[i].uid in uids)
    && (forall i, j | |before| <= i < j < |after| :: after[i].uid != after[j].uid)
  }

  /** The row keeps its identity; it may leave the queue but not return. */
  predicate Evolves(o: Order, p: Order) {
    && p.uid == o.uid && p.endpointId == o.endpointId && p.action == o.action && p.target == o.target
    && p.actionId == o.actionId && p.alertId == o.alertId && p.issuedBy == o.issuedBy
    && p.createdAt == o.createdAt && p.expiresAt == o.expiresAt
    && (p.status == Queued ==> p == o)
  }

  predicate AllEvolve(before: seq<Order>, after: seq<Order>) {
    |before| == |after| && forall i | 0 <= i < |before| :: Evolves(before[i], after[i])
  }

  /** Inverting an order does not change what the guard rails look at. */
  lemma InverseSameRefusal(s: Settings, action: string, target: string)
    requires Inverse(action).Some?
    ensures RefuseReason(s, Inverse(action).value, target) == RefuseReason(s, action, target)
    ensures Inverse(Inverse(action).value) == None
  {
  }

  /** What a revocation queues can itself not be revoked. */
  lemma RevocationIsFinal(db: Db, s: Settings, j: nat, issuer: string, uid: string, now: int,
                          other: string, otherUid: string, later: int)
    requires j < |db.orders| && Revoke(db, s, j, issuer, uid, now).1
    ensures var after, n := Revoke(db, s, j, issuer, uid, now).0, |db.orders|;
            && |after.orders| == n + 1 && after.orders[..n] == db.orders
            && after.orders[n].endpointId == db.orders[j].endpointId && after.orders[n].target == db.orders[j].target
            && Some(after.orders[n].action) == Inverse(db.orders[j].action)
            && Revoke(after, s, n, other, otherUid, later) == (after, false)
  {
    InverseSameRefusal(s, db.orders[j].action, db.orders[j].target);
    hide RefuseReason, FirstWith;
  }

  lemma ExecuteExtends(db: Db, s: Settings, i: nat, issuer: string, uid: string, now: int)
    requires i < |db.actions|
    ensures Extends(s, db.orders, ExecuteAction(db, s, i, issuer, uid, now).0.orders, [uid], now)
  {
    var a := db.actions[i];
    if AgentVerb(a.kind).Some? {
      RefusedIffNotAllowed(s, AgentVerb(a.kind).value, a.target);
    }
    hide RefuseReason, AgentFor, Allowed, True;
  }

  lemma RevokeExtends(db: Db, s: Settings, j: nat, issuer: string, uid: string, now: int)
    requires j < |db.orders| && GuardRailsKept(s, db.orders)
    ensures Extends(s, db.orders, Revoke(db, s, j, issuer, uid, now).0.orders, [uid], now)
  {
    assert Harmless(s, db.orders[j]);
    hide MayBlock, MayDisable;
  }

  lemma {:induction false} DispatchExtends(db: Db, s: Settings, from: nat, n: nat, uids: seq<string>, now: int)
    requires from + n <= |db.actions| && n <= |uids|
    requires forall i, j | 0 <= i < j < |uids| :: uids[i] != uids[j]
    ensures Extends(s, db.orders, Dispatch(db, s, from, n, uids, now).orders, uids[..n], now)
  {
    hide ExecuteAction, Issued;
    if n > 0 {
      hide Extends;
      var mid := Dispatch(db, s, from, n - 1, uids, now);
      DispatchExtends(db, s, from, n - 1, uids, now);
      ExecuteExtends(mid, s, from + n - 1, "soar", uids[n - 1], now);
    }
  }

  lemma RespondExtends(db: Db, s: Settings, a: Alert, uids: seq<string>, now: int)
    requires |uids| >= |Playbook(a)| && forall i, j | 0 <= i < j < |uids| :: uids[i] != uids[j]
    ensures Extends(s, db.orders, Respond(db, s, a, uids, now).orders, uids, now)
  {
    if s.soarEnabled {
      var created := Decisions(s, a, Playbook(a));
      DispatchExtends(db.(actions := db.actions + created), s, |db.actions|, |created|, uids, now);
    }
    hide Dispatch, Decisions, Issued;
  }

  lemma CollectEvolves(db: Db, endpoint: string, ip: Option<string>, now: int)
    ensures AllEvolve(db.orders, CollectOrders(db, endpoint, ip, now).0.orders)
  {
    hide PendingRows, Payload;
  }

  lemma RecordEvolves(db: Db, endpoint: string, uid: string, success: bool, output: string, now: int)
    ensures AllEvolve(db.orders, RecordResult(db, endpoint, uid, success, output, now).0.orders)
  {
    hide Stored;
  }

  ghost predicate Adds(s: Settings, before: seq<Order>, after: seq<Order>, now: int) {
    exists uids :: FreshUids(before, uids) && Extends(s, before, after, uids, now)
  }

  predicate Issues(step: Step) {
    step.Alerted? || step.ExecuteNow? || step.RevokeNow?
  }

  /** The steps that issue orders add fresh rows, or nothing. */
  lemma StepAdds(y: Sys, s: Settings, step: Step)
    requires GuardRailsKept(s, y.db.orders) && Issues(step)
    ensures Adds(s, y.db.orders, Do(y, s, step).db.orders, y.now)
  {
    hide GuardRailsKept, Extends, FreshUids, Harmless, Respond, ExecuteAction, Revoke;
    AddsNothing(s, y.db.orders, y.now);
    match step
    case Alerted(alert, uids) =>
      if |uids| >= |Playbook(alert)| && FreshUids(y.db.orders, uids) {
        FreshAreDistinct(y.db.orders, uids);
        RespondExtends(y.db, s, alert, uids, y.now);
      }
    case ExecuteNow(i, issuer, uid) =>
      if i < |y.db.actions| && FreshUids(y.db.orders, [uid]) {
        ExecuteExtends(y.db, s, i, issuer, uid, y.now);
      }
    case RevokeNow(j, issuer, uid) =>
      if j < |y.db.orders| && FreshUids(y.db.orders, [uid]) {
        RevokeExtends(y.db, s, j, issuer, uid, y.now);
      }
  }

  lemma AddsNothing(s: Settings, orders: seq<Order>, now: int)
    ensures Adds(s, orders, orders, now)
  {
    assert FreshUids(orders, []) && Extends(s, orders, orders, [], now);
  }

  /** The others let the existing rows evolve. */
  lemma StepEvolves(y: Sys, s: Settings, step: Step)
    requires !Issues(step)
    ensures AllEvolve(y.db.orders, Do(y, s, step).db.orders)
  {
    hide AllEvolve, CollectOrders, RecordResult, AcceptResponse, Accepts, AgentIndex;
    Unchanged(y.db.orders);
    match step
    case Poll(endpoint, ip, nonce) =>
      CollectEvolves(y.db, endpoint, ip, y.now);
    case Deliver(k) =>
      if k < |y.reports| {
        var r := y.reports[k];
        RecordEvolves(y.db, r.endpoint, r.uid, r.success, r.output, y.now);
      }
    case Receive(endpoint, k, clock, outcomes) =>
      AcceptKeepsDb(y, endpoint, k, outcomes);
    case _ =>
  }

  /** Every step either adds fresh rows or lets the existing ones evolve. */
  lemma StepOnOrders(y: Sys, s: Settings, step: Step)
    requires GuardRailsKept(s, y.db.orders)
    ensures var before, after := y.db.orders, Do(y, s, step).db.orders;
            AllEvolve(before, after) || Adds(s, before, after, y.now)
  {
    hide Do, GuardRailsKept, Adds, AllEvolve;
    if Issues(step) {
      StepAdds(y, s, step);
    } else {
      StepEvolves(y, s, step);
    }
  }

  lemma FreshAreDistinct(orders: seq<Order>, uids: seq<string>)
    requires FreshUids(orders, uids)
    ensures forall i, j | 0 <= i < j < |uids| :: uids[i] != uids[j]
  {
  }

  lemma AcceptKeepsDb(y: Sys, endpoint: string, k: nat, outcomes: seq<Outcome>)
    ensures k < |y.sent| && |outcomes| <= |y.sent[k].items| ==>
              && AcceptResponse(y, endpoint, k, outcomes).db == y.db
              && AcceptResponse(y, endpoint, k, outcomes).sent == y.sent
  {
  }

  lemma Unchanged(orders: seq<Order>)
    ensures AllEvolve(orders, orders)
  {
  }

  // ── how steps change the rest ──

  /** A poll that got its signed answer. */
  predicate Polls(y: Sys, z: Sys, endpoint: string, ip: Option<string>, nonce: string) {
    var (db, agent, items) := CollectOrders(y.db, endpoint, ip, y.now);
    && agent.Some? && (forall r | r in y.sent :: r.nonce != nonce)
    && z == y.(db := db, sent := y.sent + [Response(endpoint, nonce, y.now, items)])
  }

  /** A response the agent accepted. */
  predicate Receives(y: Sys, z: Sys, endpoint: string, k: nat, clock: int, outcomes: seq<Outcome>) {
    && k < |y.sent| && |outcomes| <= |y.sent[k].items| && Accepts(AgentOf(y, endpoint), endpoint, y.sent[k], clock)
    && z == AcceptResponse(y, endpoint, k, outcomes)
  }

  /** Only polls send, only acceptances apply, and time does not run back. */
  lemma StepKinds(y: Sys, s: Settings, step: Step)
    ensures var z := Do(y, s, step);
            && y.now <= z.now
            && (z.sent == y.sent || (step.Poll? && Polls(y, z, step.endpoint, step.ip, step.nonce)))
            && ((z.agents == y.agents && z.reports == y.reports)
                || (step.Receive? && Receives(y, z, step.endpoint, step.k, step.clock, step.outcomes)))
  {
    hide CollectOrders, RecordResult, Respond, ExecuteAction, Revoke, Accepts, FreshUids, AgentIndex, Signing.Remember;
    match step
    case Poll(endpoint, ip, nonce) =>
      PollKind(y, s, endpoint, ip, nonce);
    case _ =>
  }

  /** A poll of a known agent, with a fresh nonce, is answered. */
  lemma PollAnswered(y: Sys, s: Settings, endpoint: string, ip: Option<string>, nonce: string)
    requires CollectOrders(y.db, endpoint, ip, y.now).1.Some? && forall r | r in y.sent :: r.nonce != nonce
    ensures Polls(y, Do(y, s, Poll(endpoint, ip, nonce)), endpoint, ip, nonce)
  {
    hide CollectOrders;
    var (db, agent, items) := CollectOrders(y.db, endpoint, ip, y.now);
    var answer := Response(endpoint, nonce, y.now, items);
    assert Do(y, s, Poll(endpoint, ip, nonce)) == y.(db := db, sent := y.sent + [answer]);
  }

  lemma PollKind(y: Sys, s: Settings, endpoint: string, ip: Option<string>, nonce: string)
    ensures var z := Do(y, s, Poll(endpoint, ip, nonce)); z == y || Polls(y, z, endpoint, ip, nonce)
  {
    hide CollectOrders;
    var (db, agent, items) := CollectOrders(y.db, endpoint, ip, y.now);
    if agent.None? || exists r | r in y.sent :: r.nonce == nonce {
    } else {
      var answer := Response(endpoint, nonce, y.now, items);
      assert Do(y, s, Poll(endpoint, ip, nonce)) == y.(db := db, sent := y.sent + [answer]);
    }
  }

  // ── guard rails ──

  lemma RailsKept(s: Settings, before: seq<Order>, after: seq<Order>, now: int)
    requires GuardRailsKept(s, before) && (AllEvolve(before, after) || Adds(s, before, after, now))
    ensures GuardRailsKept(s, after)
  {
    hide Allowed;
    forall i | 0 <= i < |after|
      ensures Harmless(s, after[i])
    {
      if AllEvolve(before, after) {
        assert Evolves(before[i], after[i]) && before[i] in before;
      } else if i < |before| {
        assert after[i] == before[i] && before[i] in before;
      } else {
        assert Issued(s, after[i], now);
      }
    }
  }

  /** Every order ever stored is allowed, revocations included. */
  lemma {:induction false} EveryOrderAllowed(s: Settings, steps: seq<Step>)
    ensures GuardRailsKept(s, Run(s, steps).db.orders)
  {
    hide GuardRailsKept, Do;
    if steps != [] {
      var y := Run(s, steps[..|steps| - 1]);
      EveryOrderAllowed(s, steps[..|steps| - 1]);
      StepOnOrders(y, s, steps[|steps| - 1]);
      RailsKept(s, y.db.orders, Run(s, steps).db.orders, y.now);
    } else {
      NoOrdersAllowed(s);
    }
  }

  lemma NoOrdersAllowed(s: Settings)
    ensures GuardRailsKept(s, [])
  {
  }

  /** Distinct identifiers, in every run. */
  lemma {:induction false} UidsStayDistinct(s: Settings, steps: seq<Step>)
    ensures UidsDistinct(Run(s, steps).db.orders)
  {
    hide Harmless, Do;
    if steps != [] {
      var y := Run(s, steps[..|steps| - 1]);
      UidsStayDistinct(s, steps[..|steps| - 1]);
      EveryOrderAllowed(s, steps[..|steps| - 1]);
      StepOnOrders(y, s, steps[|steps| - 1]);
    }
  }
}
