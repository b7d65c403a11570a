/** What the agents have done in any run: each order applied at most once
    while a nonce is remembered, by the agent it was addressed to, and no
    outcome on record that the agent did not produce. */
module Application {
  import opened PyText
  import opened Orders
  import opened GuardRails
  import opened Protocol
  import opened Delivery
  import Signing

  // ── what an agent accepted ──

  predicate InSent(sent: seq<Response>, accepted: seq<nat>) {
    forall i | 0 <= i < |accepted| :: accepted[i] < |sent|
  }

  /** The nonces of the accepted responses, in order of acceptance. */
  function Nonces(sent: seq<Response>, accepted: seq<nat>): (r: seq<string>)
    requires InSent(sent, accepted)
    ensures |r| == |accepted|
    ensures forall i | 0 <= i < |r| :: r[i] == sent[accepted[i]].nonce
  {
    seq(|accepted|, i requires 0 <= i < |accepted| => sent[accepted[i]].nonce)
  }

  predicate Addressed(sent: seq<Response>, endpoint: string, accepted: seq<nat>)
    requires InSent(sent, accepted)
  {
    forall i | 0 <= i < |accepted| :: sent[accepted[i]].endpoint == endpoint
  }

  /** The agent's memory is the one its acceptances produce. */
  predicate Remembers(sent: seq<Response>, endpoint: string, a: Agent) {
    && InSent(sent, a.accepted) && Addressed(sent, endpoint, a.accepted)
    && Signing.Acceptable(Nonces(sent, a.accepted)) && a.seen == Signing.Memory(Nonces(sent, a.accepted))
  }

  predicate NoncesDistinct(sent: seq<Response>) {
    forall i, j | 0 <= i < j < |sent| :: sent[i].nonce != sent[j].nonce
  }

  lemma RemembersGrows(sent: seq<Response>, more: seq<Response>, endpoint: string, a: Agent)
    requires Remembers(sent, endpoint, a) && sent <= more
    ensures Remembers(more, endpoint, a)
  {
    hide Signing.Acceptable, Signing.Memory;
    assert Nonces(more, a.accepted) == Nonces(sent, a.accepted);
  }

  lemma RemembersAccept(sent: seq<Response>, endpoint: string, a: Agent, k: nat, clock: int,
                        applied: seq<Applied>)
    requires k < |sent| && Remembers(sent, endpoint, a) && Accepts(a, endpoint, sent[k], clock)
    ensures Remembers(sent, endpoint, Agent(Signing.Remember(a.seen, sent[k].nonce), a.accepted + [k], applied))
  {
    hide Signing.Remember;
    var before, after := Nonces(sent, a.accepted), Nonces(sent, a.accepted + [k]);
    assert after == before + [sent[k].nonce];
    assert after[..|before|] == before;
  }

  lemma RemembersKept(y: Sys, s: Settings, step: Step, endpoint: string)
    requires Remembers(y.sent, endpoint, AgentOf(y, endpoint))
    ensures Remembers(Do(y, s, step).sent, endpoint, AgentOf(Do(y, s, step), endpoint))
  {
    hide Do, Remembers, Polls, Accepts;
    var z := Do(y, s, step);
    StepKinds(y, s, step);
    SentGrows(y, s, step);
    if AgentOf(z, endpoint) == AgentOf(y, endpoint) {
      RemembersGrows(y.sent, z.sent, endpoint, AgentOf(y, endpoint));
    } else {
      var a, k := AgentOf(y, endpoint), step.k;
      RemembersAccept(y.sent, endpoint, a, k, step.clock, AgentOf(z, endpoint).applied);
    }
  }

  lemma {:induction false} MemoryKept(s: Settings, steps: seq<Step>, endpoint: string)
    ensures Remembers(Run(s, steps).sent, endpoint, AgentOf(Run(s, steps), endpoint))
  {
    hide Do;
    if steps != [] {
      hide Remembers;
      MemoryKept(s, steps[..|steps| - 1], endpoint);
      RemembersKept(Run(s, steps[..|steps| - 1]), s, steps[|steps| - 1], endpoint);
    }
  }

  lemma {:induction false} NoncesStayDistinct(s: Settings, steps: seq<Step>)
    ensures NoncesDistinct(Run(s, steps).sent)
  {
    hide Do, CollectOrders;
    if steps != [] {
      NoncesStayDistinct(s, steps[..|steps| - 1]);
      StepKinds(Run(s, steps[..|steps| - 1]), s, steps[|steps| - 1]);
    }
  }

  /** In every run: a response is accepted exactly when it is addressed to the
      agent, fresh by the agent's clock, and none of those accepted since the
      memory was last emptied. */
  lemma AcceptedIff(s: Settings, steps: seq<Step>, endpoint: string, k: nat, clock: int)
    requires k < |Run(s, steps).sent|
    ensures var y := Run(s, steps);
            var a := AgentOf(y, endpoint);
            Accepts(a, endpoint, y.sent[k], clock) <==>
              && y.sent[k].endpoint == endpoint && -60 <= clock - y.sent[k].timestamp <= 60
              && k !in a.accepted[Signing.EpochStart(|a.accepted|)..]
  {
    var y := Run(s, steps);
    var a := AgentOf(y, endpoint);
    MemoryKept(s, steps, endpoint);
    NoncesStayDistinct(s, steps);
    var nonces := Nonces(y.sent, a.accepted);
    Signing.MemoryIsEpoch(nonces);
    hide Run, Signing.Memory, Signing.Acceptable, Signing.EpochStart;
    var start := Signing.EpochStart(|nonces|);
    SameTail(y.sent, a.accepted, start, k);
  }

  lemma SameTail(sent: seq<Response>, accepted: seq<nat>, start: nat, k: nat)
    requires InSent(sent, accepted) && NoncesDistinct(sent) && start <= |accepted| && k < |sent|
    ensures sent[k].nonce in Nonces(sent, accepted)[start..] <==> k in accepted[start..]
  {
    var nonces := Nonces(sent, accepted);
    if sent[k].nonce in nonces[start..] {
      var i :| 0 <= i < |nonces[start..]| && nonces[start..][i] == sent[k].nonce;
      assert sent[accepted[start + i]].nonce == sent[k].nonce;
      assert accepted[start..][i] == k;
    }
    if k in accepted[start..] {
      var i :| 0 <= i < |accepted[start..]| && accepted[start..][i] == k;
      assert nonces[start..][i] == sent[k].nonce;
    }
  }

  /** A step's check on a response is the signature check on the header that
      was signed with the addressee's secret. */
  lemma CheckIsSignature(mac: Signing.Mac, secretOf: string -> string, body: string, a: Agent,
                         r: Response, clock: int)
    requires r.timestamp >= 0 && r.nonce != "" && Free(r.nonce, ',')
    ensures var header := Signing.SignBody(mac, secretOf(r.endpoint), body, r.timestamp, r.nonce);
            Accepts(a, r.endpoint, r, clock) <==>
            Signing.Accepts(mac, secretOf(r.endpoint), body, header, clock, a.seen)
  {
    Signing.SignedHeaderAccepted(mac, secretOf(r.endpoint), body, r.timestamp, r.nonce, clock, a.seen);
    hide Signing.Accepts, Signing.SignBody;
  }

  /** For any other agent to accept it, two secrets must give one text the same
      MAC. */
  lemma OtherAgentNeedsCollision(mac: Signing.Mac, secretOf: string -> string, body: string,
                                 endpoint: string,
                                 r: Response, clock: int, seen: set<string>)
    requires r.timestamp >= 0 && r.nonce != "" && Free(r.nonce, ',')
    requires Signing.Accepts(mac, secretOf(endpoint), body,
                             Signing.SignBody(mac, secretOf(r.endpoint), body, r.timestamp, r.nonce), clock, seen)
    ensures var material := Signing.Material(NatToString(r.timestamp), r.nonce, body);
            mac(secretOf(endpoint), material) == mac(secretOf(r.endpoint), material)
  {
    var ts := NatToString(r.timestamp);
    NatToStringReads(r.timestamp);
    Signing.HexIsAscii(mac(secretOf(r.endpoint), Signing.Material(ts, r.nonce, body)));
    Signing.HeaderRoundTrip(ts, r.nonce, mac(secretOf(r.endpoint), Signing.Material(ts, r.nonce, body)));
  }

  // ── what an agent applied ──

  predicate FromPayload(sent: seq<Response>, accepted: seq<nat>, x: Applied) {
    && x.round < |accepted| && accepted[x.round] < |sent|
    && x.position < |sent[accepted[x.round]].items|
    && var item := sent[accepted[x.round]].items[x.position];
       x.uid == item.id && x.action == item.action && x.target == item.target
  }

  predicate Earlier(x: Applied, z: Applied) {
    x.round < z.round || (x.round == z.round && x.position < z.position)
  }

  /** One application per accepted item, in turn. */
  predicate AppliesInTurn(sent: seq<Response>, a: Agent) {
    && (forall i | 0 <= i < |a.applied| :: FromPayload(sent, a.accepted, a.applied[i]))
    && (forall i, j | 0 <= i < j < |a.applied| :: Earlier(a.applied[i], a.applied[j]))
  }

  lemma AppliesGrows(sent: seq<Response>, more: seq<Response>, a: Agent)
    requires AppliesInTurn(sent, a) && sent <= more
    ensures AppliesInTurn(more, a)
  {
    forall i | 0 <= i < |a.applied|
      ensures FromPayload(more, a.accepted, a.applied[i])
    {
      assert FromPayload(sent, a.accepted, a.applied[i]);
    }
  }

  lemma AppliesAccept(sent: seq<Response>, a: Agent, k: nat, outcomes: seq<Outcome>,
                      seen: set<string>)
    requires k < |sent| && |outcomes| <= |sent[k].items| && AppliesInTurn(sent, a)
    ensures AppliesInTurn(sent, Agent(seen, a.accepted + [k],
                                      a.applied + ApplyAll(|a.accepted|, sent[k].items, outcomes)))
  {
    var done := ApplyAll(|a.accepted|, sent[k].items, outcomes);
    var accepted, applied := a.accepted + [k], a.applied + done;
    forall i | 0 <= i < |applied|
      ensures FromPayload(sent, accepted, applied[i])
      ensures i < |a.applied| ==> applied[i].round < |a.accepted|
    {
      if i < |a.applied| {
        assert FromPayload(sent, a.accepted, a.applied[i]);
      }
    }
  }

  lemma AppliesKept(y: Sys, s: Settings, step: Step, endpoint: string)
    requires AppliesInTurn(y.sent, AgentOf(y, endpoint))
    ensures AppliesInTurn(Do(y, s, step).sent, AgentOf(Do(y, s, step), endpoint))
  {
    hide Do, AppliesInTurn, Polls, Accepts;
    var z := Do(y, s, step);
    StepKinds(y, s, step);
    SentGrows(y, s, step);
    if AgentOf(z, endpoint) == AgentOf(y, endpoint) {
      AppliesGrows(y.sent, z.sent, AgentOf(y, endpoint));
    } else {
      AppliesAccept(y.sent, AgentOf(y, endpoint), step.k, step.outcomes, AgentOf(z, endpoint).seen);
    }
  }

  lemma {:induction false} TurnsKept(s: Settings, steps: seq<Step>, endpoint: string)
    ensures AppliesInTurn(Run(s, steps).sent, AgentOf(Run(s, steps), endpoint))
  {
    hide Do;
    if steps != [] {
      hide AppliesInTurn;
      TurnsKept(s, steps[..|steps| - 1], endpoint);
      AppliesKept(Run(s, steps[..|steps| - 1]), s, steps[|steps| - 1], endpoint);
    }
  }

  // ── at most once ──

  lemma {:induction false} AcceptablePrefix(accepted: seq<string>, n: nat)
    requires Signing.Acceptable(accepted) && n <= |accepted|
    ensures Signing.Acceptable(accepted[..n])
  {
    if n < |accepted| {
      AcceptablePrefix(accepted[..|accepted| - 1], n);
      assert accepted[..|accepted| - 1][..n] == accepted[..n];
    } else {
      assert accepted[..n] == accepted;
    }
  }

  lemma FreshWhenAccepted(accepted: seq<string>, j: nat)
    requires Signing.Acceptable(accepted) && j < |accepted|
    ensures accepted[j] !in Signing.CurrentEpoch(accepted[..j])
  {
    hide *;
    AcceptablePrefix(accepted, j + 1);
    AcceptablePrefix(accepted, j);
    assert accepted[..j + 1] == accepted[..j] + [accepted[j]];
    Signing.RefusedIffInCurrentEpoch(accepted[..j], accepted[j]);
  }

  lemma AcceptedAgainIsOlder(accepted: seq<string>, i: nat, j: nat)
    requires Signing.Acceptable(accepted) && i < j < |accepted| && accepted[i] == accepted[j]
    ensures i < Signing.EpochStart(j)
  {
    hide Signing.Acceptable, Signing.EpochStart;
    FreshWhenAccepted(accepted, j);
    var start := Signing.EpochStart(j);
    assert Signing.CurrentEpoch(accepted[..j]) == accepted[start..j];
    assert forall k | start <= k < j :: accepted[start..j][k - start] == accepted[k];
  }

  /** An order is applied twice only by accepting the one response that holds
      it twice, the second time after the memory that held its nonce was
      emptied. */
  lemma ReappliedOnlyWhenForgotten(s: Settings, steps: seq<Step>, endpoint: string, i: nat, j: nat)
    requires i < j < |AgentOf(Run(s, steps), endpoint).applied|
    requires AgentOf(Run(s, steps), endpoint).applied[i].uid == AgentOf(Run(s, steps), endpoint).applied[j].uid
    ensures var a := AgentOf(Run(s, steps), endpoint);
            && a.applied[i].round < Signing.EpochStart(a.applied[j].round)
            && a.applied[j].round < |a.accepted|
            && a.accepted[a.applied[i].round] == a.accepted[a.applied[j].round]
  {
    var y := Run(s, steps);
    var a := AgentOf(y, endpoint);
    MemoryKept(s, steps, endpoint);
    TurnsKept(s, steps, endpoint);
    DeliveredOnce(s, steps);
    hide Run, Signing.Acceptable, Signing.EpochStart, Signing.Memory;
    var x, z := a.applied[i], a.applied[j];
    assert FromPayload(y.sent, a.accepted, x) && FromPayload(y.sent, a.accepted, z) && Earlier(x, z);
    var k, l := a.accepted[x.round], a.accepted[z.round];
    assert y.sent[k].items[x.position].id == y.sent[l].items[z.position].id;
    assert k == l && x.position == z.position;
    AcceptedAgainIsOlder(Nonces(y.sent, a.accepted), x.round, z.round);
  }

  /** Up to 10,001 acceptances, whatever the network repeats, no order is
      applied twice. */
  lemma AppliedAtMostOnce(s: Settings, steps: seq<Step>, endpoint: string, i: nat, j: nat)
    requires i < j < |AgentOf(Run(s, steps), endpoint).applied|
    requires |AgentOf(Run(s, steps), endpoint).accepted| <= 10_001
    ensures AgentOf(Run(s, steps), endpoint).applied[i].uid != AgentOf(Run(s, steps), endpoint).applied[j].uid
  {
    hide Run;
    var a := AgentOf(Run(s, steps), endpoint);
    if a.applied[i].uid == a.applied[j].uid {
      ReappliedOnlyWhenForgotten(s, steps, endpoint, i, j);
      Signing.FirstEpoch(a.applied[j].round);
    }
  }

  // ── by the right agent ──

  /** Whatever an agent applied is an order of its own endpoint, and it applied
      the verb and the target the order was stored with. */
  lemma AppliedByItsAgent(s: Settings, steps: seq<Step>, endpoint: string, i: nat)
    requires i < |AgentOf(Run(s, steps), endpoint).applied|
    ensures var y := Run(s, steps);
            exists row | 0 <= row < |y.db.orders| ::
              var o, x := y.db.orders[row], AgentOf(y, endpoint).applied[i];
              && o.uid == x.uid && o.action == x.action && o.target == x.target && o.endpointId == endpoint
              && o.status != Queued
  {
    var y := Run(s, steps);
    var a := AgentOf(y, endpoint);
    MemoryKept(s, steps, endpoint);
    TurnsKept(s, steps, endpoint);
    DeliveredInTime(s, steps);
    hide Run, Signing.Acceptable, Signing.Memory;
    var x := a.applied[i];
    assert FromPayload(y.sent, a.accepted, x);
    var r := y.sent[a.accepted[x.round]];
    assert r in y.sent && r.items[x.position] in r.items;
    var row :| 0 <= row < |y.db.orders| && HandedAs(y.db.orders[row], r, r.items[x.position]);
    assert y.db.orders[row].uid == x.uid;
  }

  /** So no agent ever acts against the guard rails, in any run. */
  lemma AppliedIsAllowed(s: Settings, steps: seq<Step>, endpoint: string, i: nat)
    requires i < |AgentOf(Run(s, steps), endpoint).applied|
    ensures var x := AgentOf(Run(s, steps), endpoint).applied[i]; Allowed(s, x.action, x.target)
  {
    AppliedByItsAgent(s, steps, endpoint, i);
    EveryOrderAllowed(s, steps);
    hide Run, Allowed;
    var y := Run(s, steps);
    var row :| 0 <= row < |y.db.orders|
               && y.db.orders[row].action == AgentOf(y, endpoint).applied[i].action
               && y.db.orders[row].target == AgentOf(y, endpoint).applied[i].target;
    assert Harmless(s, y.db.orders[row]);
  }

  /** Two agents never apply the same order. */
  lemma AppliedByOneAgent(s: Settings, steps: seq<Step>, e: string, f: string, i: nat, j: nat)
    requires i < |AgentOf(Run(s, steps), e).applied| && j < |AgentOf(Run(s, steps), f).applied|
    requires AgentOf(Run(s, steps), e).applied[i].uid == AgentOf(Run(s, steps), f).applied[j].uid
    ensures e == f
  {
    var y := Run(s, steps);
    AppliedByItsAgent(s, steps, e, i);
    AppliedByItsAgent(s, steps, f, j);
    UidsStayDistinct(s, steps);
    hide Run;
    var u := AgentOf(y, e).applied[i].uid;
    var a :| 0 <= a < |y.db.orders| && y.db.orders[a].uid == u && y.db.orders[a].endpointId == e;
    var b :| 0 <= b < |y.db.orders| && y.db.orders[b].uid == u && y.db.orders[b].endpointId == f;
    assert a == b;
  }

  // ── outcomes ──

  /** The agent applied the order, with this outcome and this (cut) output. */
  predicate Did(a: Agent, uid: string, success: bool, output: string) {
    exists i | 0 <= i < |a.applied| ::
      a.applied[i].uid == uid && a.applied[i].success == success && Stored(a.applied[i].output) == output
  }

  predicate ReportsTrue(y: Sys) {
    forall r | r in y.reports :: Did(AgentOf(y, r.endpoint), r.uid, r.success, r.output)
  }

  predicate Concluded(o: Order) {
    o.status == Succeeded || o.status == Failed
  }

  /** The row carries what the report says. */
  predicate Records(o: Order, r: Report) {
    && o.uid == r.uid && o.endpointId == r.endpoint
    && o.status == (if r.success then Succeeded else Failed) && o.output == Some(Stored(r.output))
  }

  predicate OutcomeTrue(y: Sys, o: Order) {
    o.output.Some? && Did(AgentOf(y, o.endpointId), o.uid, o.status == Succeeded, o.output.value)
  }

  predicate OutcomesTrue(y: Sys) {
    forall o | o in y.db.orders && Concluded(o) :: OutcomeTrue(y, o)
  }

  /** What an agent did stays done. */
  lemma DidKept(y: Sys, s: Settings, step: Step, endpoint: string)
    ensures AgentOf(y, endpoint).applied <= AgentOf(Do(y, s, step), endpoint).applied
  {
    hide Do, Polls, Accepts, ApplyAll;
    StepKinds(y, s, step);
  }

  lemma DidMonotone(a: Agent, b: Agent, uid: string, success: bool, output: string)
    requires a.applied <= b.applied && Did(a, uid, success, output)
    ensures Did(b, uid, success, output)
  {
    hide Stored;
    var i :| 0 <= i < |a.applied| && a.applied[i].uid == uid && a.applied[i].success == success
             && Stored(a.applied[i].output) == output;
    assert b.applied[i] == a.applied[i];
  }

  lemma NewReportDone(y: Sys, z: Sys, endpoint: string, k: nat, clock: int, outcomes: seq<Outcome>,
                      r: Report)
    requires Receives(y, z, endpoint, k, clock, outcomes) && r in z.reports && r !in y.reports
    ensures Did(AgentOf(z, r.endpoint), r.uid, r.success, r.output)
  {
    hide Accepts, Signing.Remember, Stored;
    var a, b := AgentOf(y, endpoint), AgentOf(z, endpoint);
    var done := ApplyAll(|a.accepted|, y.sent[k].items, outcomes);
    var p :| 0 <= p < |done| && ReportAll(endpoint, done)[p] == r;
    assert b.applied[|a.applied| + p] == done[p];
  }

  lemma ReportsKept(y: Sys, s: Settings, step: Step)
    requires ReportsTrue(y)
    ensures ReportsTrue(Do(y, s, step))
  {
    hide Do, Polls, Receives, Did;
    var z := Do(y, s, step);
    StepKinds(y, s, step);
    forall r | r in z.reports
      ensures Did(AgentOf(z, r.endpoint), r.uid, r.success, r.output)
    {
      if r in y.reports {
        DidKept(y, s, step, r.endpoint);
        DidMonotone(AgentOf(y, r.endpoint), AgentOf(z, r.endpoint), r.uid, r.success, r.output);
      } else {
        NewReportDone(y, z, step.endpoint, step.k, step.clock, step.outcomes, r);
      }
    }
  }

  lemma CollectConcludesNothing(db: Db, endpoint: string, ip: Option<string>, now: int, o: Order)
    requires o in CollectOrders(db, endpoint, ip, now).0.orders && Concluded(o)
    ensures o in db.orders
  {
    hide PendingRows, Payload;
    var after := CollectOrders(db, endpoint, ip, now).0.orders;
    var i :| 0 <= i < |after| && after[i] == o;
    assert db.orders[i] in db.orders;
  }

  lemma RecordConcludes(db: Db, r: Report, now: int, o: Order)
    requires o in RecordResult(db, r.endpoint, r.uid, r.success, r.output, now).0.orders
    ensures o in db.orders || Records(o, r)
  {
    hide Stored;
    var after := RecordResult(db, r.endpoint, r.uid, r.success, r.output, now).0.orders;
    var i :| 0 <= i < |after| && after[i] == o;
    if FindOrder(db.orders, r.uid, r.endpoint) != Some(i) {
      assert db.orders[i] in db.orders;
    }
  }

  /** Only a report concludes an order. */
  lemma ConcludedByReport(y: Sys, s: Settings, step: Step, o: Order)
    requires GuardRailsKept(s, y.db.orders) && o in Do(y, s, step).db.orders && Concluded(o)
    ensures o in y.db.orders || (exists r :: r in y.reports && Records(o, r))
  {
    hide GuardRailsKept, CollectOrders, RecordResult, Respond, ExecuteAction, Revoke, AcceptResponse, FreshUids,
         Accepts;
    match step
    case Poll(endpoint, ip, nonce) =>
      if o !in y.db.orders {
        CollectConcludesNothing(y.db, endpoint, ip, y.now, o);
      }
    case Deliver(k) =>
      if o !in y.db.orders {
        RecordConcludes(y.db, y.reports[k], y.now, o);
        assert y.reports[k] in y.reports;
      }
    case Receive(endpoint, k, clock, outcomes) =>
      AcceptKeepsDb(y, endpoint, k, outcomes);
    case Alerted(_, _) => AddedAreQueued(y, s, step, o);
    case ExecuteNow(_, _, _) => AddedAreQueued(y, s, step, o);
    case RevokeNow(_, _, _) => AddedAreQueued(y, s, step, o);
    case _ =>
  }

  lemma AddedAreQueued(y: Sys, s: Settings, step: Step, o: Order)
    requires Issues(step)
    requires GuardRailsKept(s, y.db.orders) && o in Do(y, s, step).db.orders && Concluded(o)
    ensures o in y.db.orders
  {
    hide GuardRailsKept, AllEvolve, Do;
    StepAdds(y, s, step);
    var after := Do(y, s, step).db.orders;
    var i :| 0 <= i < |after| && after[i] == o;
    assert |y.db.orders| <= i ==> Issued(s, after[i], y.now);
  }

  lemma AlreadyCut(a: Agent, r: Report)
    requires Did(a, r.uid, r.success, r.output)
    ensures Stored(r.output) == r.output
  {
  }

  lemma OutcomesKept(y: Sys, s: Settings, step: Step)
    requires GuardRailsKept(s, y.db.orders) && ReportsTrue(y) && OutcomesTrue(y)
    ensures OutcomesTrue(Do(y, s, step))
  {
    hide Do, GuardRailsKept, Did, Stored;
    var z := Do(y, s, step);
    forall o | o in z.db.orders && Concluded(o)
      ensures OutcomeTrue(z, o)
    {
      ConcludedByReport(y, s, step, o);
      DidKept(y, s, step, o.endpointId);
      var a, b := AgentOf(y, o.endpointId), AgentOf(z, o.endpointId);
      if o in y.db.orders {
        assert OutcomeTrue(y, o);
        DidMonotone(a, b, o.uid, o.status == Succeeded, o.output.value);
      } else {
        var r :| r in y.reports && Records(o, r);
        AlreadyCut(a, r);
        DidMonotone(a, b, o.uid, r.success, r.output);
      }
    }
  }

  /** An order stands as succeeded or failed only if the agent it was sent to
      applied it with that outcome and output. */
  lemma {:induction false} OutcomesAreReal(s: Settings, steps: seq<Step>)
    ensures ReportsTrue(Run(s, steps)) && OutcomesTrue(Run(s, steps))
  {
    hide Do;
    if steps != [] {
      hide ReportsTrue, OutcomesTrue, GuardRailsKept;
      var y := Run(s, steps[..|steps| - 1]);
      OutcomesAreReal(s, steps[..|steps| - 1]);
      EveryOrderAllowed(s, steps[..|steps| - 1]);
      ReportsKept(y, s, steps[|steps| - 1]);
      OutcomesKept(y, s, steps[|steps| - 1]);
    }
  }

  // ── reports ──

  /** What an agent did is reported, with the first 2048 characters of the output. */
  predicate AllReported(y: Sys, endpoint: string) {
    forall x | x in AgentOf(y, endpoint).applied ::
      Report(endpoint, x.uid, x.success, if |x.output| > 2048 then x.output[..2048] else x.output) in y.reports
  }

  lemma ReportedKept(y: Sys, s: Settings, step: Step, endpoint: string)
    requires AllReported(y, endpoint)
    ensures AllReported(Do(y, s, step), endpoint)
  {
    var z := Do(y, s, step);
    StepKinds(y, s, step);
    hide Do, Polls, Accepts, Signing.Remember;
    if AgentOf(z, endpoint) != AgentOf(y, endpoint) {
      var a, k := AgentOf(y, endpoint), step.k;
      var done := ApplyAll(|a.accepted|, y.sent[k].items, step.outcomes);
      var reports := ReportAll(endpoint, done);
      assert z.reports == y.reports + reports && AgentOf(z, endpoint).applied == a.applied + done;
      forall x | x in done
        ensures Report(endpoint, x.uid, x.success, if |x.output| > 2048 then x.output[..2048] else x.output) in reports
      {
        var p :| 0 <= p < |done| && done[p] == x;
        assert reports[p] in reports;
      }
    }
  }

  /** In every run everything an agent applied has been reported. */
  lemma {:induction false} EveryApplicationReported(s: Settings, steps: seq<Step>, endpoint: string)
    ensures AllReported(Run(s, steps), endpoint)
  {
    hide Do;
    if steps != [] {
      hide AllReported;
      EveryApplicationReported(s, steps[..|steps| - 1], endpoint);
      ReportedKept(Run(s, steps[..|steps| - 1]), s, steps[|steps| - 1], endpoint);
    }
  }

  /** An order is concluded by a report alone, from an endpoint that is registered
      and enabled when it arrives. */
  lemma ConcludedWhileEnabled(y: Sys, s: Settings, step: Step, o: Order)
    requires GuardRailsKept(s, y.db.orders) && o in Do(y, s, step).db.orders && Concluded(o) && o !in y.db.orders
    ensures step.Deliver? && EnabledAt(y, o.endpointId)
  {
    hide GuardRailsKept, CollectOrders, RecordResult, Respond, ExecuteAction, Revoke, AcceptResponse, FreshUids,
         Accepts;
    match step
    case Poll(endpoint, ip, nonce) => CollectConcludesNothing(y.db, endpoint, ip, y.now, o);
    case Deliver(k) => RecordConcludes(y.db, y.reports[k], y.now, o);
    case Receive(endpoint, k, clock, outcomes) => AcceptKeepsDb(y, endpoint, k, outcomes);
    case Alerted(_, _) => AddedAreQueued(y, s, step, o);
    case ExecuteNow(_, _, _) => AddedAreQueued(y, s, step, o);
    case RevokeNow(_, _, _) => AddedAreQueued(y, s, step, o);
    case _ =>
  }
}
