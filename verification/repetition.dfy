/** How an order can be applied twice after all: a run that does it, and how
    close together, on the agent's clock, the two times must be. */
module Repetition {
  import opened PyText
  import opened Orders
  import opened GuardRails
  import opened Protocol
  import opened Application
  import Signing

  lemma RunAppend(s: Settings, steps: seq<Step>, step: Step)
    ensures Run(s, steps + [step]) == Do(Run(s, steps), s, step)
  {
    hide Do;
    assert (steps + [step])[..|steps|] == steps;
  }

  // ── what the end of a block forgets ──

  /** With the first acceptance of a new block, whatever the block just ended
      had accepted can be accepted again while it is fresh. */
  lemma ForgottenAtBlockEnd(s: Settings, steps: seq<Step>, endpoint: string, k: nat, clock: int)
    requires var n := |AgentOf(Run(s, steps), endpoint).accepted|;
             && n > 1 && n % 10_000 == 1
             && k in AgentOf(Run(s, steps), endpoint).accepted[n - 10_001..n - 1]
    ensures var y := Run(s, steps);
            && k < |y.sent|
            && (Accepts(AgentOf(y, endpoint), endpoint, y.sent[k], clock) <==>
                -60 <= clock - y.sent[k].timestamp <= 60)
  {
    var y := Run(s, steps);
    var a := AgentOf(y, endpoint);
    var n := |a.accepted|;
    NewBlock(n);
    MemoryKept(s, steps, endpoint);
    NotAgain(y.sent, endpoint, a, k);
    hide Run, Accepts, Remembers, Signing.EpochStart;
    AcceptedIff(s, steps, endpoint, k, clock);
  }

  /** Nothing of the block before the newest acceptance is in the new one. */
  lemma NotAgain(sent: seq<Response>, endpoint: string, a: Agent, k: nat)
    requires var n := |a.accepted|; n > 10_000 && n % 10_000 == 1 && k in a.accepted[n - 10_001..n - 1]
    requires Remembers(sent, endpoint, a)
    ensures k < |sent| && k !in a.accepted[|a.accepted| - 1..]
  {
    var n := |a.accepted|;
    var j :| 0 <= j < 10_000 && a.accepted[n - 10_001..n - 1][j] == k;
    LatestIsNew(sent, endpoint, a, n - 10_001 + j);
    hide Remembers;
  }

  lemma LatestIsNew(sent: seq<Response>, endpoint: string, a: Agent, i: nat)
    requires var n := |a.accepted|; n > 10_000 && n % 10_000 == 1 && n - 10_001 <= i < n - 1
    requires Remembers(sent, endpoint, a)
    ensures a.accepted[i] < |sent| && a.accepted[i] != a.accepted[|a.accepted| - 1]
  {
    var n, nonces := |a.accepted|, Nonces(sent, a.accepted);
    hide Signing.Acceptable, Signing.Memory, Signing.EpochStart;
    NewBlock(n);
    if nonces[i] == nonces[n - 1] {
      AcceptedAgainIsOlder(nonces, i, n - 1);
    }
  }

  lemma NewBlock(n: nat)
    requires n > 1 && n % 10_000 == 1
    ensures n > 10_000
    ensures Signing.EpochStart(n) == n - 1 && Signing.EpochStart(n - 1) == n - 10_001
  {
    Signing.EpochsAreBlocks(n);
    Signing.EpochsAreBlocks(n - 1);
    hide Signing.EpochStart;
  }

  // ── a run that applies an order twice ──

  const HOST := "host"
  const UID := "order"

  /** The last answer of the first block. */
  const LAST: nat := 9_999

  function Enrolled(): AgentRow {
    AgentRow(HOST, None, true, None, None)
  }

  function BruteForce(target: string): Alert {
    Alert(0, High, Some("brute_force"), Some(target), None, None, None)
  }

  /** The moment of turn `k`, with `pause` seconds between turns. */
  function Time(pause: nat, k: nat): nat {
    if k == 0 then 0 else Time(pause, k - 1) + pause
  }

  function PollOf(k: nat): Step {
    Poll(HOST, None, NatToString(k))
  }

  function ReceiptOf(pause: nat, k: nat): Step {
    Receive(HOST, k, Time(pause, k), [])
  }

  /** One agent, polling after every pause, with nothing to do. */
  function Idle(pause: nat, n: nat): seq<Step> {
    if n == 0 then [Enrol(Enrolled())]
    else Idle(pause, n - 1) + [PollOf(n - 1)] + [ReceiptOf(pause, n - 1)] + [Wait(pause)]
  }

  function Applying(pause: nat, k: nat): Step {
    Receive(HOST, LAST, Time(pause, k), [Outcome(true, "")])
  }

  /** The order goes out with the last answer of the block; the next turn starts
      a new block; and one turn later the network repeats the answer. */
  function Repeating(target: string, pause: nat): seq<Step> {
    Idle(pause, LAST) + [Alerted(BruteForce(target), [UID])] + [PollOf(LAST)] + [Applying(pause, LAST)]
    + [Wait(pause)] + [PollOf(LAST + 1)] + [ReceiptOf(pause, LAST + 1)]
    + [Wait(pause)] + [Applying(pause, LAST + 2)]
  }

  function TheItem(target: string, now: int): Item {
    Item(UID, "block_ip", target, Some(0), now)
  }

  /** Settings under which the alert leads to an order that can be delivered. */
  predicate Containable(s: Settings, target: string) {
    && s.soarEnabled && s.soarExecute && s.orderTtl >= 0 && target != ""
    && Allowed(s, "block_ip", target)
  }

  /** The answers so far: one a turn, empty but for the one with the order. */
  function Answered(target: string, pause: nat, k: nat): Response {
    Response(HOST, NatToString(k), Time(pause, k), if k == LAST then [TheItem(target, Time(pause, LAST))] else [])
  }

  predicate AllAnswered(y: Sys, target: string, pause: nat, n: nat) {
    && |y.sent| == n && (forall k | 0 <= k < n :: y.sent[k] == Answered(target, pause, k))
    && |AgentOf(y, HOST).accepted| == n && (forall k | 0 <= k < n :: AgentOf(y, HOST).accepted[k] == k)
  }

  /** The one agent, enabled, and no order in the queue. */
  predicate NothingQueued(db: Db) {
    && |db.agents| == 1 && db.agents[0].endpointId == HOST && db.agents[0].enabled && db.agents[0].hostname == None
    && forall o | o in db.orders :: o.status != Queued
  }

  /** Before turn `n`, with these applications. */
  predicate Before(y: Sys, target: string, pause: nat, n: nat, applied: seq<Applied>) {
    && y.now == Time(pause, n) && AllAnswered(y, target, pause, n) && NothingQueued(y.db)
    && AgentOf(y, HOST).applied == applied
    && (applied == [] ==> y.db.orders == [] && y.db.actions == [])
  }

  // Polling.

  /** A fresh nonce for every turn. */
  lemma FreshNonce(y: Sys, target: string, pause: nat, n: nat)
    requires AllAnswered(y, target, pause, n)
    ensures forall r | r in y.sent :: r.nonce != NatToString(n)
  {
    hide NatToString;
    forall r | r in y.sent
      ensures r.nonce != NatToString(n)
    {
      var k :| 0 <= k < n && y.sent[k] == r;
      if NatToString(k) == NatToString(n) {
        NatToStringInjective(k, n);
        assert false;
      }
    }
  }

  lemma EmptyPoll(db: Db, now: int)
    requires NothingQueued(db)
    ensures var (after, agent, items) := CollectOrders(db, HOST, None, now);
            && agent.Some? && items == [] && after.orders == db.orders && after.actions == db.actions
            && NothingQueued(after)
  {
    var orders := db.orders;
    NoneQueued(orders, |orders|);
    assert PendingRows(orders, HOST) == [];
    assert Payload(orders, [], now) == [];
    assert Settled(orders, [], now) == orders;
    hide PendingRows, Payload, Settled;
  }

  lemma {:induction false} NoneQueued(orders: seq<Order>, n: nat)
    requires n <= |orders| && forall o | o in orders :: o.status != Queued
    ensures QueuedRows(orders, HOST, n) == []
  {
    if n > 0 {
      NoneQueued(orders, n - 1);
    }
  }

  /** A turn's poll, when nothing waits. */
  lemma IdlePolled(y: Sys, s: Settings, target: string, pause: nat, n: nat, applied: seq<Applied>)
    requires Before(y, target, pause, n, applied) && n != LAST
    ensures var z := Do(y, s, PollOf(n));
            && z.sent == y.sent + [Answered(target, pause, n)] && z.agents == y.agents && z.now == y.now
            && NothingQueued(z.db) && z.db.orders == y.db.orders && z.db.actions == y.db.actions
  {
    EmptyPoll(y.db, y.now);
    FreshNonce(y, target, pause, n);
    hide CollectOrders, NatToString, Do, NothingQueued;
    PollAnswered(y, s, HOST, None, NatToString(n));
  }

  // Receiving.

  /** The check on the newest answer passes, in any run. */
  lemma NewestAccepted(s: Settings, steps: seq<Step>, target: string, pause: nat, n: nat)
    requires var y := Run(s, steps);
             && |y.sent| == n + 1 && y.sent[n] == Answered(target, pause, n)
             && |AgentOf(y, HOST).accepted| == n && (forall k | 0 <= k < n :: AgentOf(y, HOST).accepted[k] == k)
    ensures Accepts(AgentOf(Run(s, steps), HOST), HOST, Run(s, steps).sent[n], Time(pause, n))
  {
    AcceptedIff(s, steps, HOST, n, Time(pause, n));
    hide Run, Accepts, NatToString, Signing.EpochStart;
    var a := AgentOf(Run(s, steps), HOST);
    assert forall x | x in a.accepted[Signing.EpochStart(|a.accepted|)..] :: x < n;
  }

  lemma Received(z: Sys, s: Settings, target: string, pause: nat, n: nat, clock: int, outcomes: seq<Outcome>, k: nat)
    requires k < |z.sent| && |outcomes| <= |z.sent[k].items| && Accepts(AgentOf(z, HOST), HOST, z.sent[k], clock)
    ensures var after := Do(z, s, Receive(HOST, k, clock, outcomes));
            && after.now == z.now && after.db == z.db && after.sent == z.sent
            && AgentOf(after, HOST).accepted == AgentOf(z, HOST).accepted + [k]
            && AgentOf(after, HOST).applied == AgentOf(z, HOST).applied
                                              + ApplyAll(|AgentOf(z, HOST).accepted|, z.sent[k].items, outcomes)
  {
    hide Accepts, Signing.Remember;
  }

  // Idle turns.

  lemma IdleStart(s: Settings, target: string, pause: nat)
    ensures Before(Run(s, Idle(pause, 0)), target, pause, 0, [])
  {
    var enrol := Enrol(Enrolled());
    assert [] + [enrol] == [enrol];
    RunAppend(s, [], enrol);
    assert Run(s, [enrol]) == START.(db := Db([Enrolled()], [], []));
  }

  lemma IdleTurn(s: Settings, steps: seq<Step>, target: string, pause: nat, n: nat, applied: seq<Applied>)
    requires Before(Run(s, steps), target, pause, n, applied) && n != LAST
    ensures Before(Run(s, steps + [PollOf(n)] + [ReceiptOf(pause, n)] + [Wait(pause)]), target, pause, n + 1, applied)
  {
    var polled := steps + [PollOf(n)];
    var received := polled + [ReceiptOf(pause, n)];
    RunAppend(s, steps, PollOf(n));
    RunAppend(s, polled, ReceiptOf(pause, n));
    RunAppend(s, received, Wait(pause));
    var y, z := Run(s, steps), Run(s, polled);
    hide Run;
    IdlePolled(y, s, target, pause, n, applied);
    NewestAccepted(s, polled, target, pause, n);
    Received(z, s, target, pause, n, Time(pause, n), [], n);
    IdleEnds(y, z, Run(s, received), Run(s, received + [Wait(pause)]), s, target, pause, n, applied);
  }

  lemma IdleEnds(y: Sys, z: Sys, v: Sys, w: Sys, s: Settings, target: string, pause: nat, n: nat, applied: seq<Applied>)
    requires Before(y, target, pause, n, applied)
    requires z.sent == y.sent + [Answered(target, pause, n)] && z.agents == y.agents && z.now == y.now
    requires v.now == z.now && NothingQueued(v.db) && v.sent == z.sent && AgentOf(v, HOST).applied == applied
    requires v.db.orders == y.db.orders && v.db.actions == y.db.actions
    requires AgentOf(v, HOST).accepted == AgentOf(z, HOST).accepted + [n] && w == Do(v, s, Wait(pause))
    ensures Before(w, target, pause, n + 1, applied)
  {
    hide NothingQueued, Answered;
    assert w == v.(now := v.now + pause);
    hide Do;
  }

  lemma {:induction false} AfterIdle(s: Settings, target: string, pause: nat, n: nat)
    requires n <= LAST
    ensures Before(Run(s, Idle(pause, n)), target, pause, n, [])
  {
    hide Run, Before;
    if n == 0 {
      IdleStart(s, target, pause);
    } else {
      AfterIdle(s, target, pause, n - 1);
      IdleTurn(s, Idle(pause, n - 1), target, pause, n - 1, []);
    }
  }
  // The turn with the order.

  /** A settled table with the order behind it. */
  predicate OneWaiting(db: Db, s: Settings, target: string, now: int) {
    && |db.agents| == 1 && db.agents[0].endpointId == HOST && db.agents[0].enabled && db.agents[0].hostname == None
    && db.orders == [NewOrder(s, HOST, "block_ip", target, Some(0), Some(0), "soar", UID, now)]
  }

  lemma Dispatched(db: Db, s: Settings, target: string, now: int)
    requires Containable(s, target) && NothingQueued(db) && db.orders == [] && db.actions == []
    ensures OneWaiting(Respond(db, s, BruteForce(target), [UID], now), s, target, now)
  {
    RefusedIffNotAllowed(s, "block_ip", target);
    hide RefuseReason, Allowed, True;
    var alert := BruteForce(target);
    var action := Action(BlockIp, target, Some(0), None, Pending, Decided(true));
    assert Playbook(alert) == [BlockIp];
    assert [BlockIp][1..] == [];
    assert Decisions(s, alert, []) == [];
    assert Decisions(s, alert, [BlockIp]) == [action];
    var recorded := db.(actions := [action]);
    assert db.actions + [action] == [action];
    assert Dispatch(recorded, s, 0, 0, [UID], now) == recorded;
    assert db.agents == [db.agents[0]] && db.agents[1..] == [];
    assert Enabled(db.agents) == [db.agents[0]];
    assert AgentFor(db.agents, None) == Some(db.agents[0]);
    assert Dispatch(recorded, s, 0, 1, [UID], now) == ExecuteAction(recorded, s, 0, "soar", UID, now).0;
  }

  lemma OrderCollected(db: Db, s: Settings, target: string, now: int)
    requires Containable(s, target) && OneWaiting(db, s, target, now)
    ensures var (after, agent, items) := CollectOrders(db, HOST, None, now);
            agent.Some? && items == [TheItem(target, now)] && NothingQueued(after) && after.orders != []
  {
    var orders := db.orders;
    assert QueuedRows(orders, HOST, 0) == [];
    assert QueuedRows(orders, HOST, 1) == [0];
    assert [0][..0] == [];
    assert SortByCreation(orders, []) == [];
    assert SortByCreation(orders, [0]) == [0];
    assert PendingRows(orders, HOST) == [0];
    assert Payload(orders, [], now) == [];
    assert Payload(orders, [0], now) == [TheItem(target, now)];
    assert Settled(orders, [0], now)[0] == Settle(orders[0], now);
    hide PendingRows, Payload, Settled, Allowed;
  }

  lemma OrderIssued(y: Sys, s: Settings, target: string, pause: nat)
    requires Containable(s, target) && Before(y, target, pause, LAST, [])
    ensures var z := Do(y, s, Alerted(BruteForce(target), [UID]));
            && OneWaiting(z.db, s, target, y.now)
            && z.now == y.now && z.sent == y.sent && z.agents == y.agents
  {
    Dispatched(y.db, s, target, y.now);
    hide Respond, Containable, NothingQueued;
    assert FreshUids(y.db.orders, [UID]);
    assert Playbook(BruteForce(target)) == [BlockIp];
  }

  lemma OrderPolled(y: Sys, s: Settings, target: string, pause: nat)
    requires Containable(s, target) && OneWaiting(y.db, s, target, y.now)
    requires y.now == Time(pause, LAST) && AllAnswered(y, target, pause, LAST)
    ensures var z := Do(y, s, PollOf(LAST));
            && z.sent == y.sent + [Answered(target, pause, LAST)] && z.agents == y.agents && z.now == y.now
            && NothingQueued(z.db) && z.db.orders != []
  {
    OrderCollected(y.db, s, target, y.now);
    FreshNonce(y, target, pause, LAST);
    hide CollectOrders, NatToString, Do, NothingQueued, OneWaiting, Containable;
    PollAnswered(y, s, HOST, None, NatToString(LAST));
  }

  function First(target: string): Applied {
    Applied(LAST, 0, UID, "block_ip", target, true, "")
  }

  lemma OrderTurn(s: Settings, steps: seq<Step>, target: string, pause: nat)
    requires Containable(s, target) && Before(Run(s, steps), target, pause, LAST, [])
    ensures Before(Run(s, steps + [Alerted(BruteForce(target), [UID])] + [PollOf(LAST)] + [Applying(pause, LAST)]
                          + [Wait(pause)]), target, pause, LAST + 1, [First(target)])
  {
    var alerted := steps + [Alerted(BruteForce(target), [UID])];
    var polled := alerted + [PollOf(LAST)];
    var received := polled + [Applying(pause, LAST)];
    RunAppend(s, steps, Alerted(BruteForce(target), [UID]));
    RunAppend(s, alerted, PollOf(LAST));
    RunAppend(s, polled, Applying(pause, LAST));
    RunAppend(s, received, Wait(pause));
    var y := Run(s, steps);
    OrderIssued(y, s, target, pause);
    hide Run, Containable, NothingQueued, OneWaiting;
    OrderPolled(Run(s, alerted), s, target, pause);
    NewestAccepted(s, polled, target, pause, LAST);
    Received(Run(s, polled), s, target, pause, LAST, Time(pause, LAST), [Outcome(true, "")], LAST);
    OrderEnds(y, Run(s, received), Run(s, received + [Wait(pause)]), s, target, pause);
  }

  lemma OrderEnds(y: Sys, v: Sys, w: Sys, s: Settings, target: string, pause: nat)
    requires Before(y, target, pause, LAST, [])
    requires v.now == y.now && NothingQueued(v.db) && v.sent == y.sent + [Answered(target, pause, LAST)]
    requires AgentOf(v, HOST).accepted == AgentOf(y, HOST).accepted + [LAST]
    requires AgentOf(v, HOST).applied == [First(target)] && w == Do(v, s, Wait(pause))
    ensures Before(w, target, pause, LAST + 1, [First(target)])
  {
    hide NothingQueued, Answered;
    assert w == v.(now := v.now + pause);
    hide Do;
  }

  // The repetition.

  lemma BeforeRepeat(s: Settings, target: string, pause: nat)
    requires Containable(s, target)
    ensures exists steps :: Repeating(target, pause) == steps + [Applying(pause, LAST + 2)]
              && Before(Run(s, steps), target, pause, LAST + 2, [First(target)])
  {
    hide Run, Before, Containable, Idle;
    var issued := Idle(pause, LAST) + [Alerted(BruteForce(target), [UID])] + [PollOf(LAST)] + [Applying(pause, LAST)]
                  + [Wait(pause)];
    AfterIdle(s, target, pause, LAST);
    OrderTurn(s, Idle(pause, LAST), target, pause);
    IdleTurn(s, issued, target, pause, LAST + 1, [First(target)]);
    var steps := issued + [PollOf(LAST + 1)] + [ReceiptOf(pause, LAST + 1)] + [Wait(pause)];
    assert Repeating(target, pause) == steps + [Applying(pause, LAST + 2)];
  }

  /** A run an agent can have, up to half a minute between its turns: the order
      is applied with acceptance 10,000, and again with acceptance 10,002. */
  lemma AppliedTwice(s: Settings, target: string, pause: nat)
    requires Containable(s, target) && pause <= 30
    ensures var a := AgentOf(Run(s, Repeating(target, pause)), HOST);
            && |a.accepted| == 10_002
            && a.applied == [First(target), Applied(LAST + 2, 0, UID, "block_ip", target, true, "")]
  {
    hide Repeating, Containable, Before, Do, Accepts, Time, NothingQueued, AllAnswered, NatToString;
    BeforeRepeat(s, target, pause);
    var steps :| Repeating(target, pause) == steps + [Applying(pause, LAST + 2)]
                 && Before(Run(s, steps), target, pause, LAST + 2, [First(target)]);
    RunAppend(s, steps, Applying(pause, LAST + 2));
    hide Run;
    RepeatAccepted(s, steps, target, pause);
    Received(Run(s, steps), s, target, pause, LAST + 2, Time(pause, LAST + 2), [Outcome(true, "")], LAST);
  }

  lemma RepeatAccepted(s: Settings, steps: seq<Step>, target: string, pause: nat)
    requires pause <= 30 && Before(Run(s, steps), target, pause, LAST + 2, [First(target)])
    ensures var y := Run(s, steps);
            && |AgentOf(y, HOST).accepted| == LAST + 2 && AgentOf(y, HOST).applied == [First(target)]
            && LAST < |y.sent| && y.sent[LAST].items == [TheItem(target, Time(pause, LAST))]
            && Accepts(AgentOf(y, HOST), HOST, y.sent[LAST], Time(pause, LAST + 2))
  {
    hide Run, Accepts, NatToString, NothingQueued;
    var a := AgentOf(Run(s, steps), HOST);
    var n := |a.accepted|;
    assert a.accepted[n - 10_001..n - 1][LAST] == LAST;
    ForgottenAtBlockEnd(s, steps, HOST, LAST, Time(pause, LAST + 2));
    assert Time(pause, LAST + 2) == Time(pause, LAST + 1) + pause == Time(pause, LAST) + pause + pause;
  }

  // ── exactly how many acceptances are safe ──

  predicate NothingTwice(a: Agent) {
    forall i, j | 0 <= i < j < |a.applied| :: a.applied[i].uid != a.applied[j].uid
  }

  /** No agent that has accepted at most `n` responses has applied an order
      twice, in any run. */
  ghost predicate SafeUpTo(s: Settings, n: nat) {
    forall steps, endpoint | |AgentOf(Run(s, steps), endpoint).accepted| <= n ::
      NothingTwice(AgentOf(Run(s, steps), endpoint))
  }

  /** At most once holds of every run with at most `n` acceptances if and only
      if `n` is at most 10,001. */
  lemma SafeUpToIff(s: Settings, target: string, n: nat)
    requires Containable(s, target)
    ensures SafeUpTo(s, n) <==> n <= 10_001
  {
    hide Run, Containable, Repeating;
    if n <= 10_001 {
      forall steps, endpoint | |AgentOf(Run(s, steps), endpoint).accepted| <= n
        ensures NothingTwice(AgentOf(Run(s, steps), endpoint))
      {
        var a := AgentOf(Run(s, steps), endpoint);
        forall i, j | 0 <= i < j < |a.applied|
          ensures a.applied[i].uid != a.applied[j].uid
        {
          AppliedAtMostOnce(s, steps, endpoint, i, j);
        }
      }
    } else {
      AppliedTwice(s, target, 5);
      var a := AgentOf(Run(s, Repeating(target, 5)), HOST);
      assert a.applied[0].uid == a.applied[1].uid;
    }
  }

  // ── how far apart ──

  /** Step `n` of the run is the one at which the agent accepted what it accepted
      in this round. */
  predicate AcceptedAt(s: Settings, steps: seq<Step>, endpoint: string, round: nat, n: nat)
    requires n < |steps|
  {
    var y, e := Run(s, steps), steps[n];
    && e.Receive? && e.endpoint == endpoint && |AgentOf(Run(s, steps[..n]), endpoint).accepted| == round
    && round < |AgentOf(y, endpoint).accepted| && AgentOf(y, endpoint).accepted[round] == e.k
    && e.k < |y.sent| && Signing.WithinSkew(e.clock, y.sent[e.k].timestamp)
  }

  lemma AcceptedGrows(y: Sys, s: Settings, step: Step, endpoint: string)
    ensures var before, after := AgentOf(y, endpoint).accepted, AgentOf(Do(y, s, step), endpoint).accepted;
            && y.sent <= Do(y, s, step).sent
            && (after == before
                || (step.Receive? && step.endpoint == endpoint && after == before + [step.k] && step.k < |y.sent|
                    && Signing.WithinSkew(step.clock, y.sent[step.k].timestamp)))
  {
    hide Do, CollectOrders, ApplyAll, Signing.Remember;
    StepKinds(y, s, step);
  }

  /** Every round has its step. */
  lemma {:induction false} RoundHasStep(s: Settings, steps: seq<Step>, endpoint: string, round: nat) returns (n: nat)
    requires round < |AgentOf(Run(s, steps), endpoint).accepted|
    ensures n < |steps| && AcceptedAt(s, steps, endpoint, round, n)
    decreases |steps|
  {
    hide Do;
    var m := |steps| - 1;
    var y := Run(s, steps[..m]);
    AcceptedGrows(y, s, steps[m], endpoint);
    if round < |AgentOf(y, endpoint).accepted| {
      n := RoundHasStep(s, steps[..m], endpoint, round);
      assert steps[..m][..n] == steps[..n];
    } else {
      n := m;
    }
  }

  /** Both steps of a repetition. */
  predicate RepeatedAt(s: Settings, steps: seq<Step>, endpoint: string, first: nat, second: nat, m: nat, n: nat)
    requires m < |steps| && n < |steps|
  {
    AcceptedAt(s, steps, endpoint, first, m) && AcceptedAt(s, steps, endpoint, second, n)
  }

  /** Two applications of one order come from steps at which the agent's clock
      showed times at most 120 seconds apart, however long the run. */
  lemma ReappliedWithinTwoMinutes(s: Settings, steps: seq<Step>, endpoint: string, i: nat, j: nat)
    requires i < j < |AgentOf(Run(s, steps), endpoint).applied|
    requires AgentOf(Run(s, steps), endpoint).applied[i].uid == AgentOf(Run(s, steps), endpoint).applied[j].uid
    ensures var a := AgentOf(Run(s, steps), endpoint);
            exists m, n | 0 <= m < |steps| && 0 <= n < |steps| ::
              RepeatedAt(s, steps, endpoint, a.applied[i].round, a.applied[j].round, m, n)
              && -120 <= steps[n].clock - steps[m].clock <= 120
  {
    hide Run, Signing.EpochStart;
    var a := AgentOf(Run(s, steps), endpoint);
    ReappliedOnlyWhenForgotten(s, steps, endpoint, i, j);
    var m := RoundHasStep(s, steps, endpoint, a.applied[i].round);
    var n := RoundHasStep(s, steps, endpoint, a.applied[j].round);
    assert RepeatedAt(s, steps, endpoint, a.applied[i].round, a.applied[j].round, m, n);
  }
}
