/** What the server has handed over in any run: each order at most once, in
    creation order, in time, and to an enabled agent. */
module Delivery {
  import opened PyText
  import opened Orders
  import opened OrderQueue
  import opened Protocol

  // ── what was handed over is an order ──

  predicate HandedAs(o: Order, r: Response, item: Item) {
    Carries(item, o) && o.endpointId == r.endpoint && o.status != Queued && InTime(o, r.timestamp)
  }

  predicate Handed(orders: seq<Order>, r: Response, item: Item) {
    exists row | 0 <= row < |orders| :: HandedAs(orders[row], r, item)
  }

  predicate AllHanded(y: Sys) {
    forall r, item | r in y.sent && item in r.items :: Handed(y.db.orders, r, item)
  }

  lemma HandedEvolves(before: seq<Order>, after: seq<Order>, r: Response, item: Item)
    requires Handed(before, r, item) && AllEvolve(before, after)
    ensures Handed(after, r, item)
  {
    var row :| 0 <= row < |before| && HandedAs(before[row], r, item);
    assert Evolves(before[row], after[row]);
    assert HandedAs(after[row], r, item);
  }

  lemma HandedExtends(before: seq<Order>, after: seq<Order>, r: Response, item: Item)
    requires Handed(before, r, item) && before <= after
    ensures Handed(after, r, item)
  {
    var row :| 0 <= row < |before| && HandedAs(before[row], r, item);
    assert after[row] == before[row];
  }

  lemma HandedKept(y: Sys, s: Settings, step: Step, r: Response, item: Item)
    requires GuardRailsKept(s, y.db.orders) && Handed(y.db.orders, r, item)
    ensures Handed(Do(y, s, step).db.orders, r, item)
  {
    hide Do, Handed, GuardRailsKept, AllEvolve;
    StepOnOrders(y, s, step);
    var after := Do(y, s, step).db.orders;
    if AllEvolve(y.db.orders, after) {
      HandedEvolves(y.db.orders, after, r, item);
    } else {
      HandedExtends(y.db.orders, after, r, item);
    }
  }

  /** What one answer hands over was queued before and is not any more. */
  lemma PolledHanded(y: Sys, z: Sys, endpoint: string, ip: Option<string>, nonce: string, item: Item)
    requires Polls(y, z, endpoint, ip, nonce) && item in z.sent[|y.sent|].items
    ensures Handed(z.db.orders, z.sent[|y.sent|], item)
    ensures exists row | 0 <= row < |y.db.orders| ::
              IsQueued(y.db.orders[row], endpoint) && Carries(item, y.db.orders[row])
  {
    hide CollectOrders;
    CollectedInOrder(y.db, endpoint, ip, y.now);
    CollectEvolves(y.db, endpoint, ip, y.now);
    var before, after := y.db.orders, z.db.orders;
    var row :| 0 <= row < |before| && Carries(item, before[row]) && IsQueued(before[row], endpoint)
               && InTime(before[row], y.now) && after[row].status == Delivered;
    assert Evolves(before[row], after[row]);
    assert HandedAs(after[row], z.sent[|y.sent|], item);
  }

  lemma AllHandedKept(y: Sys, s: Settings, step: Step)
    requires GuardRailsKept(s, y.db.orders) && AllHanded(y)
    ensures AllHanded(Do(y, s, step))
  {
    hide Do, Handed, GuardRailsKept, Polls, Receives;
    var z := Do(y, s, step);
    StepKinds(y, s, step);
    forall r, item | r in z.sent && item in r.items
      ensures Handed(z.db.orders, r, item)
    {
      if r in y.sent {
        HandedKept(y, s, step, r, item);
      } else {
        LastSent(y, z, step.endpoint, step.ip, step.nonce, r);
        PolledHanded(y, z, step.endpoint, step.ip, step.nonce, item);
      }
    }
  }

  lemma LastSent(y: Sys, z: Sys, endpoint: string, ip: Option<string>, nonce: string, r: Response)
    requires Polls(y, z, endpoint, ip, nonce) && r in z.sent && r !in y.sent
    ensures |z.sent| == |y.sent| + 1 && r == z.sent[|y.sent|]
  {
    hide CollectOrders;
  }

  /** Every item of every answer is an order of that endpoint, handed over no
      later than it expires, and no longer in the queue. */
  lemma {:induction false} DeliveredInTime(s: Settings, steps: seq<Step>)
    ensures AllHanded(Run(s, steps))
  {
    hide Do, Handed, GuardRailsKept;
    if steps != [] {
      DeliveredInTime(s, steps[..|steps| - 1]);
      EveryOrderAllowed(s, steps[..|steps| - 1]);
      AllHandedKept(Run(s, steps[..|steps| - 1]), s, steps[|steps| - 1]);
    }
  }

  // ── each order is handed over at most once ──

  predicate IdsDistinct(sent: seq<Response>) {
    forall k, p, l, q | 0 <= k < |sent| && 0 <= p < |sent[k].items| && 0 <= l < |sent| && 0 <= q < |sent[l].items|
                        && sent[k].items[p].id == sent[l].items[q].id :: k == l && p == q
  }

  lemma {:induction false} PayloadDistinct(orders: seq<Order>, rows: seq<nat>, now: int)
    requires InTable(rows, |orders|) && DistinctRows(rows) && SortedRows(orders, rows) && UidsDistinct(orders)
    ensures forall p, q | 0 <= p < q < |Payload(orders, rows, now)| ::
              Payload(orders, rows, now)[p].id != Payload(orders, rows, now)[q].id
  {
    if rows != [] {
      var n := |rows| - 1;
      var front := Payload(orders, rows[..n], now);
      PayloadDistinct(orders, rows[..n], now);
      PayloadFacts(orders, rows[..n], now);
      forall p | 0 <= p < |front|
        ensures front[p].id != orders[rows[n]].uid
      {
        assert front[p] in front;
        var i :| 0 <= i < n && Carries(front[p], orders[rows[..n][i]]);
        assert rows[i] != rows[n];
      }
    }
  }

  lemma CollectedDistinct(db: Db, endpoint: string, ip: Option<string>, now: int)
    requires UidsDistinct(db.orders)
    ensures var items := CollectOrders(db, endpoint, ip, now).2;
            forall p, q | 0 <= p < q < |items| :: items[p].id != items[q].id
  {
    hide PendingRows, Payload, UidsDistinct;
    PendingDistinct(db.orders, endpoint);
    PayloadDistinct(db.orders, PendingRows(db.orders, endpoint), now);
  }

  /** A new answer repeats no item of an older one. */
  lemma PolledFresh(y: Sys, z: Sys, endpoint: string, ip: Option<string>, nonce: string, item: Item,
                    r: Response, earlier: Item)
    requires Polls(y, z, endpoint, ip, nonce) && item in z.sent[|y.sent|].items
    requires UidsDistinct(y.db.orders) && Handed(y.db.orders, r, earlier)
    ensures item.id != earlier.id
  {
    hide CollectOrders, Polls;
    PolledHanded(y, z, endpoint, ip, nonce, item);
    var row :| 0 <= row < |y.db.orders| && IsQueued(y.db.orders[row], endpoint) && Carries(item, y.db.orders[row]);
    var other :| 0 <= other < |y.db.orders| && HandedAs(y.db.orders[other], r, earlier);
    assert row != other;
  }

  lemma IdsDistinctKept(y: Sys, s: Settings, step: Step)
    requires UidsDistinct(y.db.orders) && AllHanded(y) && IdsDistinct(y.sent)
    ensures IdsDistinct(Do(y, s, step).sent)
  {
    hide Do, Handed, UidsDistinct, CollectOrders;
    var z := Do(y, s, step);
    StepKinds(y, s, step);
    if z.sent != y.sent {
      var last := z.sent[|y.sent|];
      CollectedDistinct(y.db, step.endpoint, step.ip, y.now);
      forall k, p, q | 0 <= k < |y.sent| && 0 <= p < |y.sent[k].items| && 0 <= q < |last.items|
        ensures y.sent[k].items[p].id != last.items[q].id
      {
        assert y.sent[k] in y.sent && y.sent[k].items[p] in y.sent[k].items;
        assert last.items[q] in last.items;
        PolledFresh(y, z, step.endpoint, step.ip, step.nonce, last.items[q], y.sent[k], y.sent[k].items[p]);
      }
    }
  }

  /** No order is in two payloads, or twice in one. */
  lemma {:induction false} DeliveredOnce(s: Settings, steps: seq<Step>)
    ensures IdsDistinct(Run(s, steps).sent)
  {
    hide Do, AllHanded, GuardRailsKept, UidsDistinct;
    if steps != [] {
      DeliveredOnce(s, steps[..|steps| - 1]);
      DeliveredInTime(s, steps[..|steps| - 1]);
      UidsStayDistinct(s, steps[..|steps| - 1]);
      IdsDistinctKept(Run(s, steps[..|steps| - 1]), s, steps[|steps| - 1]);
    }
  }

  // ── creation order ──

  /** All that was ever handed to one endpoint. */
  function ItemsFor(sent: seq<Response>, endpoint: string): seq<Item> {
    if sent == [] then []
    else
      var last := sent[|sent| - 1];
      ItemsFor(sent[..|sent| - 1], endpoint) + if last.endpoint == endpoint then last.items else []
  }

  /** Everything handed over so far is no younger than what still waits. */
  predicate InOrder(y: Sys, endpoint: string) {
    && SortedItems(ItemsFor(y.sent, endpoint))
    && (forall item, o | item in ItemsFor(y.sent, endpoint) && o in y.db.orders && IsQueued(o, endpoint) ::
          item.issuedAt <= o.createdAt)
    && (forall item | item in ItemsFor(y.sent, endpoint) :: item.issuedAt <= y.now)
    && (forall o | o in y.db.orders :: o.createdAt <= y.now)
  }

  /** Whatever the step, the queue holds only what it held before and orders
      created now. */
  lemma QueueOnlyGrowsNow(y: Sys, s: Settings, step: Step, o: Order)
    requires GuardRailsKept(s, y.db.orders) && o in Do(y, s, step).db.orders
    ensures || o.createdAt == y.now
            || exists b :: b in y.db.orders && b.createdAt == o.createdAt && (o.status == Queued ==> b == o)
  {
    hide Do, GuardRailsKept;
    StepOnOrders(y, s, step);
    var before, after := y.db.orders, Do(y, s, step).db.orders;
    var i :| 0 <= i < |after| && after[i] == o;
    if AllEvolve(before, after) {
      assert Evolves(before[i], after[i]);
      assert before[i] in before;
    } else if i < |before| {
      assert before[i] == o && before[i] in before;
    } else {
      assert Issued(s, after[i], y.now);
    }
  }

  lemma PolledInOrder(y: Sys, z: Sys, endpoint: string, ip: Option<string>, nonce: string,
                      item: Item, o: Order)
    requires Polls(y, z, endpoint, ip, nonce) && item in z.sent[|y.sent|].items
    requires o in z.db.orders && IsQueued(o, endpoint)
    ensures item.issuedAt <= o.createdAt
  {
    var orders, rows := y.db.orders, PendingRows(y.db.orders, endpoint);
    PendingDistinct(orders, endpoint);
    PayloadFacts(orders, rows, y.now);
    hide PendingRows, Payload, SortedRows, AgentIndex;
    assert item in Payload(orders, rows, y.now) && z.db.orders == Settled(orders, rows, y.now);
    var i :| 0 <= i < |rows| && Carries(item, orders[rows[i]]);
    assert rows[i] in rows;
    var w :| 0 <= w < |z.db.orders| && z.db.orders[w] == o;
    assert w !in rows;
    PendingOldest(orders, endpoint, rows[i], w);
  }

  lemma ItemsForAppend(sent: seq<Response>, r: Response, endpoint: string)
    ensures ItemsFor(sent + [r], endpoint) == ItemsFor(sent, endpoint) + if r.endpoint == endpoint then r.items else []
  {
    assert (sent + [r])[..|sent|] == sent;
  }

  lemma PolledInOrderKept(y: Sys, z: Sys, s: Settings, step: Step, endpoint: string)
    requires GuardRailsKept(s, y.db.orders) && InOrder(y, endpoint) && z == Do(y, s, step)
    requires step.Poll? && Polls(y, z, step.endpoint, step.ip, step.nonce)
    ensures InOrder(z, endpoint)
  {
    hide Do, GuardRailsKept, Polls, ItemsFor, CollectOrders;
    var last := Answer(y, z, step);
    var was := ItemsFor(y.sent, endpoint);
    ItemsForAppend(y.sent, last, endpoint);
    forall item | item in last.items
      ensures item.issuedAt <= y.now
      ensures last.endpoint == endpoint ==> forall x | x in was :: x.issuedAt <= item.issuedAt
    {
      PolledHanded(y, z, step.endpoint, step.ip, step.nonce, item);
      var row :| 0 <= row < |y.db.orders| && IsQueued(y.db.orders[row], step.endpoint)
                 && Carries(item, y.db.orders[row]);
      assert y.db.orders[row] in y.db.orders;
    }
    forall o | o in z.db.orders
      ensures o.createdAt <= z.now
      ensures IsQueued(o, endpoint) ==> forall item | item in ItemsFor(z.sent, endpoint) :: item.issuedAt <= o.createdAt
    {
      QueueOnlyGrowsNow(y, s, step, o);
      if IsQueued(o, endpoint) {
        forall item | item in ItemsFor(z.sent, endpoint)
          ensures item.issuedAt <= o.createdAt
        {
          if item !in was {
            PolledInOrder(y, z, step.endpoint, step.ip, step.nonce, item, o);
          }
        }
      }
    }
  }

  /** The answer to a poll, and what it is known to be. */
  lemma Answer(y: Sys, z: Sys, step: Step) returns (last: Response)
    requires step.Poll? && Polls(y, z, step.endpoint, step.ip, step.nonce)
    ensures z.sent == y.sent + [last] && z.sent[|y.sent|] == last && z.now == y.now
    ensures last.endpoint == step.endpoint && SortedItems(last.items)
  {
    CollectedInOrder(y.db, step.endpoint, step.ip, y.now);
    hide CollectOrders;
    last := z.sent[|y.sent|];
  }

  lemma InOrderKept(y: Sys, s: Settings, step: Step, endpoint: string)
    requires GuardRailsKept(s, y.db.orders) && InOrder(y, endpoint)
    ensures InOrder(Do(y, s, step), endpoint)
  {
    hide Do, GuardRailsKept, Polls, ItemsFor, CollectOrders;
    var z := Do(y, s, step);
    StepKinds(y, s, step);
    if z.sent != y.sent {
      PolledInOrderKept(y, z, s, step, endpoint);
    } else {
      forall o | o in z.db.orders
        ensures o.createdAt <= z.now
        ensures IsQueued(o, endpoint) ==>
                  forall item | item in ItemsFor(z.sent, endpoint) :: item.issuedAt <= o.createdAt
      {
        QueueOnlyGrowsNow(y, s, step, o);
      }
    }
  }

  lemma {:induction false} OrderKept(s: Settings, steps: seq<Step>, endpoint: string)
    ensures InOrder(Run(s, steps), endpoint)
  {
    hide Do, GuardRailsKept;
    if steps != [] {
      OrderKept(s, steps[..|steps| - 1], endpoint);
      EveryOrderAllowed(s, steps[..|steps| - 1]);
      InOrderKept(Run(s, steps[..|steps| - 1]), s, steps[|steps| - 1], endpoint);
    }
  }

  /** Over any run, all payloads of one endpoint laid end to end are in order
      of creation. */
  lemma DeliveredInCreationOrder(s: Settings, steps: seq<Step>, endpoint: string)
    ensures SortedItems(ItemsFor(Run(s, steps).sent, endpoint))
  {
    OrderKept(s, steps, endpoint);
  }

  // ── to an enabled agent ──

  predicate EnabledAt(y: Sys, endpoint: string) {
    AgentIndex(y.db.agents, endpoint).Some? && y.db.agents[AgentIndex(y.db.agents, endpoint).value].enabled
  }

  /** The moment of the run at which answer `k` was given. */
  predicate AnsweredAt(s: Settings, steps: seq<Step>, k: nat, n: nat)
    requires k < |Run(s, steps).sent| && n < |steps|
  {
    var y, r := Run(s, steps[..n]), Run(s, steps).sent[k];
    |y.sent| == k && y.now == r.timestamp && steps[n].Poll? && steps[n].endpoint == r.endpoint
    && (r.items != [] ==> EnabledAt(y, r.endpoint))
  }

  lemma PolledEnabled(y: Sys, z: Sys, endpoint: string, ip: Option<string>, nonce: string)
    requires Polls(y, z, endpoint, ip, nonce)
    ensures |z.sent| == |y.sent| + 1
    ensures var r := z.sent[|y.sent|];
            r.timestamp == y.now && r.endpoint == endpoint && (r.items != [] ==> EnabledAt(y, endpoint))
  {
    CollectedInOrder(y.db, endpoint, ip, y.now);
    hide CollectOrders;
  }

  /** Each answer that hands anything over was given while its agent was
      enabled. */
  lemma {:induction false} DeliveredWhileEnabled(s: Settings, steps: seq<Step>, k: nat)
    requires k < |Run(s, steps).sent|
    ensures exists n | 0 <= n < |steps| :: AnsweredAt(s, steps, k, n)
  {
    hide Do, Polls, EnabledAt;
    var m := |steps| - 1;
    var y, z := Run(s, steps[..m]), Run(s, steps);
    StepKinds(y, s, steps[m]);
    if k < |y.sent| {
      DeliveredWhileEnabled(s, steps[..m], k);
      SentGrows(y, s, steps[m]);
      var n :| 0 <= n < m && AnsweredAt(s, steps[..m], k, n);
      assert steps[..m][..n] == steps[..n];
      assert AnsweredAt(s, steps, k, n);
    } else {
      PolledEnabled(y, z, steps[m].endpoint, steps[m].ip, steps[m].nonce);
      assert AnsweredAt(s, steps, k, m);
    }
  }

  lemma SentGrows(y: Sys, s: Settings, step: Step)
    ensures y.sent <= Do(y, s, step).sent
  {
    hide Do, CollectOrders;
    StepKinds(y, s, step);
  }

  // ── one row per endpoint ──

  predicate EndpointsDistinct(agents: seq<AgentRow>) {
    forall i, j | 0 <= i < j < |agents| :: agents[i].endpointId != agents[j].endpointId
  }

  /** Issuing, polling and reporting leave the registration of agents alone. */
  lemma {:induction false} DispatchKeepsAgents(db: Db, s: Settings, from: nat, n: nat, uids: seq<string>, now: int)
    requires from + n <= |db.actions| && n <= |uids|
    ensures Dispatch(db, s, from, n, uids, now).agents == db.agents
  {
    if n > 0 {
      DispatchKeepsAgents(db, s, from, n - 1, uids, now);
    }
    hide RefuseReason, AgentFor;
  }

  lemma PollKeepsEndpoints(db: Db, endpoint: string, ip: Option<string>, now: int)
    ensures var after := CollectOrders(db, endpoint, ip, now).0.agents;
            |after| == |db.agents| && forall i | 0 <= i < |after| :: after[i].endpointId == db.agents[i].endpointId
  {
    hide PendingRows, Payload, Settled;
  }

  lemma EndpointsKept(y: Sys, s: Settings, step: Step)
    requires EndpointsDistinct(y.db.agents)
    ensures EndpointsDistinct(Do(y, s, step).db.agents)
  {
    hide CollectOrders, RecordResult, Dispatch, Decisions, Playbook, AcceptResponse, Accepts, FreshUids, RefuseReason,
         AgentFor;
    match step
    case Alerted(alert, uids) =>
      if |uids| >= |Playbook(alert)| {
        RespondKeepsAgents(y.db, s, alert, uids, y.now);
      }
      hide Respond;
    case Poll(endpoint, ip, nonce) => PollKeepsEndpoints(y.db, endpoint, ip, y.now);
    case Receive(endpoint, k, clock, outcomes) => AcceptKeepsDb(y, endpoint, k, outcomes);
    case Deliver(k) =>
      if k < |y.reports| {
        RecordKeepsAgents(y.db, y.reports[k], y.now);
      }
    case _ =>
  }

  lemma RespondKeepsAgents(db: Db, s: Settings, a: Alert, uids: seq<string>, now: int)
    requires |uids| >= |Playbook(a)|
    ensures Respond(db, s, a, uids, now).agents == db.agents
  {
    var created := Decisions(s, a, Playbook(a));
    if s.soarEnabled && s.soarExecute {
      DispatchKeepsAgents(db.(actions := db.actions + created), s, |db.actions|, |created|, uids, now);
    }
    hide Dispatch, Decisions;
  }

  lemma RecordKeepsAgents(db: Db, r: Report, now: int)
    ensures RecordResult(db, r.endpoint, r.uid, r.success, r.output, now).0.agents == db.agents
  {
  }

  /** In every run each endpoint has one row of registration at most. */
  lemma {:induction false} EndpointsStayDistinct(s: Settings, steps: seq<Step>)
    ensures EndpointsDistinct(Run(s, steps).db.agents)
  {
    hide Do;
    if steps != [] {
      hide EndpointsDistinct;
      EndpointsStayDistinct(s, steps[..|steps| - 1]);
      EndpointsKept(Run(s, steps[..|steps| - 1]), s, steps[|steps| - 1]);
    }
  }
}
