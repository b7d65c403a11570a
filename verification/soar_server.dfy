/** The server as an object: the operations of the response layer updating
    the three tables in place. */
module SoarServer {
  import opened PyText
  import opened Orders
  import opened OrderQueue

  class Server {
    const settings: Settings
    var agents: seq<AgentRow>
    var orders: seq<Order>
    var actions: seq<Action>

    constructor (settings: Settings)
      ensures this.settings == settings && State() == Db([], [], [])
    {
      this.settings := settings;
      agents, orders, actions := [], [], [];
    }

    function State(): Db
      reads this
    {
      Db(agents, orders, actions)
    }

    method QueueOrder(endpointId: string, verb: string, target: string, actionId: Option<nat>,
                      alertId: Option<int>, issuedBy: string, uid: string, now: int)
      modifies this`orders
      ensures orders == old(orders)
                      + [Order(uid, endpointId, verb, target, Queued, actionId, alertId, issuedBy, now,
                               Some(now + settings.orderTtl), None, None, None)]
    {
      var order := Order(uid, endpointId, verb, target, Queued, actionId, alertId, issuedBy, now,
                         Some(now + settings.orderTtl), None, None, None);
      orders := orders + [order];
    }

    /** A status that cannot be stored is rolled back. */
    method MarkAction(i: nat, status: ActionStatus, detail: Detail, commits: bool)
      requires i < |actions|
      modifies this`actions
      ensures State() == if commits then Mark(old(State()), i, status, detail) else old(State())
    {
      var before := actions;
      var action := actions[i];
      action := action.(status := status);
      action := action.(detail := detail);
      actions := actions[i := action];
      if !commits {
        actions := before;
      }
    }

    method Execute(i: nat, issuedBy: string, uid: string, now: int, stored: bool, marked: bool)
      returns (verdict: Verdict)
      requires i < |actions|
      modifies this
      ensures (State(), verdict) == ExecuteFaulty(old(State()), settings, i, issuedBy, uid, now, stored, marked)
    {
      var action := actions[i];
      var verb := AgentVerb(action.kind);
      if verb.None? {
        return Verdict(false, None);
      }
      var refusal := RefuseReason(settings, verb.value, action.target);
      if refusal.Some? {
        MarkAction(i, Simulated, Refused(refusal.value), marked);
        return Verdict(false, Some(Refused(refusal.value)));
      }
      var agent := AgentFor(agents, action.hostname);
      if agent.None? {
        MarkAction(i, Simulated, NoAgent, marked);
        return Verdict(false, Some(NoAgent));
      }
      if !stored {
        return Verdict(false, Some(InternalError));
      }
      QueueOrder(agent.value.endpointId, verb.value, action.target, Some(i), action.alertId, issuedBy, uid, now);
      MarkAction(i, Pending, AwaitingAgent(uid), marked);
      return Verdict(true, Some(AwaitingAgent(uid)));
    }

    method RevokeOrder(j: nat, issuedBy: string, uid: string, now: int) returns (queued: bool)
      requires j < |orders|
      modifies this`orders
      ensures (State(), queued) == Revoke(old(State()), settings, j, issuedBy, uid, now)
    {
      var order := orders[j];
      var inverse := Inverse(order.action);
      if inverse.None? {
        return false;
      }
      var agent := FirstWith(agents, (a: AgentRow) => a.endpointId == order.endpointId);
      if agent.None? {
        return false;
      }
      QueueOrder(agent.value.endpointId, inverse.value, order.target, None, None, issuedBy, uid, now);
      return true;
    }

    method Collect(endpoint: string, ip: Option<string>, now: int) returns (agent: Option<AgentRow>, payload: seq<Item>)
      modifies this
      ensures (State(), agent, payload) == CollectOrders(old(State()), endpoint, ip, now)
    {
      var i := AgentIndex(agents, endpoint);
      payload := [];
      if i.None? {
        return None, [];
      }
      agent := Some(agents[i.value]);
      if !agents[i.value].enabled {
        return;
      }
      agents := agents[i.value := agents[i.value].(lastSeenAt := Some(now), lastSeenIp := ip)];
      agent := Some(agents[i.value]);
      var pending := PendingRows(orders, endpoint);
      PendingDistinct(orders, endpoint);
      payload := HandOver(pending, now);
    }

    /** The delivery loop: each pending row is retired or handed over. */
    method HandOver(pending: seq<nat>, now: int) returns (payload: seq<Item>)
      requires InTable(pending, |orders|) && DistinctRows(pending)
      modifies this`orders
      ensures orders == Settled(old(orders), pending, now)
      ensures payload == Payload(old(orders), pending, now)
    {
      payload := [];
      ghost var before := orders;
      assert orders == Settled(before, [], now);
      for k := 0 to |pending|
        invariant orders == Settled(before, pending[..k], now)
        invariant payload == Payload(before, pending[..k], now)
      {
        var row := pending[k];
        var order := orders[row];
        if order.expiresAt.Some? && order.expiresAt.value < now {
          order := order.(status := Expired, completedAt := Some(now),
                          output := Some("not collected before the order expired"));
        } else {
          order := order.(status := Delivered, deliveredAt := Some(now));
          payload := payload + [Item(order.uid, order.action, order.target, order.alertId, order.createdAt)];
        }
        orders := orders[row := order];
        SettleOneMore(before, pending, k, now);
      }
      assert pending[..|pending|] == pending;
    }

    method Report(endpoint: string, uid: string, success: bool, output: string, now: int) returns (found: bool)
      modifies this
      ensures (State(), found) == RecordResult(old(State()), endpoint, uid, success, output, now)
    {
      var j := FindOrder(orders, uid, endpoint);
      if j.None? {
        return false;
      }
      var order := orders[j.value];
      order := order.(status := if success then Succeeded else Failed);
      order := order.(completedAt := Some(now));
      order := order.(output := Some(Stored(output)));
      orders := orders[j.value := order];
      if order.actionId.Some? && order.actionId.value < |actions| {
        MarkAction(order.actionId.value, if success then Executed else Unsuccessful, Reported(success, Stored(output)),
                   true);
      }
      return true;
    }

    /** The actions to record, one per playbook entry with a target. */
    method Decide(alert: Alert) returns (created: seq<Action>)
      ensures created == Decisions(settings, alert, Playbook(alert))
    {
      var kinds := Playbook(alert);
      var status := if settings.soarExecute then Pending else Simulated;
      created := [];
      hide TargetFor, Playbook, Decisions;
      for k := 0 to |kinds|
        invariant Decisions(settings, alert, kinds) == created + Decisions(settings, alert, kinds[k..])
      {
        var target := TargetFor(kinds[k], alert);
        DecideOneMore(settings, alert, kinds, k);
        if target.None? || target.value == "" {
          continue;
        }
        created := created + [Action(kinds[k], target.value, Some(alert.id), alert.hostname, status,
                                     Decided(settings.soarExecute))];
      }
    }

    method RespondToAlert(alert: Alert, uids: seq<string>, now: int, stored: nat -> bool, marked: nat -> bool)
      requires |uids| >= |Playbook(alert)|
      modifies this
      ensures State() == RespondFaulty(old(State()), settings, alert, uids, now, stored, marked)
    {
      hide ExecuteFaulty, Decisions, Playbook;
      if !settings.soarEnabled {
        return;
      }
      var created := Decide(alert);
      var from := |actions|;
      actions := actions + created;
      if settings.soarExecute {
        ghost var recorded := State();
        for k := 0 to |created|
          invariant State() == DispatchFaulty(recorded, settings, from, k, uids, now, stored, marked)
        {
          var verdict := Execute(from + k, "soar", uids[k], now, stored(k), marked(k));
        }
      }
    }
  }

  lemma DecideOneMore(s: Settings, a: Alert, kinds: seq<ActionKind>, k: nat)
    requires k < |kinds|
    ensures Decisions(s, a, kinds[k..])
         == (var target := TargetFor(kinds[k], a);
             if target.None? || target.value == "" then Decisions(s, a, kinds[k + 1..])
             else [Action(kinds[k], target.value, Some(a.id), a.hostname,
                          if s.soarExecute then Pending else Simulated, Decided(s.soarExecute))]
                  + Decisions(s, a, kinds[k + 1..]))
  {
    hide TargetFor;
    assert kinds[k..][1..] == kinds[k + 1..];
  }

  lemma SettleOneMore(orders: seq<Order>, pending: seq<nat>, k: nat, now: int)
    requires InTable(pending, |orders|) && DistinctRows(pending) && k < |pending|
    ensures var row := pending[k];
            && Settled(orders, pending[..k + 1], now)
            == Settled(orders, pending[..k], now)[row := Settle(orders[row], now)]
            && Payload(orders, pending[..k + 1], now)
            == Payload(orders, pending[..k], now) + (if TooLate(orders[row], now) then [] else [ItemOf(orders[row])])
  {
    assert pending[..k + 1] == pending[..k] + [pending[k]];
    assert pending[..k + 1][..k] == pending[..k];
  }
}
