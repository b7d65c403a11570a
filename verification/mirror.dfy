/** What an action's status says about its order, in any run. */
module Mirror {
  import opened PyText
  import opened Orders
  import opened GuardRails
  import opened Protocol

  predicate HasOrder(orders: seq<Order>, i: nat) {
    exists j | 0 <= j < |orders| :: orders[j].actionId == Some(i)
  }

  predicate OnlyOrder(orders: seq<Order>, i: nat, j: nat) {
    j < |orders| && orders[j].actionId == Some(i)
    && forall k | 0 <= k < |orders| && orders[k].actionId == Some(i) :: k == j
  }

  function StatusFor(order: OrderStatus): ActionStatus {
    match order
    case Succeeded => Executed
    case Failed => Unsuccessful
    case _ => Pending
  }

  /** An action an agent could carry out is simulated, without an order, or it
      has one order and shows how that stands. */
  predicate Mirrored(db: Db, i: nat)
    requires i < |db.actions|
  {
    AgentVerb(db.actions[i].kind).Some? ==>
      || (db.actions[i].status == Simulated && !HasOrder(db.orders, i))
      || exists j | 0 <= j < |db.orders| ::
           OnlyOrder(db.orders, i, j) && db.actions[i].status == StatusFor(db.orders[j].status)
  }

  predicate MirroredUpTo(db: Db, n: nat)
    requires n <= |db.actions|
  {
    forall i | 0 <= i < n :: Mirrored(db, i)
  }

  predicate NoneFrom(orders: seq<Order>, n: nat) {
    forall o | o in orders && o.actionId.Some? :: o.actionId.value < n
  }

  // ── dispatching one action ──

  /** What dispatching can do: nothing to an action without a verb; otherwise
      mark it simulated, or give it one more order and mark it pending. */
  lemma ExecuteCases(db: Db, s: Settings, i: nat, issuer: string, uid: string, now: int)
    requires i < |db.actions|
    ensures var after := ExecuteAction(db, s, i, issuer, uid, now).0;
            && |after.actions| == |db.actions| && after.actions[i].kind == db.actions[i].kind
            && (forall k | 0 <= k < |db.actions| && k != i :: after.actions[k] == db.actions[k])
            && (AgentVerb(db.actions[i].kind).None? ==> after == db)
            && (AgentVerb(db.actions[i].kind).Some? ==>
                  || (after.orders == db.orders && after.actions[i].status == Simulated)
                  || (|after.orders| == |db.orders| + 1 && db.orders <= after.orders
                      && after.orders[|db.orders|].actionId == Some(i)
                      && after.orders[|db.orders|].status == Queued && after.actions[i].status == Pending))
  {
    hide RefuseReason, AgentFor;
  }

  /** Dispatching a verb action leaves it mirrored exactly when it had no
      order before: a second dispatch breaks the mirror, whatever comes of
      it. */
  lemma MirroredIffFirstDispatch(db: Db, s: Settings, i: nat, issuer: string, uid: string, now: int)
    requires i < |db.actions| && AgentVerb(db.actions[i].kind).Some?
    ensures Mirrored(ExecuteAction(db, s, i, issuer, uid, now).0, i) <==> !HasOrder(db.orders, i)
  {
    hide ExecuteAction, AgentVerb;
    ExecuteCases(db, s, i, issuer, uid, now);
    var after := ExecuteAction(db, s, i, issuer, uid, now).0;
    if after.orders != db.orders {
      var n := |db.orders|;
      if HasOrder(db.orders, i) {
        var j :| 0 <= j < n && db.orders[j].actionId == Some(i);
        assert after.orders[j].actionId == Some(i) && after.orders[n].actionId == Some(i) && j != n;
      } else {
        assert OnlyOrder(after.orders, i, n);
      }
    }
  }

  /** When the database may fail, exactly when a first dispatch leaves the
      action mirrored. Its order stored, the mark must be, or the action have
      been pending already; without an order, a refusal must be marked, or the
      action have been simulated already. */
  lemma MirroredIffMarked(db: Db, s: Settings, i: nat, issuer: string, uid: string, now: int, stored: bool,
                          marked: bool)
    requires i < |db.actions| && AgentVerb(db.actions[i].kind).Some? && !HasOrder(db.orders, i)
    ensures var after := ExecuteFaulty(db, s, i, issuer, uid, now, stored, marked).0;
            var queued := ExecuteAction(db, s, i, issuer, uid, now).1.executed;
            var status := db.actions[i].status;
            && |after.actions| == |db.actions|
            && (Mirrored(after, i) <==>
                if queued && stored then marked || status == Pending else (marked && !queued) || status == Simulated)
  {
    var after := ExecuteFaulty(db, s, i, issuer, uid, now, stored, marked).0;
    var clean := ExecuteAction(db, s, i, issuer, uid, now).0;
    ExecuteCases(db, s, i, issuer, uid, now);
    MirroredIffFirstDispatch(db, s, i, issuer, uid, now);
    hide ExecuteAction, AgentVerb;
    var n := |db.orders|;
    if clean.orders != db.orders {
      assert forall j | 0 <= j < n :: clean.orders[j] == db.orders[j];
      assert clean.orders[n].actionId == Some(i);
      assert OnlyOrder(clean.orders, i, n) && HasOrder(clean.orders, i);
    }
  }

  lemma ExecuteKeepsOther(db: Db, s: Settings, i: nat, issuer: string, uid: string, now: int, k: nat)
    requires i < |db.actions| && k < |db.actions| && k != i && Mirrored(db, k)
    ensures |ExecuteAction(db, s, i, issuer, uid, now).0.actions| == |db.actions|
    ensures Mirrored(ExecuteAction(db, s, i, issuer, uid, now).0, k)
  {
    hide ExecuteAction, AgentVerb;
    ExecuteCases(db, s, i, issuer, uid, now);
    MirrorSurvivesAppend(db, ExecuteAction(db, s, i, issuer, uid, now).0, k);
  }

  /** Rows that name other actions do not disturb a mirrored one. */
  lemma MirrorSurvivesAppend(db: Db, after: Db, k: nat)
    requires k < |db.actions| && k < |after.actions| && Mirrored(db, k) && after.actions[k] == db.actions[k]
    requires db.orders <= after.orders
    requires forall j | |db.orders| <= j < |after.orders| :: after.orders[j].actionId != Some(k)
    ensures Mirrored(after, k)
  {
    hide AgentVerb;
    assert forall j | 0 <= j < |db.orders| :: after.orders[j] == db.orders[j];
    if AgentVerb(db.actions[k].kind).Some? && !(db.actions[k].status == Simulated && !HasOrder(db.orders, k)) {
      var j :| 0 <= j < |db.orders| && OnlyOrder(db.orders, k, j)
               && db.actions[k].status == StatusFor(db.orders[j].status);
      assert OnlyOrder(after.orders, k, j);
    }
  }

  // ── responding to an alert ──

  lemma {:induction false} DispatchMirrors(db: Db, s: Settings, from: nat, n: nat, uids: seq<string>, now: int)
    requires from + n <= |db.actions| && n <= |uids| && MirroredUpTo(db, from) && NoneFrom(db.orders, from)
    ensures var after := Dispatch(db, s, from, n, uids, now);
            |after.actions| == |db.actions| && MirroredUpTo(after, from + n) && NoneFrom(after.orders, from + n)
  {
    hide ExecuteAction, Mirrored;
    if n > 0 {
      var mid, i := Dispatch(db, s, from, n - 1, uids, now), from + n - 1;
      DispatchMirrors(db, s, from, n - 1, uids, now);
      DispatchOne(mid, s, i, uids[n - 1], now);
    }
  }

  lemma DispatchOne(db: Db, s: Settings, i: nat, uid: string, now: int)
    requires i < |db.actions| && MirroredUpTo(db, i) && NoneFrom(db.orders, i)
    ensures var after := ExecuteAction(db, s, i, "soar", uid, now).0;
            |after.actions| == |db.actions| && MirroredUpTo(after, i + 1) && NoneFrom(after.orders, i + 1)
  {
    var after := ExecuteAction(db, s, i, "soar", uid, now).0;
    ExecuteCases(db, s, i, "soar", uid, now);
    if AgentVerb(db.actions[i].kind).Some? {
      MirroredIffFirstDispatch(db, s, i, "soar", uid, now);
    }
    hide ExecuteAction, HasOrder, OnlyOrder, NoneFrom;
    forall k | 0 <= k < i
      ensures Mirrored(after, k)
    {
      ExecuteKeepsOther(db, s, i, "soar", uid, now, k);
    }
  }

  lemma RecordedMirrored(db: Db, created: seq<Action>)
    requires MirroredUpTo(db, |db.actions|) && NoneFrom(db.orders, |db.actions|)
    ensures MirroredUpTo(db.(actions := db.actions + created), |db.actions|)
    ensures (forall a | a in created :: a.status == Simulated) ==>
              MirroredUpTo(db.(actions := db.actions + created), |db.actions| + |created|)
  {
    var after := db.(actions := db.actions + created);
    forall k | 0 <= k < |after.actions| && (k < |db.actions| || after.actions[k].status == Simulated)
      ensures Mirrored(after, k)
    {
      if k < |db.actions| {
        MirrorSurvivesAppend(db, after, k);
      }
    }
  }

  predicate AllMirrored(db: Db) {
    MirroredUpTo(db, |db.actions|) && NoneFrom(db.orders, |db.actions|)
  }

  lemma RespondMirrors(db: Db, s: Settings, a: Alert, uids: seq<string>, now: int)
    requires |uids| >= |Playbook(a)| && AllMirrored(db)
    ensures AllMirrored(Respond(db, s, a, uids, now))
  {
    hide Dispatch, Decisions, Mirrored, Playbook;
    if s.soarEnabled {
      var created := Decisions(s, a, Playbook(a));
      RecordedMirrored(db, created);
      if s.soarExecute {
        DispatchMirrors(db.(actions := db.actions + created), s, |db.actions|, |created|, uids, now);
      } else {
        assert NoneFrom(db.orders, |db.actions| + |created|);
      }
    }
  }

  // ── responding with a database that may fail ──

  /** Neither a guard rail nor a missing agent keeps this action from becoming
      an order. */
  predicate Dispatchable(s: Settings, agents: seq<AgentRow>, a: Action) {
    AgentVerb(a.kind).Some? && Allowed(s, AgentVerb(a.kind).value, a.target)
    && AgentFor(agents, a.hostname).Some?
  }

  /** What the database must not fail at for a dispatch to leave the mirror
      intact. */
  predicate Survives(s: Settings, agents: seq<AgentRow>, a: Action, stored: bool, marked: bool) {
    AgentVerb(a.kind).Some? ==> if Dispatchable(s, agents, a) then stored else marked
  }

  predicate AllSurvive(s: Settings, agents: seq<AgentRow>, actions: seq<Action>, stored: nat -> bool,
                       marked: nat -> bool)
  {
    forall k | 0 <= k < |actions| :: Survives(s, agents, actions[k], stored(k), marked(k))
  }

  lemma SurviveOneMore(s: Settings, agents: seq<AgentRow>, actions: seq<Action>, a: Action, stored: nat -> bool,
                       marked: nat -> bool)
    ensures AllSurvive(s, agents, actions + [a], stored, marked) <==>
            AllSurvive(s, agents, actions, stored, marked)
            && Survives(s, agents, a, stored(|actions|), marked(|actions|))
  {
    hide Survives;
    var all := actions + [a];
    assert all[|actions|] == a && forall k | 0 <= k < |actions| :: all[k] == actions[k];
  }

  lemma SameMirror(db: Db, after: Db, k: nat)
    requires k < |db.actions| && k < |after.actions| && after.actions[k] == db.actions[k]
    requires db.orders <= after.orders
    requires forall j | |db.orders| <= j < |after.orders| :: after.orders[j].actionId != Some(k)
    ensures Mirrored(after, k) <==> Mirrored(db, k)
  {
    hide AgentVerb;
    assert forall j | 0 <= j < |db.orders| :: after.orders[j] == db.orders[j];
    if Mirrored(db, k) {
      MirrorSurvivesAppend(db, after, k);
    }
  }

  lemma FaultyCases(db: Db, s: Settings, i: nat, uid: string, now: int, stored: bool, marked: bool)
    requires i < |db.actions|
    ensures var after := ExecuteFaulty(db, s, i, "soar", uid, now, stored, marked).0;
            && |after.actions| == |db.actions| && after.agents == db.agents
            && (forall k | 0 <= k < |db.actions| && k != i :: after.actions[k] == db.actions[k])
            && db.orders <= after.orders
            && (forall j | |db.orders| <= j < |after.orders| :: after.orders[j].actionId == Some(i))
    ensures ExecuteAction(db, s, i, "soar", uid, now).1.executed <==> Dispatchable(s, db.agents, db.actions[i])
  {
    if AgentVerb(db.actions[i].kind).Some? {
      RefusedIffNotAllowed(s, AgentVerb(db.actions[i].kind).value, db.actions[i].target);
    }
    hide RefuseReason, Allowed, True, AgentFor;
  }

  lemma FaultyOne(db: Db, s: Settings, i: nat, uid: string, now: int, stored: bool, marked: bool)
    requires i < |db.actions| && NoneFrom(db.orders, i) && db.actions[i].status == Pending
    ensures var after := ExecuteFaulty(db, s, i, "soar", uid, now, stored, marked).0;
            && |after.actions| == |db.actions| && NoneFrom(after.orders, i + 1)
            && (MirroredUpTo(after, i + 1) <==>
                MirroredUpTo(db, i) && Survives(s, db.agents, db.actions[i], stored, marked))
  {
    var after := ExecuteFaulty(db, s, i, "soar", uid, now, stored, marked).0;
    FaultyCases(db, s, i, uid, now, stored, marked);
    if AgentVerb(db.actions[i].kind).Some? {
      MirroredIffMarked(db, s, i, "soar", uid, now, stored, marked);
    } else {
      assert after == db;
    }
    assert forall o | o in after.orders :: o in db.orders || o.actionId == Some(i);
    hide ExecuteFaulty, ExecuteAction, Mirrored, Dispatchable;
    forall k | 0 <= k < i
      ensures Mirrored(after, k) <==> Mirrored(db, k)
    {
      SameMirror(db, after, k);
    }
  }

  lemma {:induction false} FaultyDispatchMirrors(db: Db, s: Settings, from: nat, n: nat, uids: seq<string>, now: int,
                                                 stored: nat -> bool, marked: nat -> bool)
    requires from + n <= |db.actions| && n <= |uids| && MirroredUpTo(db, from) && NoneFrom(db.orders, from)
    requires forall k | from <= k < from + n :: db.actions[k].status == Pending
    ensures var after := DispatchFaulty(db, s, from, n, uids, now, stored, marked);
            && after.agents == db.agents && NoneFrom(after.orders, from + n)
            && (forall k | from + n <= k < |db.actions| :: after.actions[k] == db.actions[k])
            && (MirroredUpTo(after, from + n) <==>
                AllSurvive(s, db.agents, db.actions[from..from + n], stored, marked))
  {
    hide ExecuteFaulty, MirroredUpTo, Survives, NoneFrom;
    if n > 0 {
      hide AllSurvive;
      var mid := DispatchFaulty(db, s, from, n - 1, uids, now, stored, marked);
      FaultyDispatchMirrors(db, s, from, n - 1, uids, now, stored, marked);
      var i := from + n - 1;
      assert mid.actions[i] == db.actions[i];
      assert db.actions[from..from + n] == db.actions[from..i] + [db.actions[i]];
      SurviveOneMore(s, db.agents, db.actions[from..i], db.actions[i], stored, marked);
      FaultyCases(mid, s, i, uids[n - 1], now, stored(n - 1), marked(n - 1));
      FaultyOne(mid, s, i, uids[n - 1], now, stored(n - 1), marked(n - 1));
    }
  }

  lemma CreatedMirrored(db: Db, s: Settings, created: seq<Action>, uids: seq<string>, now: int, stored: nat -> bool,
                        marked: nat -> bool)
    requires AllMirrored(db) && |created| <= |uids| && forall c | c in created :: c.status == Pending
    ensures var recorded := db.(actions := db.actions + created);
            AllMirrored(DispatchFaulty(recorded, s, |db.actions|, |created|, uids, now, stored, marked)) <==>
            AllSurvive(s, db.agents, created, stored, marked)
  {
    var recorded := db.(actions := db.actions + created);
    RecordedMirrored(db, created);
    hide DispatchFaulty, MirroredUpTo, AllSurvive, NoneFrom;
    FaultyDispatchMirrors(recorded, s, |db.actions|, |created|, uids, now, stored, marked);
    assert recorded.actions[|db.actions|..] == created;
  }

  /** Responding to an alert leaves every action of the table mirrored if and
      only if, of the actions it dispatches, each that can become an order was
      stored, and each other one with a verb was marked. A lost mark of a
      stored order does no harm: the action was pending already. */
  lemma ResponseMirroredIff(db: Db, s: Settings, a: Alert, uids: seq<string>, now: int, stored: nat -> bool,
                            marked: nat -> bool)
    requires s.soarEnabled && s.soarExecute && |uids| >= |Playbook(a)| && AllMirrored(db)
    ensures var created := Decisions(s, a, Playbook(a));
            AllMirrored(RespondFaulty(db, s, a, uids, now, stored, marked)) <==>
            AllSurvive(s, db.agents, created, stored, marked)
  {
    hide DispatchFaulty, Decisions, AllMirrored, Playbook, AllSurvive;
    CreatedMirrored(db, s, Decisions(s, a, Playbook(a)), uids, now, stored, marked);
  }

  // ── the other operations ──

  lemma ExecuteMirrors(db: Db, s: Settings, i: nat, issuer: string, uid: string, now: int)
    requires i < |db.actions| && AllMirrored(db) && !HasOrder(db.orders, i)
    ensures AllMirrored(ExecuteAction(db, s, i, issuer, uid, now).0)
  {
    var after := ExecuteAction(db, s, i, issuer, uid, now).0;
    ExecuteCases(db, s, i, issuer, uid, now);
    if AgentVerb(db.actions[i].kind).Some? {
      MirroredIffFirstDispatch(db, s, i, issuer, uid, now);
    }
    hide ExecuteAction, HasOrder, OnlyOrder, NoneFrom;
    forall k | 0 <= k < |db.actions| && k != i
      ensures Mirrored(after, k)
    {
      ExecuteKeepsOther(db, s, i, issuer, uid, now, k);
    }
  }

  lemma RevokeMirrors(db: Db, s: Settings, j: nat, issuer: string, uid: string, now: int)
    requires j < |db.orders| && AllMirrored(db)
    ensures AllMirrored(Revoke(db, s, j, issuer, uid, now).0)
  {
    hide Mirrored, Inverse, FirstWith;
    var after := Revoke(db, s, j, issuer, uid, now).0;
    forall k | 0 <= k < |db.actions|
      ensures Mirrored(after, k)
    {
      MirrorSurvivesAppend(db, after, k);
    }
  }

  /** Row by row the same action, and a status that reads the same. */
  predicate SameReading(before: seq<Order>, after: seq<Order>) {
    |before| == |after| && forall j | 0 <= j < |before| ::
      after[j].actionId == before[j].actionId && StatusFor(after[j].status) == StatusFor(before[j].status)
  }

  lemma SameReadingMirrors(db: Db, after: Db)
    requires AllMirrored(db) && after.actions == db.actions && SameReading(db.orders, after.orders)
    ensures AllMirrored(after)
  {
    hide AgentVerb, StatusFor;
    forall k | 0 <= k < |db.actions|
      ensures Mirrored(after, k)
    {
      assert Mirrored(db, k);
      if j :| 0 <= j < |db.orders| && OnlyOrder(db.orders, k, j)
              && db.actions[k].status == StatusFor(db.orders[j].status) {
        assert OnlyOrder(after.orders, k, j);
      }
    }
    forall o | o in after.orders && o.actionId.Some?
      ensures o.actionId.value < |db.actions|
    {
      var j :| 0 <= j < |after.orders| && after.orders[j] == o;
      assert db.orders[j] in db.orders;
    }
  }

  lemma CollectMirrors(db: Db, endpoint: string, ip: Option<string>, now: int)
    requires AllMirrored(db)
    ensures AllMirrored(CollectOrders(db, endpoint, ip, now).0)
  {
    var after := CollectOrders(db, endpoint, ip, now).0;
    CollectReadsSame(db, endpoint, ip, now);
    hide CollectOrders, AllMirrored;
    SameReadingMirrors(db, after);
  }

  lemma CollectReadsSame(db: Db, endpoint: string, ip: Option<string>, now: int)
    ensures CollectOrders(db, endpoint, ip, now).0.actions == db.actions
    ensures SameReading(db.orders, CollectOrders(db, endpoint, ip, now).0.orders)
  {
    hide Payload, TooLate, PendingRows;
    assert forall k | k in PendingRows(db.orders, endpoint) :: IsQueued(db.orders[k], endpoint);
    hide Settled, SameReading;
  }

  /** A report moves an order and its action together. */
  lemma RecordMirrors(db: Db, endpoint: string, uid: string, success: bool, output: string, now: int)
    requires AllMirrored(db)
    ensures AllMirrored(RecordResult(db, endpoint, uid, success, output, now).0)
  {
    hide Stored;
    var after := RecordResult(db, endpoint, uid, success, output, now).0;
    var found := FindOrder(db.orders, uid, endpoint);
    if found.Some? {
      var j := found.value;
      assert db.orders[j] in db.orders;
      forall k | 0 <= k < |db.actions|
        ensures Mirrored(after, k)
      {
        RecordMirrorsOne(db, after, j, if success then Succeeded else Failed, k);
      }
    }
  }

  lemma RecordMirrorsOne(db: Db, after: Db, j: nat, status: OrderStatus, k: nat)
    requires k < |db.actions| == |after.actions| && j < |db.orders| == |after.orders| && Mirrored(db, k)
    requires status == Succeeded || status == Failed
    requires after.orders[j].actionId == db.orders[j].actionId && after.orders[j].status == status
    requires forall i | 0 <= i < |db.orders| && i != j :: after.orders[i] == db.orders[i]
    requires db.orders[j].actionId != Some(k) ==> after.actions[k] == db.actions[k]
    requires db.orders[j].actionId == Some(k) ==>
               after.actions[k].kind == db.actions[k].kind && after.actions[k].status == StatusFor(status)
    ensures Mirrored(after, k)
  {
    hide AgentVerb;
    if w :| 0 <= w < |db.orders| && OnlyOrder(db.orders, k, w)
            && db.actions[k].status == StatusFor(db.orders[w].status) {
      assert OnlyOrder(after.orders, k, w);
    }
  }

  // ── runs ──

  /** The step does not dispatch an action that already has an order. */
  predicate FirstDispatch(y: Sys, step: Step) {
    step.ExecuteNow? ==> !HasOrder(y.db.orders, step.i)
  }

  predicate DispatchedOnce(s: Settings, steps: seq<Step>) {
    forall n | 0 <= n < |steps| :: FirstDispatch(Run(s, steps[..n]), steps[n])
  }

  lemma MirrorKept(y: Sys, s: Settings, step: Step)
    requires AllMirrored(y.db) && FirstDispatch(y, step)
    ensures AllMirrored(Do(y, s, step).db)
  {
    hide AllMirrored, HasOrder, CollectOrders, RecordResult, Respond, ExecuteAction, Revoke, AcceptResponse, FreshUids,
         Accepts, AgentIndex;
    match step
    case Alerted(alert, uids) =>
      if |uids| >= |Playbook(alert)| {
        RespondMirrors(y.db, s, alert, uids, y.now);
      }
    case ExecuteNow(i, issuer, uid) =>
      if i < |y.db.actions| {
        ExecuteMirrors(y.db, s, i, issuer, uid, y.now);
      }
    case RevokeNow(j, issuer, uid) =>
      if j < |y.db.orders| {
        RevokeMirrors(y.db, s, j, issuer, uid, y.now);
      }
    case Poll(endpoint, ip, nonce) =>
      CollectMirrors(y.db, endpoint, ip, y.now);
    case Deliver(k) =>
      if k < |y.reports| {
        var r := y.reports[k];
        RecordMirrors(y.db, r.endpoint, r.uid, r.success, r.output, y.now);
      }
    case Receive(endpoint, k, clock, outcomes) =>
      AcceptKeepsDb(y, endpoint, k, outcomes);
    case _ =>
      AgentsDoNotMatter(y.db, Do(y, s, step).db);
  }

  lemma AgentsDoNotMatter(db: Db, after: Db)
    requires AllMirrored(db)
    ensures after.orders == db.orders && after.actions == db.actions ==> AllMirrored(after)
  {
    hide AgentVerb, HasOrder, OnlyOrder, StatusFor;
    if after.orders == db.orders && after.actions == db.actions {
      assert forall k | 0 <= k < |db.actions| :: Mirrored(db, k) == Mirrored(after, k);
    }
  }

  lemma {:induction false} EveryActionMirrored(s: Settings, steps: seq<Step>)
    requires DispatchedOnce(s, steps)
    ensures AllMirrored(Run(s, steps).db)
  {
    hide Do, FirstDispatch;
    if steps != [] {
      hide AllMirrored;
      var n := |steps| - 1;
      assert forall k | 0 <= k < n :: steps[..n][..k] == steps[..k];
      EveryActionMirrored(s, steps[..n]);
      MirrorKept(Run(s, steps[..n]), s, steps[n]);
    }
  }

  /** The order's outcome, read off the action's status. */
  predicate Tells(status: ActionStatus, order: OrderStatus) {
    && (status == Executed <==> order == Succeeded)
    && (status == Unsuccessful <==> order == Failed)
    && (status == Pending <==> order != Succeeded && order != Failed)
  }

  /** While no action is dispatched a second time, an action with an agent
      verb either was not sent, and says simulated, or has exactly one order:
      it says executed or failed exactly when that succeeded or failed, and
      pending otherwise. */
  lemma ActionTellsItsOrder(s: Settings, steps: seq<Step>, i: nat)
    requires DispatchedOnce(s, steps)
    requires i < |Run(s, steps).db.actions| && AgentVerb(Run(s, steps).db.actions[i].kind).Some?
    ensures var db := Run(s, steps).db;
            && (db.actions[i].status == Simulated <==> !HasOrder(db.orders, i))
            && (HasOrder(db.orders, i) ==> exists j | 0 <= j < |db.orders| ::
                  OnlyOrder(db.orders, i, j) && Tells(db.actions[i].status, db.orders[j].status))
  {
    EveryActionMirrored(s, steps);
    hide Run, AgentVerb;
    MirroredTells(Run(s, steps).db, i);
  }

  lemma MirroredTells(db: Db, i: nat)
    requires i < |db.actions| && AgentVerb(db.actions[i].kind).Some? && Mirrored(db, i)
    ensures db.actions[i].status == Simulated <==> !HasOrder(db.orders, i)
    ensures HasOrder(db.orders, i) ==> exists j | 0 <= j < |db.orders| ::
              OnlyOrder(db.orders, i, j) && Tells(db.actions[i].status, db.orders[j].status)
  {
    hide AgentVerb;
    if db.actions[i].status == Simulated && !HasOrder(db.orders, i) {
    } else {
      var j :| 0 <= j < |db.orders| && OnlyOrder(db.orders, i, j)
               && db.actions[i].status == StatusFor(db.orders[j].status);
      assert db.orders[j].actionId == Some(i);
      assert Tells(db.actions[i].status, db.orders[j].status);
    }
  }
}
