/** The server half of containment: recorded actions become orders for
    registered agents, which collect them and report back. The three tables
    are sequences in insertion order; every operation is one transaction, and
    the clock, fresh identifiers and address parsing are arguments. */
module Orders {
  import opened PyText

  // ── tables ──

  datatype OrderStatus = Queued | Delivered | Succeeded | Failed | Expired | Cancelled

  datatype Order = Order(uid: string, endpointId: string, action: string, target: string, status: OrderStatus,
                         actionId: Option<nat>, alertId: Option<int>, issuedBy: string, createdAt: int,
                         expiresAt: Option<int>, deliveredAt: Option<int>, completedAt: Option<int>,
                         output: Option<string>)

  datatype AgentRow = AgentRow(endpointId: string, hostname: Option<string>, enabled: bool,
                               lastSeenAt: Option<int>, lastSeenIp: Option<string>)

  datatype ActionKind = BlockIp | IsolateEndpoint | DisableAccount | NotifyAnalyst

  datatype ActionStatus = Simulated | Pending | Executed | Unsuccessful

  /** What an action's free-text detail says. */
  datatype Detail =
    | Decided(requested: bool)
    | Refused(reason: Refusal)
    | NoAgent
    | AwaitingAgent(uid: string)
    | Reported(success: bool, text: string)
    | InternalError

  /** `hostname` is that of the log behind the action's alert. */
  datatype Action = Action(kind: ActionKind, target: string, alertId: Option<int>, hostname: Option<string>,
                           status: ActionStatus, detail: Detail)

  datatype Db = Db(agents: seq<AgentRow>, orders: seq<Order>, actions: seq<Action>)

  // ── settings and guard rails ──

  datatype IpFacts = IpFacts(text: string, loopback: bool, linkLocal: bool, multicast: bool, reserved: bool,
                             unspecified: bool, isPrivate: bool)

  datatype Settings = Settings(parseIp: string -> Option<IpFacts>, lower: string -> string,
                               corsOrigins: seq<string>, blockPrivateRanges: bool, protectedAccounts: string,
                               orderTtl: int, soarEnabled: bool, soarExecute: bool)

  datatype Refusal = NoTarget | NotAnAddress | Loopback | Reserved | ConsoleOrigin | PrivateAddress
                   | ProtectedAccount | ConfiguredAccount

  /** The text after the first `//` of `s`, or all of it when there is none. */
  function AfterDoubleSlash(s: string): string {
    AfterDoubleSlashOr(s, s)
  }

  function AfterDoubleSlashOr(s: string, whole: string): string {
    if |s| < 2 then whole else if StartsWith(s, "//") then s[2..] else AfterDoubleSlashOr(s[1..], whole)
  }

  function Before(s: string, c: char): string {
    s[..IndexOf(s, c)]
  }

  function ConsoleHosts(s: Settings): set<string> {
    set origin | origin in s.corsOrigins && Before(Before(AfterDoubleSlash(origin), '/'), ':') != "" ::
      Before(Before(AfterDoubleSlash(origin), '/'), ':')
  }

  const PROTECTED_ACCOUNTS: set<string> := {"root", "administrator", "admin", "system"}

  function RefuseReason(s: Settings, action: string, target: string): Option<Refusal> {
    if Strip(target) == "" then Some(NoTarget)
    else if action == "block_ip" || action == "unblock_ip" then
      match s.parseIp(Strip(target))
      case None => Some(NotAnAddress)
      case Some(ip) =>
        if ip.loopback then Some(Loopback)
        else if ip.linkLocal || ip.multicast || ip.reserved || ip.unspecified then Some(Reserved)
        else if ip.text in ConsoleHosts(s) then Some(ConsoleOrigin)
        else if !s.blockPrivateRanges && ip.isPrivate then Some(PrivateAddress)
        else None
    else if action == "disable_user" || action == "enable_user" then
      var account := s.lower(Strip(target));
      if account in PROTECTED_ACCOUNTS then Some(ProtectedAccount)
      else if exists a | a in Split(s.protectedAccounts, ',') :: Strip(a) != "" && s.lower(Strip(a)) == account
      then Some(ConfiguredAccount)
      else None
    else None
  }

  function AgentVerb(kind: ActionKind): Option<string> {
    match kind
    case BlockIp => Some("block_ip")
    case DisableAccount => Some("disable_user")
    case _ => None
  }

  function Inverse(action: string): Option<string> {
    if action == "block_ip" then Some("unblock_ip")
    else if action == "disable_user" then Some("enable_user")
    else None
  }

  // ── choosing an agent ──

  function FirstWith(agents: seq<AgentRow>, p: AgentRow -> bool): (r: Option<AgentRow>)
    ensures r.Some? ==> r.value in agents && p(r.value)
    ensures r.None? ==> forall a | a in agents :: !p(a)
  {
    if agents == [] then None
    else if p(agents[0]) then Some(agents[0])
    else FirstWith(agents[1..], p)
  }

  function Enabled(agents: seq<AgentRow>): (r: seq<AgentRow>)
    ensures forall a :: a in r <==> a in agents && a.enabled
  {
    if agents == [] then []
    else if agents[0].enabled then [agents[0]] + Enabled(agents[1..])
    else Enabled(agents[1..])
  }

  /** The enabled agent for a host, or the only enabled one there is. */
  function AgentFor(agents: seq<AgentRow>, hostname: Option<string>): (r: Option<AgentRow>)
    ensures r.Some? ==> r.value in agents && r.value.enabled
  {
    var enabled := Enabled(agents);
    var named := hostname.Some? && hostname.value != "";
    var byName := if named then FirstWith(enabled, (a: AgentRow) => a.hostname == hostname) else None;
    var byId := if named then FirstWith(enabled, (a: AgentRow) => a.endpointId == hostname.value) else None;
    if byName.Some? then byName
    else if byId.Some? then byId
    else if |enabled| == 1 then Some(enabled[0])
    else None
  }

  // ── issuing orders ──

  function NewOrder(s: Settings, endpointId: string, action: string, target: string, actionId: Option<nat>,
                    alertId: Option<int>, issuedBy: string, uid: string, now: int): Order {
    Order(uid, endpointId, action, target, Queued, actionId, alertId, issuedBy, now, Some(now + s.orderTtl),
          None, None, None)
  }

  datatype Verdict = Verdict(executed: bool, detail: Option<Detail>)

  /** One recorded action turned into an order, or into the reason why not.
      An action without an agent verb is left as it is. */
  function ExecuteAction(db: Db, s: Settings, i: nat, issuedBy: string, uid: string, now: int): (Db, Verdict)
    requires i < |db.actions|
  {
    var a := db.actions[i];
    match AgentVerb(a.kind)
    case None => (db, Verdict(false, None))
    case Some(verb) =>
      var refusal := RefuseReason(s, verb, a.target);
      if refusal.Some? then
        (Mark(db, i, Simulated, Refused(refusal.value)), Verdict(false, Some(Refused(refusal.value))))
      else
        match AgentFor(db.agents, a.hostname)
        case None => (Mark(db, i, Simulated, NoAgent), Verdict(false, Some(NoAgent)))
        case Some(agent) =>
          var order := NewOrder(s, agent.endpointId, verb, a.target, Some(i), a.alertId, issuedBy, uid, now);
          (Mark(db.(orders := db.orders + [order]), i, Pending, AwaitingAgent(uid)),
           Verdict(true, Some(AwaitingAgent(uid))))
  }

  /** The same with a database that may fail: `stored` says whether a new order
      is, `marked` whether the action's new status is. What fails is rolled
      back; nothing is raised. */
  function ExecuteFaulty(db: Db, s: Settings, i: nat, issuedBy: string, uid: string, now: int, stored: bool,
                         marked: bool): (Db, Verdict)
    requires i < |db.actions|
  {
    var (after, verdict) := ExecuteAction(db, s, i, issuedBy, uid, now);
    if verdict.executed && !stored then (db, Verdict(false, Some(InternalError)))
    else if !marked then (after.(actions := db.actions), verdict)
    else (after, verdict)
  }

  function Mark(db: Db, i: nat, status: ActionStatus, detail: Detail): Db
    requires i < |db.actions|
  {
    db.(actions := db.actions[i := db.actions[i].(status := status, detail := detail)])
  }

  /** The inverse of an order, queued for the same endpoint; no guard rail is
      consulted. */
  function Revoke(db: Db, s: Settings, j: nat, issuedBy: string, uid: string, now: int): (Db, bool)
    requires j < |db.orders|
  {
    var o := db.orders[j];
    match Inverse(o.action)
    case None => (db, false)
    case Some(inverse) =>
      if FirstWith(db.agents, (a: AgentRow) => a.endpointId == o.endpointId).None? then (db, false)
      else
        var order := NewOrder(s, o.endpointId, inverse, o.target, None, None, issuedBy, uid, now);
        (db.(orders := db.orders + [order]), true)
  }

  // ── an agent's poll ──

  const BATCH := 50

  datatype Item = Item(id: string, action: string, target: string, alertId: Option<int>, issuedAt: int)

  predicate IsQueued(o: Order, endpoint: string) {
    o.endpointId == endpoint && o.status == Queued
  }

  /** Row numbers that exist in a table of `n` rows. */
  predicate InTable(rows: seq<nat>, n: nat) {
    forall k | 0 <= k < |rows| :: rows[k] < n
  }

  predicate DistinctRows(rows: seq<nat>) {
    forall i, j | 0 <= i < j < |rows| :: rows[i] != rows[j]
  }

  /** Rows of an endpoint's queue, in table order. */
  function QueuedRows(orders: seq<Order>, endpoint: string, n: nat): (r: seq<nat>)
    requires n <= |orders|
    ensures InTable(r, n)
    ensures forall i: nat :: i in r <==> i < n && IsQueued(orders[i], endpoint)
  {
    if n == 0 then []
    else QueuedRows(orders, endpoint, n - 1) + if IsQueued(orders[n - 1], endpoint) then [n - 1] else []
  }

  /** Insertion behind every row created no later. */
  function Insert(orders: seq<Order>, sorted: seq<nat>, i: nat): (r: seq<nat>)
    requires i < |orders| && InTable(sorted, |orders|)
    ensures InTable(r, |orders|)
    ensures forall k :: k in r <==> k in sorted || k == i
    ensures |r| == |sorted| + 1
  {
    if sorted == [] then [i]
    else
      var n := |sorted| - 1;
      assert sorted == sorted[..n] + [sorted[n]];
      if orders[sorted[n]].createdAt <= orders[i].createdAt then sorted + [i]
      else Insert(orders, sorted[..n], i) + [sorted[n]]
  }

  /** Sorted by time of creation, ties in table order. */
  function SortByCreation(orders: seq<Order>, rows: seq<nat>): (r: seq<nat>)
    requires InTable(rows, |orders|)
    ensures InTable(r, |orders|)
    ensures forall k :: k in r <==> k in rows
    ensures |r| == |rows|
  {
    if rows == [] then []
    else
      var n := |rows| - 1;
      assert rows == rows[..n] + [rows[n]];
      Insert(orders, SortByCreation(orders, rows[..n]), rows[n])
  }

  /** The rows one poll handles. */
  function PendingRows(orders: seq<Order>, endpoint: string): (r: seq<nat>)
    ensures InTable(r, |orders|)
    ensures forall k | k in r :: IsQueued(orders[k], endpoint)
  {
    var sorted := SortByCreation(orders, QueuedRows(orders, endpoint, |orders|));
    var r := if |sorted| <= BATCH then sorted else sorted[..BATCH];
    assert forall k | k in r :: k in sorted;
    r
  }

  predicate TooLate(o: Order, now: int) {
    o.expiresAt.Some? && o.expiresAt.value < now
  }

  /** A pending order is retired when it has expired, handed over otherwise. */
  function Settle(o: Order, now: int): Order {
    if TooLate(o, now) then
      o.(status := Expired, completedAt := Some(now), output := Some("not collected before the order expired"))
    else o.(status := Delivered, deliveredAt := Some(now))
  }

  function Settled(orders: seq<Order>, rows: seq<nat>, now: int): (r: seq<Order>)
    ensures |r| == |orders|
  {
    seq(|orders|, i requires 0 <= i < |orders| => if i in rows then Settle(orders[i], now) else orders[i])
  }

  function ItemOf(o: Order): Item {
    Item(o.uid, o.action, o.target, o.alertId, o.createdAt)
  }

  function Payload(orders: seq<Order>, rows: seq<nat>, now: int): seq<Item>
    requires InTable(rows, |orders|)
  {
    if rows == [] then []
    else
      var n := |rows| - 1;
      Payload(orders, rows[..n], now) + if TooLate(orders[rows[n]], now) then [] else [ItemOf(orders[rows[n]])]
  }

  function AgentIndex(agents: seq<AgentRow>, endpoint: string): (r: Option<nat>)
    ensures r.Some? ==> r.value < |agents| && agents[r.value].endpointId == endpoint
    ensures r.None? ==> forall a | a in agents :: a.endpointId != endpoint
  {
    if agents == [] then None
    else if agents[0].endpointId == endpoint then Some(0)
    else
      match AgentIndex(agents[1..], endpoint)
      case None => None
      case Some(i) => Some(1 + i)
  }

  /** A poll: the agent's row if there is one, and the orders handed over. */
  function CollectOrders(db: Db, endpoint: string, ip: Option<string>, now: int): (Db, Option<AgentRow>, seq<Item>) {
    match AgentIndex(db.agents, endpoint)
    case None => (db, None, [])
    case Some(i) =>
      if !db.agents[i].enabled then (db, Some(db.agents[i]), [])
      else
        var agent := db.agents[i].(lastSeenAt := Some(now), lastSeenIp := ip);
        var rows := PendingRows(db.orders, endpoint);
        (Db(db.agents[i := agent], Settled(db.orders, rows, now), db.actions), Some(agent),
         Payload(db.orders, rows, now))
  }

  // ── an agent's report ──

  const MAX_OUTPUT := 2048

  function FindOrder(orders: seq<Order>, uid: string, endpoint: string): (r: Option<nat>)
    ensures r.Some? ==> r.value < |orders| && orders[r.value].uid == uid && orders[r.value].endpointId == endpoint
    ensures r.None? ==> forall o | o in orders :: !(o.uid == uid && o.endpointId == endpoint)
  {
    if orders == [] then None
    else if orders[0].uid == uid && orders[0].endpointId == endpoint then Some(0)
    else
      match FindOrder(orders[1..], uid, endpoint)
      case None => None
      case Some(i) => Some(1 + i)
  }

  function Stored(output: string): string {
    Prefix(output, MAX_OUTPUT)
  }

  function RecordResult(db: Db, endpoint: string, uid: string, success: bool, output: string, now: int): (Db, bool) {
    match FindOrder(db.orders, uid, endpoint)
    case None => (db, false)
    case Some(j) =>
      var o := db.orders[j].(status := if success then Succeeded else Failed, completedAt := Some(now),
                             output := Some(Stored(output)));
      var after := db.(orders := db.orders[j := o]);
      if o.actionId.Some? && o.actionId.value < |db.actions| then
        var status := if success then Executed else Unsuccessful;
        (Mark(after, o.actionId.value, status, Reported(success, Stored(output))), true)
      else (after, true)
  }

  // ── responding to an alert ──

  datatype Severity = Low | Medium | High | Critical

  /** An alert with the user and host of its log, absent without one. */
  datatype Alert = Alert(id: int, severity: Severity, ruleType: Option<string>, sourceIp: Option<string>,
                         dedupKey: Option<string>, username: Option<string>, hostname: Option<string>)

  function Playbook(a: Alert): (kinds: seq<ActionKind>)
    ensures 1 <= |kinds| <= 2
  {
    if !(a.severity.High? || a.severity.Critical?) then [NotifyAnalyst]
    else if a.ruleType == Some("brute_force") || a.ruleType == Some("port_scan") then [BlockIp]
    else if a.ruleType == Some("login_after_failure") then [DisableAccount, BlockIp]
    else if a.ruleType == Some("privilege_escalation") then [DisableAccount]
    else if a.ruleType == Some("file_integrity") then [IsolateEndpoint]
    else [NotifyAnalyst]
  }

  /** The first text unless it is missing or empty, else the second. */
  function Or(a: Option<string>, b: Option<string>): Option<string> {
    if a.Some? && a.value != "" then a else b
  }

  function TargetFor(kind: ActionKind, a: Alert): Option<string> {
    match kind
    case BlockIp => a.sourceIp
    case DisableAccount => Or(a.username, a.dedupKey)
    case IsolateEndpoint => Or(a.hostname, a.dedupKey)
    case NotifyAnalyst => Or(a.dedupKey, Or(a.sourceIp, Some("unspecified")))
  }

  /** The actions an alert warrants, skipping those without a target. */
  function Decisions(s: Settings, a: Alert, kinds: seq<ActionKind>): (r: seq<Action>)
    ensures |r| <= |kinds|
    ensures forall x | x in r :: x.target != "" && x.status == if s.soarExecute then Pending else Simulated
  {
    if kinds == [] then []
    else
      var target := TargetFor(kinds[0], a);
      (if target.None? || target.value == "" then []
       else [Action(kinds[0], target.value, Some(a.id), a.hostname,
                    if s.soarExecute then Pending else Simulated, Decided(s.soarExecute))])
      + Decisions(s, a, kinds[1..])
  }

  /** The first `n` of the actions from row `from` on, executed in turn. */
  function Dispatch(db: Db, s: Settings, from: nat, n: nat, uids: seq<string>, now: int): (r: Db)
    requires from + n <= |db.actions| && n <= |uids|
    ensures |r.actions| == |db.actions|
  {
    if n == 0 then db
    else ExecuteAction(Dispatch(db, s, from, n - 1, uids, now), s, from + n - 1, "soar", uids[n - 1], now).0
  }

  function Respond(db: Db, s: Settings, a: Alert, uids: seq<string>, now: int): Db
    requires |uids| >= |Playbook(a)|
  {
    if !s.soarEnabled then db
    else
      var created := Decisions(s, a, Playbook(a));
      var recorded := db.(actions := db.actions + created);
      if s.soarExecute then Dispatch(recorded, s, |db.actions|, |created|, uids, now) else recorded
  }

  /** The same two with a database that may fail at each dispatch. */
  function DispatchFaulty(db: Db, s: Settings, from: nat, n: nat, uids: seq<string>, now: int, stored: nat -> bool,
                          marked: nat -> bool): (r: Db)
    requires from + n <= |db.actions| && n <= |uids|
    ensures |r.actions| == |db.actions|
  {
    if n == 0 then db
    else
      ExecuteFaulty(DispatchFaulty(db, s, from, n - 1, uids, now, stored, marked), s, from + n - 1, "soar",
                    uids[n - 1], now, stored(n - 1), marked(n - 1)).0
  }

  function RespondFaulty(db: Db, s: Settings, a: Alert, uids: seq<string>, now: int, stored: nat -> bool,
                         marked: nat -> bool): Db
    requires |uids| >= |Playbook(a)|
  {
    if !s.soarEnabled then db
    else
      var created := Decisions(s, a, Playbook(a));
      var recorded := db.(actions := db.actions + created);
      if s.soarExecute then DispatchFaulty(recorded, s, |db.actions|, |created|, uids, now, stored, marked)
      else recorded
  }

  lemma {:induction false} DispatchUnfailing(db: Db, s: Settings, from: nat, n: nat, uids: seq<string>, now: int)
    requires from + n <= |db.actions| && n <= |uids|
    ensures DispatchFaulty(db, s, from, n, uids, now, k => true, k => true) == Dispatch(db, s, from, n, uids, now)
  {
    hide ExecuteAction;
    if n > 0 {
      DispatchUnfailing(db, s, from, n - 1, uids, now);
    }
  }

  /** With a database that never fails this is `Respond`. */
  lemma RespondUnfailing(db: Db, s: Settings, a: Alert, uids: seq<string>, now: int)
    requires |uids| >= |Playbook(a)|
    ensures RespondFaulty(db, s, a, uids, now, k => true, k => true) == Respond(db, s, a, uids, now)
  {
    hide Dispatch, DispatchFaulty, Playbook, Decisions;
    if s.soarEnabled && s.soarExecute {
      var created := Decisions(s, a, Playbook(a));
      DispatchUnfailing(db.(actions := db.actions + created), s, |db.actions|, |created|, uids, now);
    }
  }
}
