/** Alert deduplication over a growing table. Times are whole ticks. Rules
    call `HasActiveAlert` with the log's time minus their window first, and
    `CreateAlert` only when it says no. */
module Alerting {
  import opened Arithmetic
  import opened PyText

  datatype Status = New | Investigating | Resolved | FalsePositive {
    predicate IsOpen() {
      New? || Investigating?
    }
  }

  /** `watches` is the one type of event that the rule's code looks at. */
  datatype Rule = Rule(id: int, watches: string, severity: string, mitreId: Option<string>, phase: Option<string>,
                       window: int, threshold: int)

  datatype Log = Log(id: int, eventType: string, timestamp: int, sourceIp: Option<string>,
                     destinationIp: Option<string>)

  datatype Alert = Alert(timestamp: int, severity: string, sourceIp: Option<string>, destinationIp: Option<string>,
                         ruleId: int, mitreId: Option<string>, phase: Option<string>, description: string,
                         status: Status, dedupKey: Option<string>, logId: int)

  /** Same rule, same key: what counts as the same ongoing incident. */
  predicate Concerns(a: Alert, ruleId: int, key: string) {
    a.ruleId == ruleId && a.dedupKey == Some(key)
  }

  predicate Suppresses(a: Alert, ruleId: int, key: string, windowStart: int) {
    Concerns(a, ruleId, key) && (a.status.IsOpen() || a.timestamp >= windowStart)
  }

  predicate HasActiveAlert(alerts: seq<Alert>, ruleId: int, key: string, windowStart: int) {
    exists i | 0 <= i < |alerts| :: Suppresses(alerts[i], ruleId, key, windowStart)
  }

  function KeyFor(log: Log, dedupKey: Option<string>): Option<string> {
    if dedupKey.Some? then dedupKey else log.sourceIp
  }

  class AlertTable {
    var alerts: seq<Alert>

    constructor ()
      ensures alerts == []
    {
      alerts := [];
    }

    method CreateAlert(rule: Rule, log: Log, description: string, dedupKey: Option<string>) returns (alert: Alert)
      modifies this
      ensures alerts == old(alerts) + [alert]
      ensures alert.ruleId == rule.id && alert.timestamp == log.timestamp && alert.status == New
      ensures alert.dedupKey == (if dedupKey == None then log.sourceIp else dedupKey) && alert.logId == log.id
      ensures alert.severity == rule.severity && alert.mitreId == rule.mitreId && alert.phase == rule.phase
      ensures alert.sourceIp == log.sourceIp && alert.destinationIp == log.destinationIp
      ensures alert.description == description
    {
      alert := Alert(log.timestamp, rule.severity, log.sourceIp, log.destinationIp, rule.id, rule.mitreId,
                     rule.phase, description, New, if dedupKey.Some? then dedupKey else log.sourceIp, log.id);
      alerts := alerts + [alert];
    }

    /** How every detection rule uses the two calls. `count` is what its own
        query found in the window; events of another type, and those whose key
        is absent or empty, are passed over. */
    method Fire(rule: Rule, log: Log, description: string, dedupKey: Option<string>, count: int)
      returns (created: bool)
      modifies this
      ensures var (table, c) := Fired(old(alerts), rule, log, description, dedupKey, count);
              created == c && alerts == table
    {
      var key := if dedupKey.Some? then dedupKey else log.sourceIp;
      if log.eventType != rule.watches || key.None? || key.value == "" {
        return false;
      }
      if count < rule.threshold {
        return false;
      }
      if HasActiveAlert(alerts, rule.id, key.value, log.timestamp - rule.window) {
        return false;
      }
      var alert := CreateAlert(rule, log, description, dedupKey);
      return true;
    }
  }

  function NewAlert(rule: Rule, log: Log, description: string, key: string): Alert {
    Alert(log.timestamp, rule.severity, log.sourceIp, log.destinationIp, rule.id, rule.mitreId, rule.phase,
          description, New, Some(key), log.id)
  }

  function Fired(alerts: seq<Alert>, rule: Rule, log: Log, description: string, dedupKey: Option<string>, count: int)
    : (seq<Alert>, bool)
  {
    match KeyFor(log, dedupKey)
    case None => (alerts, false)
    case Some(key) =>
      if log.eventType != rule.watches || key == "" || count < rule.threshold
         || HasActiveAlert(alerts, rule.id, key, log.timestamp - rule.window)
      then (alerts, false)
      else (alerts + [NewAlert(rule, log, description, key)], true)
  }

  // ── runs ──

  /** Logs arrive in any order; analysts change statuses at any time; no
      alert is deleted and no rule's window changes. */
  datatype Event =
    | Detect(rule: Rule, log: Log, description: string, dedupKey: Option<string>, count: int)
    | SetStatus(index: nat, status: Status)

  function Step(alerts: seq<Alert>, e: Event): seq<Alert> {
    match e
    case Detect(rule, log, description, dedupKey, count) => Fired(alerts, rule, log, description, dedupKey, count).0
    case SetStatus(i, status) => if i < |alerts| then alerts[i := alerts[i].(status := status)] else alerts
  }

  function Run(events: seq<Event>): seq<Alert> {
    if events == [] then [] else Step(Run(events[..|events| - 1]), events[|events| - 1])
  }

  /** Rules with one id have one window. */
  predicate WindowsFixed(events: seq<Event>, window: int -> int) {
    forall i | 0 <= i < |events| :: events[i].Detect? ==> events[i].rule.window == window(events[i].rule.id)
  }

  /** The alerts of one rule and key, oldest row first. */
  function For(alerts: seq<Alert>, ruleId: int, key: string): (r: seq<Alert>)
    ensures forall a :: a in r <==> a in alerts && Concerns(a, ruleId, key)
  {
    if alerts == [] then []
    else
      var last := alerts[|alerts| - 1];
      var rest := For(alerts[..|alerts| - 1], ruleId, key);
      assert alerts == alerts[..|alerts| - 1] + [last];
      if Concerns(last, ruleId, key) then rest + [last] else rest
  }

  predicate Apart(alerts: seq<Alert>, window: int) {
    forall i, j | 0 <= i < j < |alerts| :: alerts[j].timestamp - alerts[i].timestamp > window
  }

  function Times(alerts: seq<Alert>): seq<int> {
    seq(|alerts|, i requires 0 <= i < |alerts| => alerts[i].timestamp)
  }

  lemma {:induction false} StatusKeepsTimes(alerts: seq<Alert>, i: nat, status: Status, ruleId: int, key: string)
    requires i < |alerts|
    ensures Times(For(alerts[i := alerts[i].(status := status)], ruleId, key)) == Times(For(alerts, ruleId, key))
  {
    hide Times, For, Concerns;
    var n, changed := |alerts| - 1, alerts[i := alerts[i].(status := status)];
    SameConcern(alerts[n], status, ruleId, key);
    if i < n {
      StatusKeepsTimes(alerts[..n], i, status, ruleId, key);
      assert changed[..n] == alerts[..n][i := alerts[i].(status := status)];
    } else {
      assert changed[..n] == alerts[..n];
    }
    TimesOfLast(alerts, ruleId, key);
    TimesOfLast(changed, ruleId, key);
  }

  lemma SameConcern(a: Alert, status: Status, ruleId: int, key: string)
    ensures Concerns(a.(status := status), ruleId, key) == Concerns(a, ruleId, key)
  {
  }

  lemma TimesOfLast(alerts: seq<Alert>, ruleId: int, key: string)
    requires alerts != []
    ensures Times(For(alerts, ruleId, key))
         == Times(For(alerts[..|alerts| - 1], ruleId, key))
            + (var last := alerts[|alerts| - 1]; if Concerns(last, ruleId, key) then [last.timestamp] else [])
  {
  }

  lemma ApartByTimes(a: seq<Alert>, b: seq<Alert>, window: int)
    requires Times(a) == Times(b) && Apart(a, window)
    ensures Apart(b, window)
  {
    assert |a| == |b|;
    forall i, j | 0 <= i < j < |b|
      ensures b[j].timestamp - b[i].timestamp > window
    {
      assert Times(a)[i] == Times(b)[i] && Times(a)[j] == Times(b)[j];
    }
  }

  /** In whatever order the logs arrive, two alerts with one rule and key are
      more than the rule's window apart, the later row being the later time. */
  lemma {:induction false} AlertsApart(events: seq<Event>, window: int -> int, ruleId: int, key: string)
    requires WindowsFixed(events, window)
    ensures Apart(For(Run(events), ruleId, key), window(ruleId))
  {
    if events != [] {
      var n := |events| - 1;
      var before, e := Run(events[..n]), events[n];
      AlertsApart(events[..n], window, ruleId, key);
      match e
      case SetStatus(i, status) =>
        if i < |before| {
          StatusKeepsTimes(before, i, status, ruleId, key);
          ApartByTimes(For(before, ruleId, key), For(Run(events), ruleId, key), window(ruleId));
        }
      case Detect(rule, log, description, dedupKey, count) =>
        DetectKeepsApart(before, rule, log, description, dedupKey, count, window(rule.id), ruleId, key, window(ruleId));
    }
  }

  lemma DetectKeepsApart(alerts: seq<Alert>, rule: Rule, log: Log, description: string, dedupKey: Option<string>,
                         count: int, ownWindow: int, ruleId: int, key: string, window: int)
    requires rule.window == ownWindow && (rule.id == ruleId ==> ownWindow == window)
    requires Apart(For(alerts, ruleId, key), window)
    ensures Apart(For(Fired(alerts, rule, log, description, dedupKey, count).0, ruleId, key), window)
  {
    var (after, created) := Fired(alerts, rule, log, description, dedupKey, count);
    if created {
      var alert := after[|alerts|];
      assert after[..|alerts|] == alerts;
      if Concerns(alert, ruleId, key) {
        forall a | a in For(alerts, ruleId, key)
          ensures alert.timestamp - a.timestamp > window
        {
          var i :| 0 <= i < |alerts| && alerts[i] == a;
          assert !Suppresses(alerts[i], ruleId, key, log.timestamp - window);
        }
      }
    }
  }

  /** So a time span can hold only so many of them. */
  lemma {:induction false} AlertsInSpan(alerts: seq<Alert>, window: int, i: nat, j: nat)
    requires window > 0 && Apart(alerts, window) && i <= j < |alerts|
    ensures alerts[j].timestamp - alerts[i].timestamp >= (j - i) * window
    ensures j - i + 1 <= (alerts[j].timestamp - alerts[i].timestamp) / window + 1
    decreases j
  {
    if i < j {
      AlertsInSpan(alerts, window, i, j - 1);
      assert (j - i) * window == (j - 1 - i) * window + window;
    }
    QuotientAtLeast(alerts[j].timestamp - alerts[i].timestamp, j - i, window);
  }

  /** In any run, the alerts of one rule and key whose times lie within a span
      are at most one more than the windows that fit in it. */
  lemma AlertsOfRunInSpan(events: seq<Event>, window: int -> int, ruleId: int, key: string, i: nat, j: nat, span: int)
    requires WindowsFixed(events, window) && window(ruleId) > 0
    requires i <= j < |For(Run(events), ruleId, key)|
    requires For(Run(events), ruleId, key)[j].timestamp - For(Run(events), ruleId, key)[i].timestamp <= span
    ensures j - i + 1 <= span / window(ruleId) + 1
  {
    var alerts := For(Run(events), ruleId, key);
    AlertsApart(events, window, ruleId, key);
    hide Apart, Run, For;
    AlertsInSpan(alerts, window(ruleId), i, j);
    QuotientAtLeast(span, j - i, window(ruleId));
  }

  // ── open alerts ──

  /** A status change that takes a closed alert back into triage. */
  predicate Reopens(alerts: seq<Alert>, e: Event) {
    e.SetStatus? && e.index < |alerts| && !alerts[e.index].status.IsOpen() && e.status.IsOpen()
  }

  predicate NeverReopens(events: seq<Event>) {
    forall i | 0 <= i < |events| :: !Reopens(Run(events[..i]), events[i])
  }

  /** At most one alert of the key is open. */
  predicate SingleOpen(alerts: seq<Alert>, ruleId: int, key: string) {
    forall i, j | 0 <= i < j < |alerts| ::
      !(Concerns(alerts[i], ruleId, key) && alerts[i].status.IsOpen()
        && Concerns(alerts[j], ruleId, key) && alerts[j].status.IsOpen())
  }

  /** Without reopening, an incident never has two open alerts. */
  lemma {:induction false} OneOpenAlert(events: seq<Event>, ruleId: int, key: string)
    requires NeverReopens(events)
    ensures SingleOpen(Run(events), ruleId, key)
  {
    if events != [] {
      var n := |events| - 1;
      forall i | 0 <= i < n
        ensures !Reopens(Run(events[..n][..i]), events[..n][i])
      {
        assert events[..n][..i] == events[..i];
      }
      OneOpenAlert(events[..n], ruleId, key);
      assert !Reopens(Run(events[..n]), events[n]);
    }
  }

  /** A source is not muted for ever: a detection raises an alert exactly when
      its type is watched, it has a key (its own, or the source address), the
      threshold is reached and every earlier alert of that key is closed and
      older than the window. */
  lemma RaisesIff(alerts: seq<Alert>, rule: Rule, log: Log, description: string, dedupKey: Option<string>, count: int)
    ensures var key := if dedupKey == None then log.sourceIp else dedupKey;
            var (after, raised) := Fired(alerts, rule, log, description, dedupKey, count);
            && (raised <==>
                && log.eventType == rule.watches && key != None && key != Some("") && count >= rule.threshold
                && forall a | a in For(alerts, rule.id, key.value) ::
                     (a.status == Resolved || a.status == FalsePositive) && a.timestamp < log.timestamp - rule.window)
            && (!raised ==> after == alerts)
            && (raised ==> |after| == |alerts| + 1 && after[..|alerts|] == alerts
                           && Concerns(after[|alerts|], rule.id, key.value) && after[|alerts|].status == New
                           && after[|alerts|].timestamp == log.timestamp)
  {
    var key := if dedupKey == None then log.sourceIp else dedupKey;
    if key.Some? {
      ActiveIff(alerts, rule.id, key.value, log.timestamp - rule.window);
    }
    hide For, HasActiveAlert;
  }

  lemma ActiveIff(alerts: seq<Alert>, ruleId: int, key: string, windowStart: int)
    ensures HasActiveAlert(alerts, ruleId, key, windowStart) <==>
            exists a | a in For(alerts, ruleId, key) ::
              a.status == New || a.status == Investigating || a.timestamp >= windowStart
  {
    if HasActiveAlert(alerts, ruleId, key, windowStart) {
      var i :| 0 <= i < |alerts| && Suppresses(alerts[i], ruleId, key, windowStart);
      assert alerts[i] in For(alerts, ruleId, key);
    }
    if exists a | a in For(alerts, ruleId, key) ::
        a.status == New || a.status == Investigating || a.timestamp >= windowStart {
      var a :| a in For(alerts, ruleId, key)
               && (a.status == New || a.status == Investigating || a.timestamp >= windowStart);
      var i :| 0 <= i < |alerts| && alerts[i] == a;
      assert Suppresses(alerts[i], ruleId, key, windowStart);
    }
  }
}
