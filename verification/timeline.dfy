/** The report's activity chart: one bucket per hour of the timestamps, with
    totals and totals per severity. */
module Timeline {
  import opened PyText
  import opened Grouping

  datatype Bucket = Bucket(hour: string, total: nat, bySeverity: map<string, nat>)

  /** The hour an event is charted under: the first 13 characters of its
      timestamp, None without one. */
  function HourOf(e: Event): Option<string> {
    if e.timestamp == "" then None else Some(Prefix(e.timestamp, 13))
  }

  function SeverityOf(e: Event): string {
    if e.severity == "" then "low" else e.severity
  }

  function HourAndSeverity(e: Event): Option<(string, string)> {
    if HourOf(e).None? then None else Some((HourOf(e).value, SeverityOf(e)))
  }

  /** How many of the first `n` events have key `k`. */
  function Tally<K(==)>(events: seq<Event>, key: Event -> Option<K>, k: K, n: nat): nat
    requires n <= |events|
  {
    |Indexes(events, key, k, n)|
  }

  function Count(counts: map<string, nat>, k: string): nat {
    if k in counts then counts[k] else 0
  }

  // ── text order ──

  /** Python's order on text, by code point. */
  predicate AtMost(a: string, b: string) {
    a == "" || (b != "" && (a[0] < b[0] || (a[0] == b[0] && AtMost(a[1..], b[1..]))))
  }

  predicate SortedText(keys: seq<string>) {
    forall i, j | 0 <= i < j < |keys| :: keys[i] != keys[j] && AtMost(keys[i], keys[j])
  }

  /** That is: the first text begins the second, or is smaller where they first
      differ. */
  lemma {:induction false} AtMostExact(a: string, b: string)
    ensures AtMost(a, b) <==>
            a <= b || exists i | 0 <= i < |a| && i < |b| :: a[..i] == b[..i] && a[i] < b[i]
  {
    if a != "" && b != "" {
      if a[0] == b[0] {
        AtMostExact(a[1..], b[1..]);
        SharedHead(a, b);
      } else {
        assert a[..0] == b[..0];
        assert a[0] < b[0] ==> exists i | 0 <= i < |a| && i < |b| :: a[..i] == b[..i] && a[i] < b[i];
        assert forall i | 0 < i < |a| && i < |b| :: a[..i][0] != b[..i][0];
      }
    }
  }

  lemma SharedHead(a: string, b: string)
    requires a != "" && b != "" && a[0] == b[0]
    ensures a <= b <==> a[1..] <= b[1..]
    ensures (exists i | 0 <= i < |a| && i < |b| :: a[..i] == b[..i] && a[i] < b[i]) <==>
            exists i | 0 <= i < |a[1..]| && i < |b[1..]| :: a[1..][..i] == b[1..][..i] && a[1..][i] < b[1..][i]
  {
    assert a == [a[0]] + a[1..] && b == [b[0]] + b[1..];
    forall i | 0 < i < |a| && i < |b|
      ensures a[..i] == b[..i] <==> a[1..][..i - 1] == b[1..][..i - 1]
    {
      assert a[..i] == [a[0]] + a[1..][..i - 1] && b[..i] == [b[0]] + b[1..][..i - 1];
    }
    if i :| 0 <= i < |a| && i < |b| && a[..i] == b[..i] && a[i] < b[i] {
      assert a[1..][..i - 1] == b[1..][..i - 1] && a[1..][i - 1] < b[1..][i - 1];
    }
    if i :| 0 <= i < |a[1..]| && i < |b[1..]| && a[1..][..i] == b[1..][..i] && a[1..][i] < b[1..][i] {
      assert a[..i + 1] == b[..i + 1] && a[i + 1] < b[i + 1];
    }
  }

  lemma {:induction false} AtMostTotal(a: string, b: string)
    ensures AtMost(a, b) || AtMost(b, a)
  {
    if a != "" && b != "" && a[0] == b[0] {
      AtMostTotal(a[1..], b[1..]);
    }
  }

  lemma {:induction false} AtMostTransitive(a: string, b: string, c: string)
    requires AtMost(a, b) && AtMost(b, c)
    ensures AtMost(a, c)
  {
    if a != "" && a[0] == b[0] == c[0] {
      AtMostTransitive(a[1..], b[1..], c[1..]);
    }
  }

  /** Puts a new key where `sorted` would. */
  function InsertKey(keys: seq<string>, k: string): (r: seq<string>)
    ensures forall x :: x in r <==> x in keys || x == k
  {
    if keys == [] then [k]
    else if AtMost(k, keys[0]) then [k] + keys
    else
      assert keys == [keys[0]] + keys[1..];
      [keys[0]] + InsertKey(keys[1..], k)
  }

  function SortKeys(keys: seq<string>): (r: seq<string>)
    ensures forall x :: x in r <==> x in keys
  {
    if keys == [] then []
    else
      assert keys == [keys[0]] + keys[1..];
      InsertKey(SortKeys(keys[1..]), keys[0])
  }

  lemma SortedCons(first: string, rest: seq<string>)
    requires SortedText(rest) && forall x | x in rest :: first != x && AtMost(first, x)
    ensures SortedText([first] + rest)
  {
    hide AtMost;
  }

  lemma OneSorted(k: string)
    ensures SortedText([k])
  {
  }

  lemma BeforeAll(keys: seq<string>, k: string)
    requires SortedText(keys) && keys != [] && AtMost(k, keys[0])
    ensures forall x | x in keys :: AtMost(k, x)
  {
    hide AtMost;
    forall j | 0 <= j < |keys|
      ensures AtMost(k, keys[j])
    {
      if j > 0 {
        AtMostTransitive(k, keys[0], keys[j]);
      }
    }
  }

  lemma {:induction false} InsertSortedKey(keys: seq<string>, k: string)
    requires SortedText(keys) && k !in keys
    ensures SortedText(InsertKey(keys, k))
  {
    hide AtMost, SortedText;
    if keys == [] {
      OneSorted(k);
    } else if AtMost(k, keys[0]) {
      BeforeAll(keys, k);
      SortedCons(k, keys);
    } else {
      AtMostTotal(k, keys[0]);
      SortedTail(keys);
      InsertSortedKey(keys[1..], k);
      SortedCons(keys[0], InsertKey(keys[1..], k));
    }
  }

  lemma SortedTail(keys: seq<string>)
    requires SortedText(keys) && keys != []
    ensures SortedText(keys[1..]) && forall x | x in keys[1..] :: keys[0] != x && AtMost(keys[0], x)
  {
    hide AtMost;
    forall x | x in keys[1..]
      ensures keys[0] != x && AtMost(keys[0], x)
    {
      var j :| 0 <= j < |keys[1..]| && keys[1..][j] == x;
      assert keys[j + 1] == x;
    }
  }

  lemma {:induction false} SortKeysSorts(keys: seq<string>)
    requires forall i, j | 0 <= i < j < |keys| :: keys[i] != keys[j]
    ensures SortedText(SortKeys(keys))
  {
    if keys != [] {
      SortKeysSorts(keys[1..]);
      assert keys[0] !in keys[1..];
      InsertSortedKey(SortKeys(keys[1..]), keys[0]);
    }
  }

  // ── the loop ──

  /** What a bucket must say about its hour. */
  ghost predicate Charts(b: Bucket, events: seq<Event>, n: nat)
    requires n <= |events|
  {
    && b.total == Tally(events, HourOf, b.hour, n)
    && forall sev :: Count(b.bySeverity, sev) == Tally(events, HourAndSeverity, (b.hour, sev), n)
  }

  /** The dictionary after `n` events: a bucket for every hour seen, no other. */
  ghost predicate Charted(buckets: map<string, Bucket>, events: seq<Event>, n: nat)
    requires n <= |events|
  {
    && (forall h | h in buckets :: buckets[h].hour == h && buckets[h].total > 0 && Charts(buckets[h], events, n))
    && (forall h | h !in buckets :: Charts(Bucket(h, 0, map[]), events, n))
  }

  function Bump(b: Bucket, sev: string): Bucket {
    b.(total := b.total + 1, bySeverity := b.bySeverity[sev := Count(b.bySeverity, sev) + 1])
  }

  lemma ChartsStep(b: Bucket, events: seq<Event>, n: nat, next: nat)
    requires n < next == n + 1 <= |events| && Charts(b, events, n)
    ensures HourOf(events[n]) != Some(b.hour) ==> Charts(b, events, next)
    ensures HourOf(events[n]) == Some(b.hour) ==> Charts(Bump(b, SeverityOf(events[n])), events, next)
  {
    hide Tally, HourOf, SeverityOf;
    TallyStep(events, HourOf, b.hour, n, next);
    forall sev
      ensures Tally(events, HourAndSeverity, (b.hour, sev), next)
           == Tally(events, HourAndSeverity, (b.hour, sev), n)
              + if HourOf(events[n]) == Some(b.hour) && SeverityOf(events[n]) == sev then 1 else 0
    {
      TallyStep(events, HourAndSeverity, (b.hour, sev), n, next);
    }
  }

  lemma TallyStep<K>(events: seq<Event>, key: Event -> Option<K>, k: K, n: nat, next: nat)
    requires n < next == n + 1 <= |events|
    ensures Tally(events, key, k, next) == Tally(events, key, k, n) + if key(events[n]) == Some(k) then 1 else 0
  {
  }

  /** An hour with an event has a positive tally. */
  lemma HourTallied(events: seq<Event>, m: nat)
    requires m < |events| && HourOf(events[m]).Some?
    ensures Tally(events, HourOf, HourOf(events[m]).value, |events|) > 0
  {
    var h := HourOf(events[m]).value;
    IndexesExact(events, HourOf, h, |events|);
    assert m in Indexes(events, HourOf, h, |events|);
  }

  lemma NothingCharted(events: seq<Event>)
    ensures Charted(map[], events, 0)
  {
  }

  method TimelineBuckets(events: seq<Event>) returns (chart: seq<Bucket>)
    ensures SortedText(Hours(chart))
    ensures forall h :: h in Hours(chart) <==> Tally(events, HourOf, h, |events|) > 0
    ensures forall b | b in chart :: Charts(b, events, |events|)
  {
    hide Charted, Charts, Tally, HourOf, SeverityOf, SortedText, SortKeys, Bump;
    var keys: seq<string> := [];
    var buckets: map<string, Bucket> := map[];
    NothingCharted(events);
    for n := 0 to |events|
      invariant Charted(buckets, events, n)
      invariant forall h :: h in keys <==> h in buckets
      invariant forall i, j | 0 <= i < j < |keys| :: keys[i] != keys[j]
    {
      ChartedStep(buckets, events, n, n + 1);
      var hour := HourOf(events[n]);
      if hour.None? {
        continue;
      }
      var h := hour.value;
      ghost var before := buckets;
      if h !in buckets {
        buckets := buckets[h := Bucket(h, 0, map[])];
        keys := keys + [h];
      }
      buckets := buckets[h := Bump(buckets[h], SeverityOf(events[n]))];
      assert buckets == Charting(before, events[n]);
    }
    SortKeysSorts(keys);
    chart := Listed(buckets, SortKeys(keys));
    ListedCharts(buckets, SortKeys(keys), events);
  }

  /** The buckets of these hours, in their order. */
  function Listed(buckets: map<string, Bucket>, hours: seq<string>): seq<Bucket>
    requires forall h | h in hours :: h in buckets
  {
    seq(|hours|, i requires 0 <= i < |hours| => assert hours[i] in hours; buckets[hours[i]])
  }

  function Hours(chart: seq<Bucket>): (r: seq<string>)
    ensures |r| == |chart| && forall i | 0 <= i < |r| :: r[i] == chart[i].hour
  {
    seq(|chart|, i requires 0 <= i < |chart| => chart[i].hour)
  }

  lemma ListedCharts(buckets: map<string, Bucket>, hours: seq<string>, events: seq<Event>)
    requires Charted(buckets, events, |events|) && forall h :: h in hours <==> h in buckets
    ensures Hours(Listed(buckets, hours)) == hours
    ensures forall h :: h in Hours(Listed(buckets, hours)) <==> Tally(events, HourOf, h, |events|) > 0
    ensures forall b | b in Listed(buckets, hours) :: Charts(b, events, |events|)
  {
    hide Tally, HourOf, SeverityOf, HourAndSeverity;
    var chart := Listed(buckets, hours);
    forall i | 0 <= i < |chart|
      ensures chart[i] == buckets[hours[i]] && chart[i].hour == hours[i] && Charts(chart[i], events, |events|)
    {
      assert hours[i] in hours;
    }
    forall h
      ensures h in hours <==> Tally(events, HourOf, h, |events|) > 0
    {
      if h in buckets {
        assert Charts(buckets[h], events, |events|);
      } else {
        assert Charts(Bucket(h, 0, map[]), events, |events|);
      }
    }
  }

  /** What the loop does to the dictionary. */
  function Charting(buckets: map<string, Bucket>, e: Event): map<string, Bucket> {
    match HourOf(e)
    case None => buckets
    case Some(h) =>
      var b := if h in buckets then buckets[h] else Bucket(h, 0, map[]);
      buckets[h := Bump(b, SeverityOf(e))]
  }

  lemma ChartedStep(buckets: map<string, Bucket>, events: seq<Event>, n: nat, next: nat)
    requires n < next == n + 1 <= |events| && Charted(buckets, events, n)
    ensures Charted(Charting(buckets, events[n]), events, next)
  {
    hide Charts, HourOf, SeverityOf;
    var after := Charting(buckets, events[n]);
    forall h
      ensures h in after ==> after[h].hour == h && after[h].total > 0 && Charts(after[h], events, next)
      ensures h !in after ==> Charts(Bucket(h, 0, map[]), events, next)
    {
      ChartsStep(if h in buckets then buckets[h] else Bucket(h, 0, map[]), events, n, next);
    }
  }

  /** What a bucket counts: the events whose timestamps start with its hour, the
      first thirteen characters, and those of each severity among them, low when
      there is none. */
  lemma BucketExact(b: Bucket, events: seq<Event>, sev: string)
    requires Charts(b, events, |events|)
    ensures b.total == |EventsIn(events, b.hour)|
    ensures Count(b.bySeverity, sev) == |EventsAt(events, b.hour, sev)|
  {
    forall x: nat | x < |events|
      ensures HourOf(events[x]) == Some(b.hour) <==> InHour(events[x], b.hour)
    {
      HourIs(events[x], b.hour);
    }
    hide HourOf, InHour;
    IndexesCount(events, HourOf, b.hour, |events|);
    IndexesCount(events, HourAndSeverity, (b.hour, sev), |events|);
    assert Matching(events, HourOf, b.hour, |events|) == EventsIn(events, b.hour);
    assert Matching(events, HourAndSeverity, (b.hour, sev), |events|) == EventsAt(events, b.hour, sev);
    hide Indexes, Matching, EventsIn, EventsAt;
  }

  function EventsIn(events: seq<Event>, hour: string): set<nat> {
    set x: nat | x < |events| && InHour(events[x], hour)
  }

  function EventsAt(events: seq<Event>, hour: string, severity: string): set<nat> {
    set x: nat | x < |events| && InHour(events[x], hour)
                 && (if events[x].severity == "" then "low" else events[x].severity) == severity
  }

  lemma HourIs(e: Event, hour: string)
    ensures HourOf(e) == Some(hour) <==> InHour(e, hour)
  {
    assert hour <= e.timestamp ==> hour == e.timestamp[..|hour|];
    assert e.timestamp[..|e.timestamp|] == e.timestamp;
  }

  predicate InHour(e: Event, hour: string) {
    e.timestamp != "" && hour <= e.timestamp && |hour| == if |e.timestamp| < 13 then |e.timestamp| else 13
  }

  // ── nothing is lost ──

  function Sum(chart: seq<Bucket>): nat {
    if chart == [] then 0 else chart[0].total + Sum(chart[1..])
  }

  function Stamped(events: seq<Event>, n: nat): nat
    requires n <= |events|
  {
    if n == 0 then 0 else Stamped(events, n - 1) + if events[n - 1].timestamp != "" then 1 else 0
  }

  /** The totals of a set of different hours, over the first `n` events. */
  function SumOver(events: seq<Event>, hours: seq<string>, n: nat): nat
    requires n <= |events|
  {
    if hours == [] then 0 else Tally(events, HourOf, hours[0], n) + SumOver(events, hours[1..], n)
  }

  lemma {:induction false} SumOverStep(events: seq<Event>, hours: seq<string>, n: nat)
    requires n < |events| && forall i, j | 0 <= i < j < |hours| :: hours[i] != hours[j]
    ensures SumOver(events, hours, n + 1) == SumOver(events, hours, n)
              + if HourOf(events[n]).Some? && HourOf(events[n]).value in hours then 1 else 0
  {
    if hours != [] {
      SumOverStep(events, hours[1..], n);
      assert hours == [hours[0]] + hours[1..];
    }
  }

  lemma StampedHasHour(e: Event)
    ensures HourOf(e).Some? <==> e.timestamp != ""
  {
  }

  lemma {:induction false} SumOverStamped(events: seq<Event>, hours: seq<string>, n: nat)
    requires n <= |events| && forall i, j | 0 <= i < j < |hours| :: hours[i] != hours[j]
    requires forall m | 0 <= m < n && HourOf(events[m]).Some? :: HourOf(events[m]).value in hours
    ensures SumOver(events, hours, n) == Stamped(events, n)
  {
    hide SumOver, HourOf;
    if n > 0 {
      StampedHasHour(events[n - 1]);
      SumOverStamped(events, hours, n - 1);
      SumOverStep(events, hours, n - 1);
    } else {
      SumOverNone(events, hours);
    }
  }

  lemma {:induction false} SumOverNone(events: seq<Event>, hours: seq<string>)
    ensures SumOver(events, hours, 0) == 0
  {
    if hours != [] {
      SumOverNone(events, hours[1..]);
    }
  }

  lemma {:induction false} SumIsSumOver(events: seq<Event>, chart: seq<Bucket>)
    requires forall b | b in chart :: Charts(b, events, |events|)
    ensures Sum(chart) == SumOver(events, Hours(chart), |events|)
  {
    if chart != [] {
      SumIsSumOver(events, chart[1..]);
      assert Hours(chart)[1..] == Hours(chart[1..]);
      assert Charts(chart[0], events, |events|);
    }
  }

  /** A sorted chart of the hours that occur accounts for every event that
      has a timestamp, once. */
  lemma ChartCountsEveryEvent(events: seq<Event>, chart: seq<Bucket>)
    requires SortedText(Hours(chart))
    requires forall h :: h in Hours(chart) <==> Tally(events, HourOf, h, |events|) > 0
    requires forall b | b in chart :: Charts(b, events, |events|)
    ensures Sum(chart) == Stamped(events, |events|)
  {
    hide Tally, Charts, HourOf, AtMost;
    SumIsSumOver(events, chart);
    forall m | 0 <= m < |events| && HourOf(events[m]).Some?
      ensures HourOf(events[m]).value in Hours(chart)
    {
      HourTallied(events, m);
    }
    SumOverStamped(events, Hours(chart), |events|);
  }
}
