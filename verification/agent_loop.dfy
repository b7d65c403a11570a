/** One turn of the agent's poll loop: verify the answer, carry out its orders,
    record and report each, then lift the blocks that have run out. An error on
    the way ends the turn. And what holds of an agent after any number of
    turns. */
module AgentLoop {
  import opened PyText
  import opened Orders
  import opened Protocol
  import FailSafe
  import HashChain
  import Signing

  // ── what a turn is given ──

  /** What the host does when asked to carry something out. */
  datatype Answer = Answer(done: bool, output: string)

  /** An error at the order of that number. With `applied`, the order was
      carried out too, but neither recorded nor reported. */
  datatype Failure = Failure(at: nat, applied: bool)

  /** What a body holds: its orders, up to the first thing that cannot be read
      as one, and whether that was all. */
  datatype Parsed = Parsed(orders: seq<Item>, whole: bool)

  /** `answers` is what the host makes of each order in turn, `works` and `said`
      what it makes of each automatic unblock. */
  datatype Input = Input(fetched: bool, header: string, body: string, answers: nat -> Answer, error: Option<Failure>,
                         now: int, works: string -> bool, said: string -> string)

  datatype Setup = Setup(endpoint: string, mac: Signing.Mac, secret: string, parse: string -> Parsed,
                         cfg: FailSafe.Config, hash: HashChain.Hash)

  // ── carrying out orders ──

  function OutcomeOf(cfg: FailSafe.Config, item: Item, answer: Answer): Outcome {
    if item.action !in FailSafe.Executors(cfg.platform) then Outcome(false, "unsupported action: " + item.action)
    else Outcome(answer.done, answer.output)
  }

  function Outcomes(cfg: FailSafe.Config, items: seq<Item>, answers: nat -> Answer): (r: seq<Outcome>)
    ensures |r| == |items|
    ensures forall i | 0 <= i < |r| :: r[i] == OutcomeOf(cfg, items[i], answers(i))
  {
    seq(|items|, i requires 0 <= i < |items| => OutcomeOf(cfg, items[i], answers(i)))
  }

  /** An order as an event of the host. */
  function EventOf(item: Item, answer: Answer, now: int): FailSafe.Event {
    FailSafe.Ordered(item.action, item.target, answer.done, now)
  }

  function EventsOf(items: seq<Item>, answers: nat -> Answer, now: int): (r: seq<FailSafe.Event>)
    ensures |r| == |items|
    ensures forall i | 0 <= i < |r| ::
              r[i] == FailSafe.Ordered(items[i].action, items[i].target, answers(i).done, now)
  {
    seq(|items|, i requires 0 <= i < |items| => EventOf(items[i], answers(i), now))
  }

  function Replay(h: FailSafe.Host, cfg: FailSafe.Config, events: seq<FailSafe.Event>): FailSafe.Host {
    if events == [] then h
    else FailSafe.Next(Replay(h, cfg, events[..|events| - 1]), cfg, events[|events| - 1])
  }

  /** The ledger entry of a carried-out order. */
  function EntryOf(item: Item, outcome: Outcome, signature: string): HashChain.Entry {
    HashChain.Entry(item.action, item.target, outcome.success, outcome.output, signature)
  }

  function OrderEntries(items: seq<Item>, outcomes: seq<Outcome>, signature: string): (r: seq<HashChain.Entry>)
    requires |items| == |outcomes|
    ensures |r| == |items|
    ensures forall i | 0 <= i < |r| ::
              r[i] == HashChain.Entry(items[i].action, items[i].target, outcomes[i].success, outcomes[i].output,
                                      signature)
  {
    seq(|items|, i requires 0 <= i < |items| => EntryOf(items[i], outcomes[i], signature))
  }

  // ── what a turn does ──

  /** How far a turn gets: the orders recorded, those carried out, and whether
      it comes to the expiry pass. */
  datatype Reach = Reach(recorded: nat, carried: nat, expires: bool)

  function OrdersIn(p: Setup, i: Input): seq<Item> {
    p.parse(i.body).orders
  }

  function ReachOf(p: Setup, i: Input, check: Signing.Verdict): (r: Reach)
    ensures r.recorded <= r.carried <= |OrdersIn(p, i)|
  {
    match check
    case Raised => Reach(0, 0, false)
    case Refused => Reach(0, 0, true)
    case Accepted =>
      var n := |OrdersIn(p, i)|;
      if i.error.Some? && i.error.value.at < n then
        Reach(i.error.value.at, i.error.value.at + if i.error.value.applied then 1 else 0, false)
      else Reach(n, n, p.parse(i.body).whole)
  }

  function OrderEvents(p: Setup, i: Input, check: Signing.Verdict): seq<FailSafe.Event> {
    EventsOf(OrdersIn(p, i)[..ReachOf(p, i, check).carried], i.answers, i.now)
  }

  function EventsIn(p: Setup, i: Input, check: Signing.Verdict): seq<FailSafe.Event> {
    OrderEvents(p, i, check) + if ReachOf(p, i, check).expires then [FailSafe.Ticked(i.now, i.works)] else []
  }

  /** The orders a turn records and reports. */
  function RecordedOrders(p: Setup, i: Input, check: Signing.Verdict): seq<Item> {
    OrdersIn(p, i)[..ReachOf(p, i, check).recorded]
  }

  function RecordedIn(p: Setup, i: Input, check: Signing.Verdict): seq<HashChain.Entry> {
    var items := RecordedOrders(p, i, check);
    OrderEntries(items, Outcomes(p.cfg, items, i.answers), i.header)
  }

  function EntriesIn(p: Setup, i: Input, check: Signing.Verdict, h: FailSafe.Host): seq<HashChain.Entry> {
    RecordedIn(p, i, check)
    + if ReachOf(p, i, check).expires then
        FailSafe.Attempts(p.cfg, Replay(h, p.cfg, OrderEvents(p, i, check)).schedule, i.now, i.works, i.said)
      else []
  }

  /** What the agent remembers, what its host is like and what it has written. */
  datatype Snapshot = Snapshot(seen: set<string>, host: FailSafe.Host, rows: seq<HashChain.Row>)

  /** An answer that could not be fetched ends a turn as a check that raises. */
  function CheckOf(p: Setup, m: Snapshot, i: Input): Signing.Verdict {
    if !i.fetched then Signing.Raised
    else Signing.Judged(p.mac, p.secret, i.body, i.header, i.now, m.seen)
  }

  function Took(p: Setup, m: Snapshot, i: Input): Snapshot {
    var check := CheckOf(p, m, i);
    Snapshot(if check.Accepted? then Signing.Remember(m.seen, Signing.NonceOf(i.header)) else m.seen,
             Replay(m.host, p.cfg, EventsIn(p, i, check)),
             HashChain.Written(p.hash, m.rows, EntriesIn(p, i, check, m.host), i.now))
  }

  function AfterTurns(p: Setup, turns: seq<Input>): Snapshot {
    if turns == [] then Snapshot({}, FailSafe.Host([], {}), [])
    else Took(p, AfterTurns(p, turns[..|turns| - 1]), turns[|turns| - 1])
  }

  // ── the agent ──

  class Agent {
    const setup: Setup
    const nonces: Signing.NonceMemory
    const host: FailSafe.KillSwitch
    const ledger: HashChain.Ledger
    ghost var turns: seq<Input>

    ghost function State(): Snapshot
      reads nonces, host, ledger
    {
      Snapshot(nonces.seen, host.Value(), ledger.rows)
    }

    /** The agent is where the turns it has taken lead. */
    ghost predicate Valid()
      reads this, nonces, host, ledger
    {
      && host.cfg == setup.cfg && ledger.hash == setup.hash
      && |nonces.seen| <= Signing.MAX_NONCES && FailSafe.OnePerTarget(host.schedule)
      && State() == AfterTurns(setup, turns)
    }

    constructor (setup: Setup)
      ensures Valid() && fresh(nonces) && fresh(host) && fresh(ledger)
      ensures this.setup == setup && turns == []
    {
      this.setup := setup;
      nonces := new Signing.NonceMemory();
      host := new FailSafe.KillSwitch(setup.cfg);
      ledger := new HashChain.Ledger(setup.hash);
      turns := [];
    }

    /** One order: applied, recorded and reported. */
    method CarryOutOne(item: Item, answer: Answer, signature: string, now: int) returns (report: Report)
      requires FailSafe.OnePerTarget(host.schedule)
      modifies host, ledger
      ensures FailSafe.OnePerTarget(host.schedule)
      ensures host.Value()
           == FailSafe.Apply(old(host.Value()), host.cfg, item.action, item.target, answer.done, now)
      ensures var supported := item.action in FailSafe.Executors(host.cfg.platform);
              var ok, said := supported && answer.done, if supported then answer.output
                                                        else "unsupported action: " + item.action;
              && report == Report(setup.endpoint, item.id, ok, Stored(said))
              && ledger.rows
              == old(ledger.rows)
                 + [HashChain.NewRow(ledger.hash, old(ledger.rows),
                                     HashChain.Entry(item.action, item.target, ok, said, signature), now)]
    {
      hide FailSafe.Apply, HashChain.NewRow, FailSafe.OnePerTarget;
      var supported := item.action in FailSafe.Executors(host.cfg.platform);
      var ok := host.ApplyOrder(item.action, item.target, answer.done, now);
      var out := if supported then answer.output else "unsupported action: " + item.action;
      var rowHash := ledger.Record(HashChain.Entry(item.action, item.target, ok, out, signature), now);
      report := Report(setup.endpoint, item.id, ok, Stored(out));
    }

    /** The orders of an accepted answer, each finished before the next. */
    method CarryOut(items: seq<Item>, answers: nat -> Answer, signature: string, now: int)
      returns (reports: seq<Report>)
      requires FailSafe.OnePerTarget(host.schedule)
      modifies host, ledger
      ensures FailSafe.OnePerTarget(host.schedule)
      ensures host.Value() == Replay(old(host.Value()), host.cfg, EventsOf(items, answers, now))
      ensures ledger.rows
           == HashChain.Written(ledger.hash, old(ledger.rows),
                                OrderEntries(items, Outcomes(host.cfg, items, answers), signature), now)
      ensures forall round: nat ::
                reports == ReportAll(setup.endpoint, ApplyAll(round, items, Outcomes(host.cfg, items, answers)))
    {
      hide Replay, HashChain.Written, FailSafe.Apply, HashChain.NewRow, Stored, FailSafe.OnePerTarget;
      reports := [];
      ghost var outcomes := Outcomes(host.cfg, items, answers);
      ghost var events, entries := EventsOf(items, answers, now), OrderEntries(items, outcomes, signature);
      NothingReplayed(host.Value(), host.cfg);
      HashChain.WrittenNothing(ledger.hash, ledger.rows, now);
      for i := 0 to |items|
        invariant FailSafe.OnePerTarget(host.schedule)
        invariant host.Value() == Replay(old(host.Value()), host.cfg, events[..i])
        invariant ledger.rows == HashChain.Written(ledger.hash, old(ledger.rows), entries[..i], now)
        invariant |reports| == i
        invariant forall k | 0 <= k < i ::
                    reports[k] == Report(setup.endpoint, items[k].id, outcomes[k].success, Stored(outcomes[k].output))
      {
        var report := CarryOutOne(items[i], answers(i), signature, now);
        reports := reports + [report];
        assert events[..i + 1] == events[..i] + [events[i]] && entries[..i + 1] == entries[..i] + [entries[i]];
        ReplayOneMore(old(host.Value()), host.cfg, events[..i], events[i]);
        HashChain.WrittenOneMore(ledger.hash, old(ledger.rows), entries[..i], entries[i], now);
      }
      assert events[..|items|] == events && entries[..|items|] == entries;
    }

    /** One turn. */
    method Tick(i: Input) returns (check: Signing.Verdict, reports: seq<Report>)
      requires Valid()
      modifies this`turns, nonces, host, ledger
      ensures Valid() && turns == old(turns) + [i]
      ensures check == CheckOf(setup, old(State()), i)
      ensures State() == Took(setup, old(State()), i)
      ensures var items := RecordedOrders(setup, i, check);
              forall round: nat ::
                reports == ReportAll(setup.endpoint, ApplyAll(round, items, Outcomes(setup.cfg, items, i.answers)))
    {
      check, reports := Run(i);
      TurnsStep(setup, turns, i);
      turns := turns + [i];
    }

    method Run(i: Input) returns (check: Signing.Verdict, reports: seq<Report>)
      requires Valid()
      modifies nonces, host, ledger
      ensures |nonces.seen| <= Signing.MAX_NONCES && FailSafe.OnePerTarget(host.schedule)
      ensures check == CheckOf(setup, old(State()), i)
      ensures State() == Took(setup, old(State()), i)
      ensures var items := RecordedOrders(setup, i, check);
              forall round: nat ::
                reports == ReportAll(setup.endpoint, ApplyAll(round, items, Outcomes(setup.cfg, items, i.answers)))
    {
      hide Signing.Accepts, Signing.Raises, Signing.Remember, FailSafe.OnePerTarget, Replay, HashChain.Written,
           FailSafe.Apply, FailSafe.Expire, FailSafe.Attempts, AfterTurns;
      ghost var m := State();
      check, reports := Signing.Raised, [];
      NothingReplayed(m.host, setup.cfg);
      HashChain.WrittenNothing(setup.hash, m.rows, i.now);
      if !i.fetched {
        return;
      }
      check := nonces.VerifyBody(setup.mac, setup.secret, i.body, i.header, i.now);
      ghost var events, entries := OrderEvents(setup, i, check), RecordedIn(setup, i, check);
      if check.Raised? {
        return;
      }
      if check.Accepted? {
        var parsed := setup.parse(i.body);
        var fails := i.error.Some? && i.error.value.at < |parsed.orders|;
        var n := if fails then i.error.value.at else |parsed.orders|;
        reports := CarryOut(parsed.orders[..n], i.answers, i.header, i.now);
        if fails && i.error.value.applied {
          var item := parsed.orders[n];
          ghost var before := EventsOf(parsed.orders[..n], i.answers, i.now);
          assert events == before + [EventOf(item, i.answers(n), i.now)];
          ReplayOneMore(m.host, setup.cfg, before, EventOf(item, i.answers(n), i.now));
          var ok := host.ApplyOrder(item.action, item.target, i.answers(n).done, i.now);
        }
        if fails || !parsed.whole {
          assert EventsIn(setup, i, check) == events && EntriesIn(setup, i, check, m.host) == entries;
          return;
        }
      } else {
        assert events == [] && entries == [];
      }
      ghost var due := host.schedule;
      host.ExpireScheduled(ledger, i.now, i.works, i.said);
      ReplayOneMore(m.host, setup.cfg, events, FailSafe.Ticked(i.now, i.works));
      HashChain.WrittenTwice(setup.hash, m.rows, entries,
                             FailSafe.Attempts(setup.cfg, due, i.now, i.works, i.said), i.now);
    }

    /** The walk over the agent's own ledger. */
    method VerifyLedger() returns (code: int)
      requires Valid()
      ensures HashChain.Injective(setup.hash) ==>
                (code == 0 <==> HashChain.NoneCut(CallsOfTurns(setup, turns)))
    {
      var findings: seq<HashChain.Finding>;
      code, findings := ledger.Verify();
      HashChain.SilentIffAccepted(ledger.hash, ledger.rows);
      if HashChain.Injective(setup.hash) {
        LedgerPassesIff(setup, turns);
      }
    }
  }

  lemma NothingReplayed(h: FailSafe.Host, cfg: FailSafe.Config)
    ensures Replay(h, cfg, []) == h
  {
  }

  lemma ReplayOneMore(h: FailSafe.Host, cfg: FailSafe.Config, events: seq<FailSafe.Event>,
                      e: FailSafe.Event)
    ensures Replay(h, cfg, events + [e]) == FailSafe.Next(Replay(h, cfg, events), cfg, e)
  {
    hide FailSafe.Next;
    assert (events + [e])[..|events|] == events;
  }

  lemma TurnsStep(p: Setup, turns: seq<Input>, i: Input)
    ensures AfterTurns(p, turns + [i]) == Took(p, AfterTurns(p, turns), i)
  {
    hide Took;
    assert (turns + [i])[..|turns|] == turns;
  }

  /** One turn, case by case. An answer that could not be fetched or checked
      changes nothing; a refused one only lets the expiry pass run; an accepted
      one is carried out order by order, up to the error if there is one, and
      the expiry pass follows when there is none. */
  lemma TurnExact(p: Setup, m: Snapshot, i: Input)
    ensures var after := Took(p, m, i);
            var check := Signing.Judged(p.mac, p.secret, i.body, i.header, i.now, m.seen);
            var accepted := i.fetched && check.Accepted?;
            var orders := p.parse(i.body).orders;
            var fails := i.error.Some? && i.error.value.at < |orders|;
            var recorded := if fails then orders[..i.error.value.at] else orders;
            var carried := if fails && i.error.value.applied then orders[..i.error.value.at + 1] else recorded;
            var host := Replay(m.host, p.cfg, EventsOf(carried, i.answers, i.now));
            var entries := OrderEntries(recorded, Outcomes(p.cfg, recorded, i.answers), i.header);
            && (!i.fetched || check.Raised? ==> after == m)
            && (i.fetched && check.Refused? ==> Expired(p, m, i, after) && after.seen == m.seen)
            && (accepted ==> after.seen == Signing.Remember(m.seen, Signing.NonceOf(i.header)))
            && (accepted && (fails || !p.parse(i.body).whole) ==>
                  after.host == host && after.rows == HashChain.Written(p.hash, m.rows, entries, i.now))
            && (accepted && !fails && p.parse(i.body).whole ==>
                  Expired(p, Snapshot(m.seen, host, HashChain.Written(p.hash, m.rows, entries, i.now)), i, after))
  {
    hide Signing.Judged, Signing.Remember, Replay, HashChain.Written, FailSafe.Expire, FailSafe.Attempts;
    var check, orders := CheckOf(p, m, i), p.parse(i.body).orders;
    assert orders[..|orders|] == orders && orders[..0] == [];
    NothingReplayed(m.host, p.cfg);
    HashChain.WrittenNothing(p.hash, m.rows, i.now);
    var events, entries := OrderEvents(p, i, check), RecordedIn(p, i, check);
    if ReachOf(p, i, check).expires {
      var attempts := FailSafe.Attempts(p.cfg, Replay(m.host, p.cfg, events).schedule, i.now, i.works, i.said);
      ReplayOneMore(m.host, p.cfg, events, FailSafe.Ticked(i.now, i.works));
      HashChain.WrittenTwice(p.hash, m.rows, entries, attempts, i.now);
    } else {
      assert EventsIn(p, i, check) == events && EntriesIn(p, i, check, m.host) == entries;
    }
  }

  /** An expiry pass over a host, and what it writes. */
  predicate Expired(p: Setup, before: Snapshot, i: Input, after: Snapshot) {
    && after.host == FailSafe.Expire(before.host, p.cfg, i.now, i.works)
    && after.rows == HashChain.Written(p.hash, before.rows,
                                       FailSafe.Attempts(p.cfg, before.host.schedule, i.now, i.works, i.said), i.now)
  }

  /** Agents on Linux and Windows carry out every order the server ever stores,
      those on macOS the ones about addresses, and others none. */
  lemma OrdersSupported(s: Settings, steps: seq<Step>, o: Order, platform: FailSafe.Platform)
    requires o in Run(s, steps).db.orders
    ensures o.action in FailSafe.Executors(platform) <==>
            || platform == FailSafe.Linux || platform == FailSafe.Windows
            || (platform == FailSafe.Darwin && (o.action == "block_ip" || o.action == "unblock_ip"))
  {
    EveryOrderAllowed(s, steps);
    hide Run;
    assert Harmless(s, o);
  }

  // ── any number of turns ──

  /** All that happened to the host, and all that was recorded. */
  function EventsOfTurns(p: Setup, turns: seq<Input>): seq<FailSafe.Event>
  {
    if turns == [] then []
    else
      var n := |turns| - 1;
      EventsOfTurns(p, turns[..n]) + EventsIn(p, turns[n], CheckOf(p, AfterTurns(p, turns[..n]), turns[n]))
  }

  function CallsOfTurns(p: Setup, turns: seq<Input>): seq<HashChain.Call>
  {
    if turns == [] then []
    else
      var n := |turns| - 1;
      var m := AfterTurns(p, turns[..n]);
      CallsOfTurns(p, turns[..n])
      + HashChain.CallsOf(EntriesIn(p, turns[n], CheckOf(p, m, turns[n]), m.host), turns[n].now)
  }

  lemma {:induction false} ReplayContinues(cfg: FailSafe.Config, events: seq<FailSafe.Event>, more: seq<FailSafe.Event>)
    ensures Replay(FailSafe.After(cfg, events), cfg, more) == FailSafe.After(cfg, events + more)
  {
    hide FailSafe.Next;
    if more == [] {
      assert events + more == events;
    } else {
      var n := |more| - 1;
      ReplayContinues(cfg, events, more[..n]);
      assert (events + more)[..|events + more| - 1] == events + more[..n];
    }
  }

  /** The host has gone through the events of all turns, and the ledger is the
      one recording all their entries builds. */
  lemma {:induction false} TurnsAreRuns(p: Setup, turns: seq<Input>)
    ensures AfterTurns(p, turns).host == FailSafe.After(p.cfg, EventsOfTurns(p, turns))
    ensures AfterTurns(p, turns).rows == HashChain.Recorded(p.hash, CallsOfTurns(p, turns))
  {
    hide EventsIn, EntriesIn, CheckOf, FailSafe.Next, HashChain.NewRow, Signing.Remember;
    if turns != [] {
      var n := |turns| - 1;
      var m, i := AfterTurns(p, turns[..n]), turns[n];
      TurnsAreRuns(p, turns[..n]);
      ReplayContinues(p.cfg, EventsOfTurns(p, turns[..n]), EventsIn(p, i, CheckOf(p, m, i)));
      HashChain.WrittenIsRecorded(p.hash, CallsOfTurns(p, turns[..n]),
                                  EntriesIn(p, i, CheckOf(p, m, i), m.host), i.now);
    }
  }

  /** The last turn got as far as its expiry pass. */
  predicate EndsInExpiry(p: Setup, turns: seq<Input>)
  {
    turns != [] &&
    var n := |turns| - 1;
    ReachOf(p, turns[n], CheckOf(p, AfterTurns(p, turns[..n]), turns[n])).expires
  }

  /** After any number of turns, as long as automatic unblocks have worked, the
      blocked addresses are exactly the scheduled ones. When the last turn came
      to its expiry pass, each of them was last blocked less than the configured
      time ago. */
  lemma BlockedIsScheduled(p: Setup, turns: seq<Input>)
    requires FailSafe.AllUnblocksWorked(p.cfg, EventsOfTurns(p, turns))
    ensures var h := AfterTurns(p, turns).host;
            && h.firewall == FailSafe.Targets(h.schedule)
            && (EndsInExpiry(p, turns) ==>
                  forall t | t in h.firewall ::
                    var last := FailSafe.LastBlock(p.cfg, EventsOfTurns(p, turns), t);
                    last.Some? && turns[|turns| - 1].now < last.value + p.cfg.maxBlockMinutes * 60)
  {
    TurnsAreRuns(p, turns);
    FailSafe.InStepWhileUnblocksWork(p.cfg, EventsOfTurns(p, turns));
    if EndsInExpiry(p, turns) {
      var i := turns[|turns| - 1];
      var before := LastTick(p, turns);
      FailSafe.BlockedOnlyRecently(p.cfg, before, i.now, i.works);
    }
    hide AfterTurns, EventsOfTurns, FailSafe.After, FailSafe.LastBlock, FailSafe.AllUnblocksWorked, EndsInExpiry;
  }

  lemma LastTick(p: Setup, turns: seq<Input>) returns (before: seq<FailSafe.Event>)
    requires EndsInExpiry(p, turns)
    ensures var i := turns[|turns| - 1]; EventsOfTurns(p, turns) == before + [FailSafe.Ticked(i.now, i.works)]
  {
    hide OrderEvents, CheckOf, AfterTurns;
    var n := |turns| - 1;
    before := EventsOfTurns(p, turns[..n]) + OrderEvents(p, turns[n], CheckOf(p, AfterTurns(p, turns[..n]), turns[n]));
  }

  /** Its own ledger passes its walk if and only if no output it recorded was
      longer than 2048 characters, given an injective hash. */
  lemma LedgerPassesIff(p: Setup, turns: seq<Input>)
    requires HashChain.Injective(p.hash)
    ensures HashChain.Accepted(p.hash, AfterTurns(p, turns).rows) <==> HashChain.NoneCut(CallsOfTurns(p, turns))
  {
    TurnsAreRuns(p, turns);
    HashChain.RecordedAcceptedIff(p.hash, CallsOfTurns(p, turns));
    hide *;
  }
}
