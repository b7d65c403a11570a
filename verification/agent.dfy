/** The agent's fail-safe: every block it makes is scheduled to be undone. The
    firewall is the set of addresses blocked on the host; whether a command
    works is the environment's choice, and one that does not work changes
    nothing. */
module FailSafe {
  import opened PyText
  import HashChain

  datatype Platform = Linux | Windows | Darwin | Other

  function Executors(platform: Platform): set<string> {
    match platform
    case Linux => {"block_ip", "unblock_ip", "disable_user", "enable_user"}
    case Windows => {"block_ip", "unblock_ip", "disable_user", "enable_user"}
    case Darwin => {"block_ip", "unblock_ip"}
    case Other => {}
  }

  // ── the schedule, a dictionary in insertion order ──

  datatype Block = Block(target: string, expiry: int)

  function Targets(schedule: seq<Block>): (r: set<string>)
    ensures forall t :: t in r <==> exists i | 0 <= i < |schedule| :: schedule[i].target == t
  {
    set i | 0 <= i < |schedule| :: schedule[i].target
  }

  predicate OnePerTarget(schedule: seq<Block>) {
    forall i, j | 0 <= i < j < |schedule| :: schedule[i].target != schedule[j].target
  }

  /** Assignment to a key; a known key keeps its place. */
  function Put(schedule: seq<Block>, target: string, expiry: int): seq<Block> {
    if schedule == [] then [Block(target, expiry)]
    else if schedule[0].target == target then [Block(target, expiry)] + schedule[1..]
    else [schedule[0]] + Put(schedule[1..], target, expiry)
  }

  /** Removal of a key, if it is there. */
  function Pop(schedule: seq<Block>, target: string): seq<Block> {
    if schedule == [] then []
    else if schedule[0].target == target then schedule[1..]
    else [schedule[0]] + Pop(schedule[1..], target)
  }

  lemma {:induction false} PutMeans(schedule: seq<Block>, target: string, expiry: int)
    requires OnePerTarget(schedule)
    ensures OnePerTarget(Put(schedule, target, expiry))
    ensures forall b :: b in Put(schedule, target, expiry) <==>
                        b == Block(target, expiry) || (b in schedule && b.target != target)
  {
    if schedule != [] {
      assert schedule == [schedule[0]] + schedule[1..];
      PutMeans(schedule[1..], target, expiry);
    }
  }

  lemma {:induction false} PopMeans(schedule: seq<Block>, target: string)
    requires OnePerTarget(schedule)
    ensures OnePerTarget(Pop(schedule, target))
    ensures forall b :: b in Pop(schedule, target) <==> b in schedule && b.target != target
  {
    if schedule != [] {
      assert schedule == [schedule[0]] + schedule[1..];
      PopMeans(schedule[1..], target);
    }
  }

  /** Popping the entry behind a prefix that does not hold its key. */
  lemma {:induction false} PopBehind(front: seq<Block>, b: Block, rest: seq<Block>)
    requires forall c | c in front :: c.target != b.target
    ensures Pop(front + [b] + rest, b.target) == front + rest
  {
    var all := front + [b] + rest;
    if front == [] {
      assert all == [b] + rest && all[1..] == rest;
    } else {
      assert all[1..] == front[1..] + [b] + rest;
      PopBehind(front[1..], b, rest);
    }
  }

  // ── one order, one expiry pass ──

  datatype Host = Host(schedule: seq<Block>, firewall: set<string>)

  datatype Config = Config(platform: Platform, maxBlockMinutes: int)

  predicate Works(cfg: Config, action: string, done: bool) {
    action in Executors(cfg.platform) && done
  }

  function Apply(h: Host, cfg: Config, action: string, target: string, done: bool, now: int): Host {
    if !Works(cfg, action, done) then h
    else if action == "block_ip" then
      h.(firewall := h.firewall + {target}, schedule := Put(h.schedule, target, now + cfg.maxBlockMinutes * 60))
    else if action == "unblock_ip" then
      h.(firewall := h.firewall - {target}, schedule := Pop(h.schedule, target))
    else h
  }

  predicate Due(cfg: Config, b: Block, now: int) {
    b.expiry <= now && "unblock_ip" in Executors(cfg.platform)
  }

  function Remaining(cfg: Config, schedule: seq<Block>, now: int): (r: seq<Block>)
    ensures forall b :: b in r <==> b in schedule && !Due(cfg, b, now)
  {
    if schedule == [] then []
    else
      var n := |schedule| - 1;
      assert schedule == schedule[..n] + [schedule[n]];
      Remaining(cfg, schedule[..n], now) + if Due(cfg, schedule[n], now) then [] else [schedule[n]]
  }

  /** The ledger entry an automatic unblock leaves. */
  function ExpiryEntry(target: string, works: string -> bool, said: string -> string): HashChain.Entry {
    HashChain.Entry("unblock_ip", target, works(target), "auto-expiry: " + said(target), "self-expiry")
  }

  /** The entries of a pass, one for each block that is due, in order. */
  function Attempts(cfg: Config, schedule: seq<Block>, now: int, works: string -> bool, said: string -> string)
    : seq<HashChain.Entry>
  {
    if schedule == [] then []
    else
      var n := |schedule| - 1;
      Attempts(cfg, schedule[..n], now, works, said)
      + if Due(cfg, schedule[n], now) then [ExpiryEntry(schedule[n].target, works, said)] else []
  }

  function Lifted(cfg: Config, schedule: seq<Block>, now: int, works: string -> bool): (r: set<string>)
    ensures forall t :: t in r <==> exists i | 0 <= i < |schedule| ::
              schedule[i].target == t && Due(cfg, schedule[i], now) && works(t)
  {
    set i | 0 <= i < |schedule| && Due(cfg, schedule[i], now) && works(schedule[i].target) :: schedule[i].target
  }

  /** A pass over the schedule: everything due is unblocked and forgotten,
      whether or not the unblock worked. */
  function Expire(h: Host, cfg: Config, now: int, works: string -> bool): Host {
    Host(Remaining(cfg, h.schedule, now), h.firewall - Lifted(cfg, h.schedule, now, works))
  }

  /** One entry of the pass. */
  function Treat(h: Host, cfg: Config, b: Block, now: int, works: string -> bool): Host {
    if !Due(cfg, b, now) then h
    else
      Host(Pop(h.schedule, b.target), if works(b.target) then h.firewall - {b.target} else h.firewall)
  }

  /** A pass that has dealt with the first `i` entries of its snapshot. */
  function Passed(h: Host, cfg: Config, i: nat, now: int, works: string -> bool): Host
    requires i <= |h.schedule|
  {
    var done := h.schedule[..i];
    Host(Remaining(cfg, done, now) + h.schedule[i..], h.firewall - Lifted(cfg, done, now, works))
  }

  class KillSwitch {
    const cfg: Config
    var schedule: seq<Block>
    var firewall: set<string>

    ghost function Value(): Host
      reads this
    {
      Host(schedule, firewall)
    }

    constructor (cfg: Config)
      ensures this.cfg == cfg && Value() == Host([], {})
    {
      this.cfg := cfg;
      schedule, firewall := [], {};
    }

    method ApplyOrder(action: string, target: string, done: bool, now: int) returns (ok: bool)
      requires OnePerTarget(schedule)
      modifies this
      ensures OnePerTarget(schedule)
      ensures ok == Works(cfg, action, done)
      ensures Value() == Apply(old(Value()), cfg, action, target, done, now)
      ensures ok && action == "block_ip" ==>
                target in firewall && Block(target, now + cfg.maxBlockMinutes * 60) in schedule
      ensures ok && action == "unblock_ip" ==> target !in firewall && forall b | b in schedule :: b.target != target
    {
      if action !in Executors(cfg.platform) {
        return false;
      }
      ok := done;
      if ok && action == "block_ip" {
        firewall := firewall + {target};
        PutMeans(schedule, target, now + cfg.maxBlockMinutes * 60);
        schedule := Put(schedule, target, now + cfg.maxBlockMinutes * 60);
      }
      if ok && action == "unblock_ip" {
        firewall := firewall - {target};
        PopMeans(schedule, target);
        schedule := Pop(schedule, target);
      }
    }

    /** Each block that is due is unblocked, recorded and forgotten before the
        next one is looked at. */
    method ExpireScheduled(ledger: HashChain.Ledger, now: int, works: string -> bool, said: string -> string)
      requires OnePerTarget(schedule)
      modifies this, ledger
      ensures OnePerTarget(schedule)
      ensures Value() == Expire(old(Value()), cfg, now, works)
      ensures ledger.rows
           == HashChain.Written(ledger.hash, old(ledger.rows), Attempts(cfg, old(schedule), now, works, said), now)
    {
      hide Passed, Expire, OnePerTarget, Pop, Attempts, HashChain.Written, HashChain.NewRow;
      var items := schedule;
      PassEnds(Value(), cfg, now, works);
      AttemptEnds(cfg, items, now, works, said);
      HashChain.WrittenNothing(ledger.hash, ledger.rows, now);
      for i := 0 to |items|
        invariant Value() == Passed(old(Value()), cfg, i, now, works)
        invariant ledger.rows
               == HashChain.Written(ledger.hash, old(ledger.rows), Attempts(cfg, items[..i], now, works, said), now)
      {
        var b := items[i];
        PassStep(old(Value()), cfg, i, now, works);
        AttemptStep(cfg, items, i, now, works, said);
        if b.expiry <= now && "unblock_ip" in Executors(cfg.platform) {
          var ok := works(b.target);
          if ok {
            firewall := firewall - {b.target};
          }
          var entry := HashChain.Entry("unblock_ip", b.target, ok, "auto-expiry: " + said(b.target), "self-expiry");
          ghost var attempts := Attempts(cfg, items[..i], now, works, said);
          HashChain.WrittenOneMore(ledger.hash, old(ledger.rows), attempts, entry, now);
          var rowHash := ledger.Record(entry, now);
          schedule := Pop(schedule, b.target);
        }
      }
      RemainingOnePerTarget(cfg, items, now);
    }
  }

  lemma PassEnds(h: Host, cfg: Config, now: int, works: string -> bool)
    ensures Passed(h, cfg, 0, now, works) == h
    ensures Passed(h, cfg, |h.schedule|, now, works) == Expire(h, cfg, now, works)
    ensures Expire(h, cfg, now, works).schedule == Remaining(cfg, h.schedule, now)
  {
    hide Due;
    assert h.schedule[..|h.schedule|] == h.schedule;
  }

  /** The body of the loop, from one entry to the next. */
  lemma PassStep(h: Host, cfg: Config, i: nat, now: int, works: string -> bool)
    requires i < |h.schedule| && OnePerTarget(h.schedule)
    ensures Passed(h, cfg, i + 1, now, works)
         == Treat(Passed(h, cfg, i, now, works), cfg, h.schedule[i], now, works)
  {
    hide Pop, Remaining, Lifted, Due, OnePerTarget;
    ScheduleStep(cfg, h.schedule, i, now);
  }

  lemma ScheduleStep(cfg: Config, items: seq<Block>, i: nat, now: int)
    requires i < |items| && OnePerTarget(items)
    ensures Remaining(cfg, items[..i + 1], now) + items[i + 1..]
         == if Due(cfg, items[i], now) then Pop(Remaining(cfg, items[..i], now) + items[i..], items[i].target)
            else Remaining(cfg, items[..i], now) + items[i..]
  {
    hide *;
    RemainingStep(cfg, items, i, now);
    OthersRemain(cfg, items, i, now);
    PopAtCut(Remaining(cfg, items[..i], now), items, i);
  }

  lemma OthersRemain(cfg: Config, items: seq<Block>, i: nat, now: int)
    requires i < |items| && OnePerTarget(items)
    ensures forall c | c in Remaining(cfg, items[..i], now) :: c.target != items[i].target
  {
    hide Remaining, Due;
    forall c | c in Remaining(cfg, items[..i], now)
      ensures c.target != items[i].target
    {
    }
  }

  lemma PopAtCut(front: seq<Block>, items: seq<Block>, i: nat)
    requires i < |items| && forall c | c in front :: c.target != items[i].target
    ensures Pop(front + items[i..], items[i].target) == front + items[i + 1..]
    ensures front + [items[i]] + items[i + 1..] == front + items[i..]
  {
    hide Pop;
    assert front + items[i..] == front + [items[i]] + items[i + 1..];
    PopBehind(front, items[i], items[i + 1..]);
  }

  lemma RemainingStep(cfg: Config, items: seq<Block>, i: nat, now: int)
    requires i < |items|
    ensures Remaining(cfg, items[..i + 1], now)
         == Remaining(cfg, items[..i], now) + if Due(cfg, items[i], now) then [] else [items[i]]
  {
    assert items[..i + 1][..i] == items[..i];
  }

  lemma AttemptEnds(cfg: Config, items: seq<Block>, now: int, works: string -> bool, said: string -> string)
    ensures Attempts(cfg, items[..0], now, works, said) == [] && items[..|items|] == items
  {
  }

  lemma AttemptStep(cfg: Config, items: seq<Block>, i: nat, now: int, works: string -> bool,
                    said: string -> string)
    requires i < |items|
    ensures Attempts(cfg, items[..i + 1], now, works, said)
         == if Due(cfg, items[i], now)
            then Attempts(cfg, items[..i], now, works, said) + [ExpiryEntry(items[i].target, works, said)]
            else Attempts(cfg, items[..i], now, works, said)
  {
    hide Due;
    assert items[..i + 1][..i] == items[..i];
  }

  lemma {:induction false} RemainingOnePerTarget(cfg: Config, schedule: seq<Block>, now: int)
    requires OnePerTarget(schedule)
    ensures OnePerTarget(Remaining(cfg, schedule, now))
  {
    if schedule != [] {
      var n := |schedule| - 1;
      RemainingOnePerTarget(cfg, schedule[..n], now);
      var front := Remaining(cfg, schedule[..n], now);
      forall k | 0 <= k < |front|
        ensures front[k].target != schedule[n].target
      {
        assert front[k] in schedule[..n];
      }
    }
  }

  // ── runs of the poll loop ──

  /** An order carried out at some time, or a tick that reached the expiry
      pass. A tick that failed earlier is no event. */
  datatype Event =
    | Ordered(action: string, target: string, done: bool, now: int)
    | Ticked(now: int, works: string -> bool)

  function Next(h: Host, cfg: Config, e: Event): Host {
    match e
    case Ordered(action, target, done, now) => Apply(h, cfg, action, target, done, now)
    case Ticked(now, works) => Expire(h, cfg, now, works)
  }

  function After(cfg: Config, events: seq<Event>): Host {
    if events == [] then Host([], {})
    else Next(After(cfg, events[..|events| - 1]), cfg, events[|events| - 1])
  }

  /** When `target` was last blocked successfully. */
  function LastBlock(cfg: Config, events: seq<Event>, target: string): Option<int> {
    if events == [] then None
    else
      var e := events[|events| - 1];
      if e.Ordered? && e.action == "block_ip" && e.target == target && Works(cfg, e.action, e.done) then Some(e.now)
      else LastBlock(cfg, events[..|events| - 1], target)
  }

  /** Every entry runs out the configured time after its address was last
      blocked. */
  predicate Timed(cfg: Config, events: seq<Event>, h: Host) {
    forall b | b in h.schedule ::
      && LastBlock(cfg, events, b.target).Some?
      && b.expiry == LastBlock(cfg, events, b.target).value + cfg.maxBlockMinutes * 60
  }

  lemma NextTimed(cfg: Config, events: seq<Event>, e: Event, h: Host)
    requires OnePerTarget(h.schedule) && Timed(cfg, events, h)
    ensures OnePerTarget(Next(h, cfg, e).schedule) && Timed(cfg, events + [e], Next(h, cfg, e))
  {
    assert (events + [e])[..|events|] == events;
    match e
    case Ordered(action, target, done, now) =>
      var expiry := now + cfg.maxBlockMinutes * 60;
      PutMeans(h.schedule, target, expiry);
      PopMeans(h.schedule, target);
      hide Put, Pop, OnePerTarget, Expire;
    case Ticked(now, works) =>
      RemainingOnePerTarget(cfg, h.schedule, now);
      hide OnePerTarget, Apply;
  }

  lemma {:induction false} ExpiryFollowsLastBlock(cfg: Config, events: seq<Event>)
    ensures OnePerTarget(After(cfg, events).schedule) && Timed(cfg, events, After(cfg, events))
  {
    if events != [] {
      var n := |events| - 1;
      ExpiryFollowsLastBlock(cfg, events[..n]);
      assert events == events[..n] + [events[n]];
      hide Next, Timed, OnePerTarget;
      NextTimed(cfg, events[..n], events[n], After(cfg, events[..n]));
    }
  }

  lemma InTargets(schedule: seq<Block>, t: string)
    ensures t in Targets(schedule) <==> exists b :: b in schedule && b.target == t
  {
    if t in Targets(schedule) {
      var i :| 0 <= i < |schedule| && schedule[i].target == t;
      assert schedule[i] in schedule;
    }
  }

  /** A scheduled address is blocked, in every run. */
  predicate ScheduledBlocked(h: Host) {
    forall b | b in h.schedule :: b.target in h.firewall
  }

  lemma NextScheduledBlocked(cfg: Config, e: Event, h: Host)
    requires OnePerTarget(h.schedule) && ScheduledBlocked(h)
    ensures ScheduledBlocked(Next(h, cfg, e))
  {
    match e
    case Ordered(action, target, done, now) =>
      PutMeans(h.schedule, target, now + cfg.maxBlockMinutes * 60);
      PopMeans(h.schedule, target);
      hide Put, Pop, OnePerTarget;
    case Ticked(now, works) =>
      forall b | b in Remaining(cfg, h.schedule, now)
        ensures b.target !in Lifted(cfg, h.schedule, now, works)
      {
        var i :| 0 <= i < |h.schedule| && h.schedule[i] == b;
      }
  }

  lemma {:induction false} AllScheduledBlocked(cfg: Config, events: seq<Event>)
    ensures ScheduledBlocked(After(cfg, events))
  {
    if events != [] {
      var n := |events| - 1;
      AllScheduledBlocked(cfg, events[..n]);
      ExpiryFollowsLastBlock(cfg, events[..n]);
      hide Next, ScheduledBlocked, OnePerTarget, Timed;
      NextScheduledBlocked(cfg, events[n], After(cfg, events[..n]));
    }
  }

  /** No unblock the pass attempted has failed. */
  predicate NoneFailed(cfg: Config, h: Host, e: Event) {
    e.Ticked? ==> forall b | b in h.schedule && Due(cfg, b, e.now) :: e.works(b.target)
  }

  /** Blocked addresses and scheduled ones are the same. */
  predicate InStep(h: Host) {
    h.firewall == Targets(h.schedule)
  }

  /** Whatever happens in one event, the firewall stays in step with the
      schedule exactly when no automatic unblock failed. */
  lemma InStepIffNoneFailed(cfg: Config, e: Event, h: Host)
    requires OnePerTarget(h.schedule) && InStep(h)
    ensures InStep(Next(h, cfg, e)) <==> NoneFailed(cfg, h, e)
  {
    match e
    case Ordered(action, target, done, now) =>
      OrderInStep(cfg, h, action, target, done, now);
    case Ticked(now, works) =>
      TickInStep(cfg, h, now, works);
  }

  lemma OrderInStep(cfg: Config, h: Host, action: string, target: string, done: bool, now: int)
    requires OnePerTarget(h.schedule) && InStep(h)
    ensures InStep(Apply(h, cfg, action, target, done, now))
  {
    PutMeans(h.schedule, target, now + cfg.maxBlockMinutes * 60);
    PopMeans(h.schedule, target);
    hide Put, Pop, OnePerTarget, Targets;
    var after := Apply(h, cfg, action, target, done, now);
    forall t
      ensures t in Targets(after.schedule) <==> t in after.firewall
    {
      InTargets(h.schedule, t);
      InTargets(after.schedule, t);
      if t == target {
        assert Block(t, now + cfg.maxBlockMinutes * 60).target == t;
      }
    }
  }

  lemma TickInStep(cfg: Config, h: Host, now: int, works: string -> bool)
    requires OnePerTarget(h.schedule) && InStep(h)
    ensures InStep(Expire(h, cfg, now, works)) <==> NoneFailed(cfg, h, Ticked(now, works))
  {
    var after := Expire(h, cfg, now, works);
    forall i | 0 <= i < |h.schedule|
      ensures var b := h.schedule[i];
              && (b.target in Targets(after.schedule) <==> !Due(cfg, b, now))
              && (b.target in after.firewall <==> !(Due(cfg, b, now) && works(b.target)))
    {
      OneTarget(cfg, h, now, works, i);
    }
    hide Due, OnePerTarget, Remaining, Lifted;
    forall t
      ensures t in Targets(after.schedule) || t in after.firewall ==> t in Targets(h.schedule)
    {
      InTargets(h.schedule, t);
      InTargets(after.schedule, t);
    }
    if NoneFailed(cfg, h, Ticked(now, works)) {
      assert forall i | 0 <= i < |h.schedule| :: h.schedule[i] in h.schedule;
      assert forall t :: t in Targets(after.schedule) <==> t in after.firewall;
    } else {
      var b :| b in h.schedule && Due(cfg, b, now) && !works(b.target);
      var i :| 0 <= i < |h.schedule| && h.schedule[i] == b;
      assert b.target in after.firewall && b.target !in Targets(after.schedule);
    }
  }

  lemma OneTarget(cfg: Config, h: Host, now: int, works: string -> bool, i: nat)
    requires OnePerTarget(h.schedule) && InStep(h) && i < |h.schedule|
    ensures var after, b := Expire(h, cfg, now, works), h.schedule[i];
            && (b.target in Targets(after.schedule) <==> !Due(cfg, b, now))
            && (b.target in after.firewall <==> !(Due(cfg, b, now) && works(b.target)))
  {
    var after, b := Expire(h, cfg, now, works), h.schedule[i];
    InTargets(after.schedule, b.target);
    assert b in h.schedule;
    assert forall j | 0 <= j < |h.schedule| && h.schedule[j].target == b.target :: j == i;
    if b.target in Targets(after.schedule) {
      var c :| c in after.schedule && c.target == b.target;
      var j :| 0 <= j < |h.schedule| && h.schedule[j] == c;
    }
  }

  /** No automatic unblock failed in the whole run. */
  predicate AllUnblocksWorked(cfg: Config, events: seq<Event>) {
    forall n | 0 <= n < |events| :: NoneFailed(cfg, After(cfg, events[..n]), events[n])
  }

  lemma {:induction false} InStepWhileUnblocksWork(cfg: Config, events: seq<Event>)
    requires AllUnblocksWorked(cfg, events)
    ensures InStep(After(cfg, events))
  {
    if events != [] {
      var n := |events| - 1;
      hide Next, NoneFailed, InStep, OnePerTarget, Timed;
      assert forall k | 0 <= k < n :: events[..n][..k] == events[..k];
      InStepWhileUnblocksWork(cfg, events[..n]);
      ExpiryFollowsLastBlock(cfg, events[..n]);
      InStepIffNoneFailed(cfg, events[n], After(cfg, events[..n]));
    }
  }

  /** After a tick, while unblocks have worked: the blocked addresses are those
      scheduled, and each was last blocked less than the configured time ago. */
  lemma BlockedOnlyRecently(cfg: Config, events: seq<Event>, now: int, works: string -> bool)
    requires AllUnblocksWorked(cfg, events + [Ticked(now, works)])
    ensures var run := events + [Ticked(now, works)];
            var h := After(cfg, run);
            && h.firewall == Targets(h.schedule)
            && (forall b | b in h.schedule :: b.expiry > now)
            && (forall t | t in h.firewall ::
                  LastBlock(cfg, run, t).Some? && now < LastBlock(cfg, run, t).value + cfg.maxBlockMinutes * 60)
  {
    var run := events + [Ticked(now, works)];
    var h := After(cfg, run);
    InStepWhileUnblocksWork(cfg, run);
    ExpiryFollowsLastBlock(cfg, run);
    OnlyBlockersSchedule(cfg, events);
    assert run[..|events|] == events;
    forall t | t in h.firewall
      ensures exists b :: b in h.schedule && b.target == t
    {
      InTargets(h.schedule, t);
    }
    hide LastBlock, OnePerTarget, AllUnblocksWorked;
  }

  /** A platform without executors never schedules anything. */
  lemma {:induction false} OnlyBlockersSchedule(cfg: Config, events: seq<Event>)
    ensures "unblock_ip" !in Executors(cfg.platform) ==> After(cfg, events).schedule == []
  {
    if events != [] {
      OnlyBlockersSchedule(cfg, events[..|events| - 1]);
    }
  }

  /** An address whose automatic unblock failed is forgotten, not retried: it
      stays blocked, and off the schedule, until an order names it. */
  lemma {:induction false} StrandedUntilOrdered(cfg: Config, events: seq<Event>, more: seq<Event>, t: string)
    requires t in After(cfg, events).firewall && t !in Targets(After(cfg, events).schedule)
    requires forall e | e in more && e.Ordered? :: e.target != t
    ensures t in After(cfg, events + more).firewall && t !in Targets(After(cfg, events + more).schedule)
  {
    hide Next, Targets, LastBlock, OnePerTarget;
    if more == [] {
      assert events + more == events;
    } else {
      var n := |more| - 1;
      assert more == more[..n] + [more[n]];
      StrandedUntilOrdered(cfg, events, more[..n], t);
      var all := events + more;
      assert all[..|all| - 1] == events + more[..n] && all[|all| - 1] == more[n];
      ExpiryFollowsLastBlock(cfg, events + more[..n]);
      StrandedStep(cfg, After(cfg, events + more[..n]), more[n], t);
    }
  }

  lemma StrandedStep(cfg: Config, h: Host, e: Event, t: string)
    requires OnePerTarget(h.schedule) && t in h.firewall && t !in Targets(h.schedule)
    requires e.Ordered? ==> e.target != t
    ensures t in Next(h, cfg, e).firewall && t !in Targets(Next(h, cfg, e).schedule)
  {
    InTargets(h.schedule, t);
    InTargets(Next(h, cfg, e).schedule, t);
    match e
    case Ordered(action, target, done, now) =>
      PutMeans(h.schedule, target, now + cfg.maxBlockMinutes * 60);
      PopMeans(h.schedule, target);
      hide Put, Pop, OnePerTarget, Targets;
    case Ticked(now, works) =>
      hide OnePerTarget;
  }
}
