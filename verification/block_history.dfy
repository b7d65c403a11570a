/** The host's firewall and schedule told from the history of events alone: what
    is blocked is what was blocked last, and what is scheduled is what nothing
    has settled since. */
module BlockHistory {
  import opened PyText
  import opened FailSafe
  import HashChain

  // ── one order ──

  /** The verbs a platform's agent carries out. */
  predicate Supports(cfg: Config, action: string) {
    match cfg.platform
    case Linux => action in ["block_ip", "unblock_ip", "disable_user", "enable_user"]
    case Windows => action in ["block_ip", "unblock_ip", "disable_user", "enable_user"]
    case Darwin => action in ["block_ip", "unblock_ip"]
    case Other => false
  }

  /** A successful block leaves its address blocked and scheduled the configured
      time ahead, a successful unblock neither; no other address is touched,
      and nothing else touches any. */
  lemma OrderExact(h: Host, cfg: Config, action: string, target: string, done: bool, now: int, b: Block)
    requires OnePerTarget(h.schedule)
    ensures var after, ok := Apply(h, cfg, action, target, done, now), Supports(cfg, action) && done;
            && (ok && action == "block_ip" && b.target == target ==>
                  && target in after.firewall
                  && (b in after.schedule <==> b.expiry == now + cfg.maxBlockMinutes * 60))
            && (ok && action == "unblock_ip" && b.target == target ==>
                  target !in after.firewall && b !in after.schedule)
            && (!ok || b.target != target || (action != "block_ip" && action != "unblock_ip") ==>
                  && (b.target in after.firewall <==> b.target in h.firewall)
                  && (b in after.schedule <==> b in h.schedule))
  {
    PutMeans(h.schedule, target, now + cfg.maxBlockMinutes * 60);
    PopMeans(h.schedule, target);
    hide Put, Pop, OnePerTarget;
  }

  // ── runs ──

  predicate Blocks(cfg: Config, e: Event, t: string) {
    e.Ordered? && e.action == "block_ip" && e.target == t && Supports(cfg, e.action) && e.done
  }

  predicate Unblocks(cfg: Config, e: Event, t: string) {
    e.Ordered? && e.action == "unblock_ip" && e.target == t && Supports(cfg, e.action) && e.done
  }

  /** Event `j` blocked the address until `Until(j)`. */
  function Until(cfg: Config, events: seq<Event>, j: nat): int
    requires j < |events| && events[j].Ordered?
  {
    events[j].now + cfg.maxBlockMinutes * 60
  }

  /** An expiry pass that finds the block of event `j` run out. */
  predicate RunsOut(cfg: Config, events: seq<Event>, j: nat, k: nat)
    requires j < |events| && k < |events| && events[j].Ordered?
  {
    events[k].Ticked? && Supports(cfg, "unblock_ip") && Until(cfg, events, j) <= events[k].now
  }

  /** Event `j` blocked the address, and up to event `n` no order for it
      succeeded and no pass found the block run out. */
  predicate Unsettled(cfg: Config, events: seq<Event>, t: string, j: nat, n: nat)
    requires n <= |events|
  {
    && j < n && Blocks(cfg, events[j], t)
    && forall k | j < k < n :: !Blocks(cfg, events[k], t) && !Unblocks(cfg, events[k], t) && !RunsOut(cfg, events, j, k)
  }

  /** An expiry pass lifts the block that has run out at event `k`, if its
      unblock works. */
  predicate Lifts(cfg: Config, events: seq<Event>, t: string, k: nat)
    requires k < |events|
  {
    && events[k].Ticked? && events[k].works(t)
    && exists j: nat | j < k :: Unsettled(cfg, events, t, j, k) && RunsOut(cfg, events, j, k)
  }

  /** Event `i` blocked the address, and no order and no expiry pass has
      unblocked it since. */
  predicate StillBlocked(cfg: Config, events: seq<Event>, t: string, i: nat, n: nat)
    requires n <= |events|
  {
    && i < n && Blocks(cfg, events[i], t)
    && forall k | i < k < n :: !Unblocks(cfg, events[k], t) && !Lifts(cfg, events, t, k)
  }

  predicate Blocked(cfg: Config, events: seq<Event>, t: string, n: nat)
    requires n <= |events|
  {
    exists i: nat | i < n :: StillBlocked(cfg, events, t, i, n)
  }

  predicate Scheduled(cfg: Config, events: seq<Event>, b: Block, n: nat)
    requires n <= |events|
  {
    exists j: nat | j < n :: Unsettled(cfg, events, b.target, j, n) && b.expiry == Until(cfg, events, j)
  }

  /** In every run the schedule holds exactly the blocks that nothing has
      settled. */
  lemma {:induction false} ScheduledIff(cfg: Config, events: seq<Event>, b: Block, n: nat)
    requires n <= |events|
    ensures b in After(cfg, events[..n]).schedule <==> Scheduled(cfg, events, b, n)
  {
    if n > 0 {
      var h, e := After(cfg, events[..n - 1]), events[n - 1];
      assert events[..n][..n - 1] == events[..n - 1];
      ScheduledIff(cfg, events, b, n - 1);
      ExpiryFollowsLastBlock(cfg, events[..n - 1]);
      hide After, Timed;
      match e
      case Ordered(action, target, done, now) =>
        OrderExact(h, cfg, action, target, done, now, b);
        hide Apply;
        OrderSchedules(cfg, events, b, n);
      case Ticked(now, works) =>
        TickSchedules(cfg, events, b, n);
    }
  }

  lemma UnsettledStep(cfg: Config, events: seq<Event>, t: string, j: nat, n: nat)
    requires j + 1 < n <= |events|
    ensures Unsettled(cfg, events, t, j, n) <==>
            && Unsettled(cfg, events, t, j, n - 1) && !Blocks(cfg, events[n - 1], t)
            && !Unblocks(cfg, events[n - 1], t) && !RunsOut(cfg, events, j, n - 1)
  {
    hide Supports, Until, RunsOut;
  }

  /** How an order changes what is scheduled. */
  lemma OrderSchedules(cfg: Config, events: seq<Event>, b: Block, n: nat)
    requires 0 < n <= |events| && events[n - 1].Ordered?
    ensures var e := events[n - 1];
            Scheduled(cfg, events, b, n) <==>
            if Blocks(cfg, e, b.target) then b.expiry == Until(cfg, events, n - 1)
            else !Unblocks(cfg, e, b.target) && Scheduled(cfg, events, b, n - 1)
  {
    forall j: nat | j < n - 1
      ensures Unsettled(cfg, events, b.target, j, n) <==>
              && Unsettled(cfg, events, b.target, j, n - 1) && !Blocks(cfg, events[n - 1], b.target)
              && !Unblocks(cfg, events[n - 1], b.target)
    {
      UnsettledStep(cfg, events, b.target, j, n);
    }
    hide Supports, Until;
    if Blocks(cfg, events[n - 1], b.target) {
      assert Unsettled(cfg, events, b.target, n - 1, n);
    }
    hide Unsettled;
  }

  lemma TickSchedules(cfg: Config, events: seq<Event>, b: Block, n: nat)
    requires 0 < n <= |events| && events[n - 1].Ticked?
    ensures Scheduled(cfg, events, b, n) <==>
            Scheduled(cfg, events, b, n - 1) && !(Supports(cfg, "unblock_ip") && b.expiry <= events[n - 1].now)
  {
    forall j: nat | j < n - 1 && events[j].Ordered?
      ensures Unsettled(cfg, events, b.target, j, n) <==>
              Unsettled(cfg, events, b.target, j, n - 1) && !RunsOut(cfg, events, j, n - 1)
    {
      UnsettledStep(cfg, events, b.target, j, n);
    }
    assert !Unsettled(cfg, events, b.target, n - 1, n);
    assert forall j: nat, m: nat | j < m <= |events| && Unsettled(cfg, events, b.target, j, m) :: events[j].Ordered?;
    hide Supports, Until, Unsettled;
  }

  /** What an expiry pass lifts. */
  lemma LiftedIff(cfg: Config, events: seq<Event>, t: string, k: nat)
    requires k < |events| && events[k].Ticked?
    ensures t in Lifted(cfg, After(cfg, events[..k]).schedule, events[k].now, events[k].works) <==>
            Lifts(cfg, events, t, k)
  {
    var schedule, now := After(cfg, events[..k]).schedule, events[k].now;
    hide After, Unsettled;
    if t in Lifted(cfg, schedule, now, events[k].works) {
      var i :| 0 <= i < |schedule| && schedule[i].target == t && Due(cfg, schedule[i], now);
      ScheduledIff(cfg, events, schedule[i], k);
    }
    if Lifts(cfg, events, t, k) {
      var j: nat :| j < k && Unsettled(cfg, events, t, j, k) && RunsOut(cfg, events, j, k);
      var b := Block(t, Until(cfg, events, j));
      ScheduledIff(cfg, events, b, k);
      var i :| 0 <= i < |schedule| && schedule[i] == b;
    }
  }

  lemma StillOne(cfg: Config, events: seq<Event>, t: string, i: nat, n: nat)
    requires i + 1 < n <= |events|
    ensures StillBlocked(cfg, events, t, i, n) <==>
            && StillBlocked(cfg, events, t, i, n - 1) && !Unblocks(cfg, events[n - 1], t)
            && !Lifts(cfg, events, t, n - 1)
  {
    hide Supports, Lifts;
  }

  lemma StillStep(cfg: Config, events: seq<Event>, t: string, n: nat)
    requires 0 < n <= |events|
    ensures var e := events[n - 1];
            Blocked(cfg, events, t, n) <==>
            Blocks(cfg, e, t)
            || (Blocked(cfg, events, t, n - 1) && !Unblocks(cfg, e, t) && !Lifts(cfg, events, t, n - 1))
  {
    var m := n - 1;
    assert StillBlocked(cfg, events, t, m, n) <==> Blocks(cfg, events[m], t);
    hide Supports, Lifts, StillBlocked;
    if Blocked(cfg, events, t, n) && !Blocks(cfg, events[m], t) {
      var i: nat :| i < n && StillBlocked(cfg, events, t, i, n);
      StillOne(cfg, events, t, i, n);
    }
    if Blocked(cfg, events, t, m) && !Blocks(cfg, events[m], t) {
      var i: nat :| i < m && StillBlocked(cfg, events, t, i, m);
      StillOne(cfg, events, t, i, n);
    }
  }

  /** In every run an address is blocked if and only if the last successful block
      of it is later than the last successful unblock, ordered or automatic. */
  lemma {:induction false} BlockedIff(cfg: Config, events: seq<Event>, t: string, n: nat)
    requires n <= |events|
    ensures t in After(cfg, events[..n]).firewall <==> Blocked(cfg, events, t, n)
  {
    if n > 0 {
      var h, e := After(cfg, events[..n - 1]), events[n - 1];
      assert events[..n][..n - 1] == events[..n - 1];
      BlockedIff(cfg, events, t, n - 1);
      ExpiryFollowsLastBlock(cfg, events[..n - 1]);
      StillStep(cfg, events, t, n);
      hide After, Timed, Blocked, Lifts;
      match e
      case Ordered(action, target, done, now) =>
        OrderExact(h, cfg, action, target, done, now, Block(t, 0));
        hide Apply;
      case Ticked(now, works) =>
        LiftedIff(cfg, events, t, n - 1);
    }
  }

  /** What an expiry pass writes: one entry for each block that has run out,
      saying whether its unblock worked and what the host answered. */
  lemma {:induction false} AttemptsExact(cfg: Config, schedule: seq<Block>, now: int, works: string -> bool,
                                         said: string -> string, entry: HashChain.Entry)
    ensures entry in Attempts(cfg, schedule, now, works, said) <==>
            Supports(cfg, "unblock_ip") && exists b | b in schedule :: b.expiry <= now && Tells(entry, b, works, said)
  {
    if schedule != [] {
      var n := |schedule| - 1;
      AttemptsExact(cfg, schedule[..n], now, works, said, entry);
      assert schedule == schedule[..n] + [schedule[n]];
    }
  }

  predicate Tells(entry: HashChain.Entry, b: Block, works: string -> bool, said: string -> string) {
    && entry.action == "unblock_ip" && entry.target == b.target && entry.success == works(b.target)
    && entry.output == "auto-expiry: " + said(b.target) && entry.signature == "self-expiry"
  }
}
