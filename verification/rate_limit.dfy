/** The token-bucket rate limiter in its two implementations: buckets held in
    this process, and a script over two expiring keys of a shared store.

    Times are seconds, tokens and times are reals, and the clock is an
    argument. Both stores are fed the same clock. */
module RateLimit {
  import opened PyText

  datatype Limits = Limits(ratePerMinute: int, burst: int) {
    function RefillPerSecond(): real {
      ratePerMinute as real / 60.0
    }

    /** Tokens that flow in during `seconds`. */
    function Flow(seconds: real): real {
      seconds * RefillPerSecond()
    }

    /** Seconds until `needed` tokens have flowed in; None at a rate of zero,
        where Python's division raises and Lua's yields infinity. */
    function TimeFor(needed: real): Option<real> {
      if RefillPerSecond() == 0.0 then None else Some(needed / RefillPerSecond())
    }

    predicate Refills() {
      ratePerMinute >= 1
    }

    /** At least one token, refilled at all. */
    predicate Sensible() {
      Refills() && burst >= 1
    }
  }

  datatype Bucket = Bucket(tokens: real, lastRefill: real)

  function Min(a: real, b: real): real {
    if a <= b then a else b
  }

  function Max(a: real, b: real): real {
    if a <= b then b else a
  }

  /** Rounding towards zero. */
  function Truncate(x: real): int {
    if x >= 0.0 then x.Floor else -((-x).Floor)
  }

  /** What a limiter answers: a wait, an endless one, or an exception. */
  datatype Wait = Seconds(value: real) | Endless | Raised

  // ── buckets in this process ──

  /** What one call does to its bucket, and the wait it answers: zero when
      granted. */
  function Consume(limits: Limits, bucket: Option<Bucket>, now: real): (Bucket, Wait) {
    match bucket
    case None => (Bucket((limits.burst - 1) as real, now), Seconds(0.0))
    case Some(b) =>
      var tokens := Min(limits.burst as real, b.tokens + limits.Flow(now - b.lastRefill));
      if tokens >= 1.0 then (Bucket(tokens - 1.0, now), Seconds(0.0))
      else (Bucket(tokens, now), OrRaised(limits.TimeFor(1.0 - tokens)))
  }

  function OrRaised(time: Option<real>): Wait {
    match time
    case None => Raised
    case Some(t) => Seconds(t)
  }

  function OrEndless(time: Option<real>): Wait {
    match time
    case None => Endless
    case Some(t) => Seconds(t)
  }

  function Lookup<V>(m: map<string, V>, key: string): Option<V> {
    if key in m then Some(m[key]) else None
  }

  /** A caller of the in-process limiter is refused when there is a positive
      wait; an error lets the call through. */
  predicate Refused(wait: Wait) {
    wait.Seconds? && wait.value > 0.0
  }

  class RateLimiter {
    const limits: Limits
    var buckets: map<string, Bucket>

    constructor (limits: Limits)
      ensures this.limits == limits && buckets == map[]
    {
      this.limits := limits;
      buckets := map[];
    }

    method ConsumeOne(identity: string, now: real) returns (wait: Wait)
      modifies this
      ensures var (b, w) := Consume(limits, Lookup(old(buckets), identity), now);
              wait == w && buckets == old(buckets)[identity := b]
    {
      var refillPerSecond := limits.ratePerMinute as real / 60.0;
      if identity !in buckets {
        buckets := buckets[identity := Bucket((limits.burst - 1) as real, now)];
        return Seconds(0.0);
      }
      var bucket := buckets[identity];
      var elapsed := now - bucket.lastRefill;
      assert elapsed * refillPerSecond == limits.Flow(elapsed);
      bucket := bucket.(tokens := Min(limits.burst as real, bucket.tokens + elapsed * refillPerSecond));
      bucket := bucket.(lastRefill := now);
      buckets := buckets[identity := bucket];
      if bucket.tokens >= 1.0 {
        buckets := buckets[identity := bucket.(tokens := bucket.tokens - 1.0)];
        assert buckets == old(buckets)[identity := Consume(limits, Lookup(old(buckets), identity), now).0];
        return Seconds(0.0);
      }
      var needed := 1.0 - bucket.tokens;
      wait := if refillPerSecond == 0.0 then Raised else Seconds(needed / refillPerSecond);
    }

    /** The Retry-After header of the 429, or None when the call passes. */
    method Check(identity: string, now: real) returns (retryAfter: Option<int>)
      modifies this
      ensures var (b, w) := Consume(limits, Lookup(old(buckets), identity), now);
              && buckets == old(buckets)[identity := b]
              && (retryAfter.Some? <==> Refused(w))
              && (retryAfter.Some? ==> w.value < retryAfter.value as real <= w.value + 1.0)
    {
      var wait := ConsumeOne(identity, now);
      if wait.Seconds? && wait.value > 0.0 {
        retryAfter := Some(Truncate(wait.value) + 1);
      } else {
        retryAfter := None;
      }
    }
  }

  // ── the shared store ──

  /** A key's value and the instant at which the store drops it. */
  datatype Cell = Cell(value: real, expiresAt: real)

  function Read(cell: Option<Cell>, now: real): Option<real> {
    match cell
    case None => None
    case Some(c) => if now < c.expiresAt then Some(c.value) else None
  }

  function Ttl(limits: Limits): int {
    var t := Truncate(limits.burst as real / Max(limits.RefillPerSecond(), 0.000001)) * 2;
    if t > 60 then t else 60
  }

  /** The two keys of one identity. */
  datatype Keys = Keys(tokens: Option<Cell>, stamp: Option<Cell>)

  /** The Lua script, run atomically by the store. */
  function Script(limits: Limits, keys: Keys, now: real): (Keys, Wait) {
    var burst, ttl := limits.burst as real, Ttl(limits) as real;
    var stored, stamp := Read(keys.tokens, now), Read(keys.stamp, now);
    var tokens := if stored.None? then burst else stored.value;
    var last := if stamp.None? then now else stamp.value;
    var refilled := Min(burst, tokens + limits.Flow(Max(0.0, now - last)));
    var left := if refilled >= 1.0 then refilled - 1.0 else refilled;
    var wait := if refilled >= 1.0 then Seconds(0.0) else OrEndless(limits.TimeFor(1.0 - refilled));
    (Keys(Some(Cell(left, now + ttl)), Some(Cell(now, now + ttl))), wait)
  }

  class SharedStore {
    var tokens: map<string, Cell>
    var stamps: map<string, Cell>

    constructor ()
      ensures tokens == map[] && stamps == map[]
    {
      tokens, stamps := map[], map[];
    }

    function KeysOf(identity: string): Keys
      reads this
    {
      Keys(Lookup(tokens, identity), Lookup(stamps, identity))
    }

    method RefillAndConsume(limits: Limits, identity: string, now: real) returns (wait: Wait)
      modifies this
      ensures var (k, w) := Script(limits, old(KeysOf(identity)), now);
              wait == w && KeysOf(identity) == k
      ensures forall other | other != identity :: KeysOf(other) == old(KeysOf(other))
    {
      hide Limits.RefillPerSecond, Ttl, Read;
      var rate := limits.RefillPerSecond();
      var burst := limits.burst as real;
      var ttl := Ttl(limits) as real;
      var stored := Read(Lookup(tokens, identity), now);
      var last := Read(Lookup(stamps, identity), now);
      var count := if stored == None then burst else stored.value;
      var from := if last == None then now else last.value;
      var elapsed := Max(0.0, now - from);
      assert limits.Flow(elapsed) == elapsed * rate;
      count := Min(burst, count + elapsed * rate);
      hide Limits.Flow, Max, Min;
      if count >= 1.0 {
        count := count - 1.0;
        wait := Seconds(0.0);
      } else {
        wait := if rate == 0.0 then Endless else Seconds((1.0 - count) / rate);
        assert wait == OrEndless(limits.TimeFor(1.0 - count));
      }
      hide Limits.TimeFor, OrEndless;
      assert Script(limits, KeysOf(identity), now)
          == (Keys(Some(Cell(count, now + ttl)), Some(Cell(now, now + ttl))), wait);
      hide Script;
      tokens := tokens[identity := Cell(count, now + ttl)];
      stamps := stamps[identity := Cell(now, now + ttl)];
    }

    /** A check against the store. An unreachable store lets the call pass; an
        endless wait has no whole number of seconds, and asking for it raises. */
    method Check(limits: Limits, identity: string, now: real, reachable: bool) returns (verdict: Verdict)
      modifies this
      ensures !reachable ==> verdict == Pass && forall id :: KeysOf(id) == old(KeysOf(id))
      ensures reachable ==>
                && KeysOf(identity) == Script(limits, old(KeysOf(identity)), now).0
                && (forall other | other != identity :: KeysOf(other) == old(KeysOf(other)))
                && Answers(verdict, Script(limits, old(KeysOf(identity)), now).1)
    {
      if !reachable {
        return Pass;
      }
      hide Script;
      var wait := RefillAndConsume(limits, identity, now);
      match wait
      case Seconds(w) => verdict := if w > 0.0 then TryAgainIn(Truncate(w) + 1) else Pass;
      case _ => verdict := Failure;
    }
  }

  datatype Verdict = Pass | TryAgainIn(seconds: int) | Failure

  /** What a caller of the store is told of a wait. */
  predicate Answers(verdict: Verdict, wait: Wait) {
    match wait
    case Seconds(w) =>
      if w > 0.0 then verdict.TryAgainIn? && w < verdict.seconds as real <= w + 1.0 else verdict == Pass
    case _ => verdict == Failure
  }

  // ── runs ──

  datatype Call = Call(identity: string, now: real)

  predicate NonDecreasing(calls: seq<Call>) {
    forall i, j | 0 <= i < j < |calls| :: calls[i].now <= calls[j].now
  }

  function Buckets(limits: Limits, calls: seq<Call>): map<string, Bucket> {
    if calls == [] then map[]
    else
      var before, c := Buckets(limits, calls[..|calls| - 1]), calls[|calls| - 1];
      before[c.identity := Consume(limits, Lookup(before, c.identity), c.now).0]
  }

  /** The wait the in-process limiter answers to call `i` of a run. */
  function LocalWait(limits: Limits, calls: seq<Call>, i: nat): Wait
    requires i < |calls|
  {
    Consume(limits, Lookup(Buckets(limits, calls[..i]), calls[i].identity), calls[i].now).1
  }

  function Stored(limits: Limits, calls: seq<Call>): map<string, Keys> {
    if calls == [] then map[]
    else
      var before, c := Stored(limits, calls[..|calls| - 1]), calls[|calls| - 1];
      before[c.identity := Script(limits, KeysIn(before, c.identity), c.now).0]
  }

  function KeysIn(store: map<string, Keys>, identity: string): Keys {
    if identity in store then store[identity] else Keys(None, None)
  }

  /** The wait the shared store answers to call `i` of a run. */
  function SharedWait(limits: Limits, calls: seq<Call>, i: nat): Wait
    requires i < |calls|
  {
    Script(limits, KeysIn(Stored(limits, calls[..i]), calls[i].identity), calls[i].now).1
  }

  // ── the two implementations agree ──

  // Arithmetic of the flow, the only place where products are reasoned about.

  lemma FlowAdds(limits: Limits, a: real, b: real)
    ensures limits.Flow(a + b) == limits.Flow(a) + limits.Flow(b)
  {
  }

  lemma FlowSign(limits: Limits, a: real)
    requires limits.Refills()
    ensures a > 0.0 ==> limits.Flow(a) > 0.0
    ensures a == 0.0 ==> limits.Flow(a) == 0.0
    ensures a < 0.0 ==> limits.Flow(a) < 0.0
  {
  }

  lemma TimeForFlows(limits: Limits, needed: real)
    requires limits.Refills() && needed > 0.0
    ensures limits.TimeFor(needed).Some?
    ensures limits.TimeFor(needed).value > 0.0
    ensures limits.Flow(limits.TimeFor(needed).value) == needed
  {
    var rate := limits.RefillPerSecond();
    assert rate >= 1.0 / 60.0;
    var q := needed / rate;
    assert q * rate == needed;
  }

  /** A key the store may have dropped would have refilled completely. */
  lemma TtlCoversRefill(limits: Limits)
    requires limits.Sensible()
    ensures limits.Flow(Ttl(limits) as real) >= limits.burst as real
  {
    var rate := limits.RefillPerSecond();
    assert rate >= 1.0 / 60.0;
    var full := limits.burst as real / rate;
    assert Max(rate, 0.000001) == rate;
    assert full * rate == limits.burst as real;
    assert (Truncate(full) * 2) as real >= full || full < 1.0;
    var ttl := Ttl(limits) as real;
    assert ttl >= full;
    FlowAdds(limits, ttl - full, full);
    FlowSign(limits, ttl - full);
    assert ttl - full + full == ttl;
  }

  /** The store's keys hold what the bucket holds. */
  predicate Mirrors(limits: Limits, bucket: Option<Bucket>, keys: Keys) {
    match bucket
    case None => keys == Keys(None, None)
    case Some(b) =>
      var expiry := b.lastRefill + Ttl(limits) as real;
      && 0.0 <= b.tokens <= limits.burst as real
      && keys == Keys(Some(Cell(b.tokens, expiry)), Some(Cell(b.lastRefill, expiry)))
  }

  lemma SameStep(limits: Limits, bucket: Option<Bucket>, keys: Keys, now: real)
    requires limits.Sensible() && Mirrors(limits, bucket, keys)
    requires bucket.Some? ==> bucket.value.lastRefill <= now
    ensures var (b, w) := Consume(limits, bucket, now);
            var (k, v) := Script(limits, keys, now);
            w == v && Mirrors(limits, Some(b), k)
  {
    FlowSign(limits, 0.0);
    TtlCoversRefill(limits);
    if bucket.Some? {
      var elapsed, ttl := now - bucket.value.lastRefill, Ttl(limits) as real;
      FlowSign(limits, elapsed);
      FlowAdds(limits, elapsed - ttl, ttl);
      FlowSign(limits, elapsed - ttl);
      assert elapsed - ttl + ttl == elapsed;
    }
    hide Limits.Flow, Limits.TimeFor, Ttl;
  }

  lemma {:induction false} StatesMirror(limits: Limits, calls: seq<Call>, identity: string)
    requires limits.Sensible() && NonDecreasing(calls)
    ensures var bucket := Lookup(Buckets(limits, calls), identity);
            && Mirrors(limits, bucket, KeysIn(Stored(limits, calls), identity))
            && (bucket.Some? ==> calls != [] && bucket.value.lastRefill <= calls[|calls| - 1].now)
  {
    if calls != [] {
      var before, c := calls[..|calls| - 1], calls[|calls| - 1];
      StatesMirror(limits, before, identity);
      if identity == c.identity {
        var bucket := Lookup(Buckets(limits, before), identity);
        SameStep(limits, bucket, KeysIn(Stored(limits, before), identity), c.now);
      }
      hide Limits.Flow, Limits.TimeFor, Ttl, Mirrors, Script;
    }
  }

  /** On every run with a clock that does not go back, for every set of
      identities, both limiters answer every call with the same wait. */
  lemma SameAnswers(limits: Limits, calls: seq<Call>, i: nat)
    requires limits.Sensible() && NonDecreasing(calls) && i < |calls|
    ensures LocalWait(limits, calls, i) == SharedWait(limits, calls, i)
  {
    var before, id := calls[..i], calls[i].identity;
    StatesMirror(limits, before, id);
    SameStep(limits, Lookup(Buckets(limits, before), id), KeysIn(Stored(limits, before), id), calls[i].now);
  }

  /** Without a token to start with they part on the very first call: the
      in-process limiter grants it whatever the burst is. */
  lemma FirstCallAgreesIff(limits: Limits, identity: string, now: real)
    ensures var run := [Call(identity, now)];
            LocalWait(limits, run, 0) == SharedWait(limits, run, 0) <==> limits.burst >= 1
  {
    var run := [Call(identity, now)];
    assert run[..0] == [];
    var rate := limits.RefillPerSecond();
    var needed := 1.0 - limits.burst as real;
    assert limits.Flow(0.0) == 0.0;
    if limits.burst < 1 && rate != 0.0 {
      assert needed / rate * rate == needed;
      assert SharedWait(limits, run, 0) == Seconds(needed / rate);
    }
  }

  // ── the bound on grants ──

  /** The tokens one identity could draw on at time `t`. */
  function Level(limits: Limits, bucket: Option<Bucket>, t: real): real {
    match bucket
    case None => limits.burst as real
    case Some(b) => Min(limits.burst as real, b.tokens + limits.Flow(t - b.lastRefill))
  }

  function BucketAfter(limits: Limits, calls: seq<Call>, identity: string): Option<Bucket> {
    Lookup(Buckets(limits, calls), identity)
  }

  /** How many of calls `i` to `j - 1` were granted to `identity`. */
  function Grants(limits: Limits, calls: seq<Call>, identity: string, i: nat, j: nat): nat
    requires i <= j <= |calls|
  {
    if i == j then 0
    else
      Grants(limits, calls, identity, i, j - 1)
      + if calls[j - 1].identity == identity && !Refused(LocalWait(limits, calls, j - 1)) then 1 else 0
  }

  /** The bucket after one more call. */
  lemma BucketStep(limits: Limits, calls: seq<Call>, identity: string, k: nat)
    requires k < |calls|
    ensures BucketAfter(limits, calls[..k + 1], identity)
         == if calls[k].identity == identity
            then Some(Consume(limits, BucketAfter(limits, calls[..k], identity), calls[k].now).0)
            else BucketAfter(limits, calls[..k], identity)
  {
    assert calls[..k + 1][..k] == calls[..k];
    hide Consume;
  }

  /** A call spends one token if granted, none if refused. */
  lemma StepSpendsLevel(limits: Limits, bucket: Option<Bucket>, now: real)
    requires limits.Refills()
    requires bucket.Some? ==> bucket.value.lastRefill <= now
    ensures var (b, w) := Consume(limits, bucket, now);
            && (limits.burst >= 1 && (bucket.Some? ==> 0.0 <= bucket.value.tokens) ==> 0.0 <= b.tokens)
            && Level(limits, Some(b), now) == Level(limits, bucket, now) - if Refused(w) then 0.0 else 1.0
  {
    FlowSign(limits, 0.0);
    if bucket.Some? {
      FlowSign(limits, now - bucket.value.lastRefill);
      var tokens := Level(limits, bucket, now);
      if tokens < 1.0 {
        TimeForFlows(limits, 1.0 - tokens);
      }
    }
    hide Limits.Flow, Limits.TimeFor;
  }

  lemma LevelGrowsAtRate(limits: Limits, bucket: Option<Bucket>, t: real, u: real)
    requires limits.Refills() && t <= u
    ensures Level(limits, bucket, u) <= Level(limits, bucket, t) + limits.Flow(u - t)
  {
    FlowSign(limits, u - t);
    if bucket.Some? {
      var last := bucket.value.lastRefill;
      FlowAdds(limits, t - last, u - t);
      assert t - last + (u - t) == u - last;
    }
    hide Limits.Flow;
  }

  lemma {:induction false} BucketsNonNegative(limits: Limits, calls: seq<Call>, identity: string, j: nat)
    requires limits.Refills() && NonDecreasing(calls) && j <= |calls|
    ensures var bucket := BucketAfter(limits, calls[..j], identity);
            bucket.Some? ==>
              && j > 0 && bucket.value.lastRefill <= calls[j - 1].now
              && (limits.burst >= 1 ==> 0.0 <= bucket.value.tokens)
  {
    if j > 0 {
      BucketsNonNegative(limits, calls, identity, j - 1);
      BucketStep(limits, calls, identity, j - 1);
      if identity == calls[j - 1].identity {
        StepSpendsLevel(limits, BucketAfter(limits, calls[..j - 1], identity), calls[j - 1].now);
      }
    }
    hide Limits.Flow, Limits.TimeFor, BucketAfter;
  }

  /** What is spent and left over `seconds` comes out of what was there and a
      minute's tokens in every sixty of them. */
  predicate Covered(spent: int, left: real, before: real, ratePerMinute: int, seconds: real) {
    spent as real + left <= before + ratePerMinute as real * seconds / 60.0
  }

  /** The code's own unit is the second. */
  lemma CoveredByFlow(limits: Limits, spent: int, left: real, before: real, seconds: real)
    ensures Covered(spent, left, before, limits.ratePerMinute, seconds) <==>
            spent as real + left <= before + limits.Flow(seconds)
  {
    FlowIs(limits, seconds);
  }

  lemma FlowIs(limits: Limits, seconds: real)
    ensures limits.Flow(seconds) == limits.ratePerMinute as real * seconds / 60.0
  {
  }

  predicate Accounted(limits: Limits, calls: seq<Call>, identity: string, i: nat, j: nat)
    requires i < j <= |calls|
  {
    Covered(Grants(limits, calls, identity, i, j),
            Level(limits, BucketAfter(limits, calls[..j], identity), calls[j - 1].now),
            Level(limits, BucketAfter(limits, calls[..i], identity), calls[i].now),
            limits.ratePerMinute, calls[j - 1].now - calls[i].now)
  }

  lemma {:induction false} GrantsBalance(limits: Limits, calls: seq<Call>, identity: string, i: nat, j: nat)
    requires limits.Refills() && NonDecreasing(calls)
    requires i < j <= |calls|
    ensures Grants(limits, calls, identity, i, j) as real
            + Level(limits, BucketAfter(limits, calls[..j], identity), calls[j - 1].now)
         <= Level(limits, BucketAfter(limits, calls[..i], identity), calls[i].now)
            + limits.Flow(calls[j - 1].now - calls[i].now)
  {
    var k, now := j - 1, calls[j - 1].now;
    var bucket := BucketAfter(limits, calls[..k], identity);
    BucketStep(limits, calls, identity, k);
    FlowSign(limits, 0.0);
    if i < k {
      GrantsBalance(limits, calls, identity, i, k);
      LevelGrowsAtRate(limits, bucket, calls[k - 1].now, now);
      FlowAdds(limits, calls[k - 1].now - calls[i].now, now - calls[k - 1].now);
      assert calls[k - 1].now - calls[i].now + (now - calls[k - 1].now) == now - calls[i].now;
    }
    if calls[k].identity == identity {
      BucketsNonNegative(limits, calls, identity, k);
      StepSpendsLevel(limits, bucket, now);
    }
    hide Limits.Flow, Limits.TimeFor, BucketAfter, Level, Consume;
    assert Grants(limits, calls, identity, i, k) == 0 || i < k;
  }

  /** The accounting behind the bound: grants plus what is left never exceed
      what was there plus what has flowed in since. */
  lemma GrantsAccounted(limits: Limits, calls: seq<Call>, identity: string, i: nat, j: nat)
    requires limits.Refills() && NonDecreasing(calls) && i < j <= |calls|
    ensures Accounted(limits, calls, identity, i, j)
  {
    GrantsBalance(limits, calls, identity, i, j);
    CoveredByFlow(limits, Grants(limits, calls, identity, i, j),
                  Level(limits, BucketAfter(limits, calls[..j], identity), calls[j - 1].now),
                  Level(limits, BucketAfter(limits, calls[..i], identity), calls[i].now),
                  calls[j - 1].now - calls[i].now);
    hide Limits.Flow, Level, Grants, BucketAfter, Covered;
  }

  predicate Bounded(limits: Limits, calls: seq<Call>, identity: string, i: nat, j: nat)
    requires i < j <= |calls|
  {
    Covered(Grants(limits, calls, identity, i, j), 0.0, limits.burst as real, limits.ratePerMinute,
            calls[j - 1].now - calls[i].now)
  }

  /** In any stretch of a run, one identity is granted at most the burst plus
      what refills while the stretch lasts, whatever other identities do. */
  lemma GrantsBounded(limits: Limits, calls: seq<Call>, identity: string, i: nat, j: nat)
    requires limits.Sensible() && NonDecreasing(calls)
    requires i < j <= |calls|
    ensures Bounded(limits, calls, identity, i, j)
  {
    GrantsBalance(limits, calls, identity, i, j);
    BucketsNonNegative(limits, calls, identity, j);
    LevelBounds(limits, BucketAfter(limits, calls[..j], identity), calls[j - 1].now);
    LevelBounds(limits, BucketAfter(limits, calls[..i], identity), calls[i].now);
    CoveredByFlow(limits, Grants(limits, calls, identity, i, j), 0.0, limits.burst as real,
                  calls[j - 1].now - calls[i].now);
    hide Covered, Grants, Level, BucketAfter, Limits.Flow;
  }

  lemma LevelBounds(limits: Limits, bucket: Option<Bucket>, t: real)
    requires limits.Sensible()
    ensures Level(limits, bucket, t) <= limits.burst as real
    ensures bucket.None? || (0.0 <= bucket.value.tokens && bucket.value.lastRefill <= t) ==>
              0.0 <= Level(limits, bucket, t)
  {
    if bucket.Some? {
      FlowSign(limits, t - bucket.value.lastRefill);
    }
    hide Limits.Flow;
  }

  // ── limits at which the bound fails ──

  /** Without a refill no call is ever refused: at a rate of zero the division
      raises, below zero the wait is negative. */
  lemma NeverRefused(limits: Limits, bucket: Option<Bucket>, now: real)
    requires !limits.Refills()
    ensures !Refused(Consume(limits, bucket, now).1)
  {
    hide Limits.Flow;
  }

  /** The input: many calls of one identity at one instant. */
  function AtOnce(n: nat): (calls: seq<Call>)
    ensures |calls| == n && NonDecreasing(calls)
  {
    seq(n, k => Call("", 0.0))
  }

  lemma {:induction false} AllGranted(limits: Limits, n: nat, k: nat)
    requires !limits.Refills() && k <= n
    ensures Grants(limits, AtOnce(n), "", 0, k) == k
  {
    if k > 0 {
      AllGranted(limits, n, k - 1);
      NeverRefused(limits, BucketAfter(limits, AtOnce(n)[..k - 1], ""), 0.0);
    }
    hide Consume, Buckets;
  }

  /** The tokens left after `k` of them, until they run out. */
  lemma {:induction false} TokensAtOnce(limits: Limits, n: nat, k: nat)
    requires 0 < k <= n && (k == 1 || k <= limits.burst)
    ensures BucketAfter(limits, AtOnce(n)[..k], "") == Some(Bucket((limits.burst - k) as real, 0.0))
  {
    BucketStep(limits, AtOnce(n), "", k - 1);
    if k > 1 {
      TokensAtOnce(limits, n, k - 1);
      assert limits.Flow(0.0) == 0.0;
    } else {
      assert AtOnce(n)[..0] == [];
    }
    hide Buckets, BucketAfter;
  }

  /** One call more, and the level stays where it was. */
  lemma LevelStays(limits: Limits, k: nat)
    requires k == (if limits.burst >= 1 then limits.burst else 1)
    ensures BucketAfter(limits, AtOnce(k + 1), "") == Some(Bucket((limits.burst - k) as real, 0.0))
    ensures Level(limits, BucketAfter(limits, AtOnce(k + 1), ""), 0.0) == (limits.burst - k) as real
  {
    var run := AtOnce(k + 1);
    TokensAtOnce(limits, k + 1, k);
    BucketStep(limits, run, "", k);
    assert run[..k + 1] == run;
    assert limits.Flow(0.0) == 0.0;
    hide Buckets, BucketAfter;
  }

  ghost predicate AlwaysAgree(limits: Limits) {
    forall calls: seq<Call>, i: nat | NonDecreasing(calls) && i < |calls| ::
      LocalWait(limits, calls, i) == SharedWait(limits, calls, i)
  }

  /** The two limiters agree on every call of every run if and only if there
      is a token to start with and a refill. */
  lemma AgreeIffSensible(limits: Limits)
    ensures AlwaysAgree(limits) <==> limits.Sensible()
  {
    hide NonDecreasing, LocalWait, SharedWait;
    if limits.Sensible() {
      forall calls: seq<Call>, i: nat | NonDecreasing(calls) && i < |calls|
        ensures LocalWait(limits, calls, i) == SharedWait(limits, calls, i)
      {
        SameAnswers(limits, calls, i);
      }
    } else {
      PartingRun(limits);
    }
  }

  lemma PartingRun(limits: Limits)
    requires !limits.Sensible()
    ensures exists calls: seq<Call>, i: nat :: NonDecreasing(calls) && i < |calls|
              && LocalWait(limits, calls, i) != SharedWait(limits, calls, i)
  {
    hide LocalWait, SharedWait;
    if limits.burst < 1 {
      FirstCallAgreesIff(limits, "", 0.0);
      assert NonDecreasing([Call("", 0.0)]);
    } else if limits.ratePerMinute == 0 {
      OneTooMany(limits);
      NeverRaises(limits, AtOnce(limits.burst + 1), limits.burst);
    } else {
      AfterExpiry(limits);
      assert NonDecreasing([Call("", 0.0), Call("", Ttl(limits) as real)]);
    }
  }

  lemma OneTooMany(limits: Limits)
    requires limits.burst >= 1 && limits.ratePerMinute == 0
    ensures LocalWait(limits, AtOnce(limits.burst + 1), limits.burst) == Raised
  {
    TokensAtOnce(limits, limits.burst + 1, limits.burst);
    assert limits.Flow(0.0) == 0.0;
    hide Buckets;
  }

  lemma NeverRaises(limits: Limits, calls: seq<Call>, i: nat)
    requires i < |calls|
    ensures SharedWait(limits, calls, i) != Raised
  {
    hide Limits.Flow, Ttl, Stored;
  }

  /** With a rate below zero the process goes on draining a bucket that the
      store, having dropped it, takes to be full. */
  lemma AfterExpiry(limits: Limits)
    requires limits.burst >= 1 && limits.ratePerMinute < 0
    ensures var calls := [Call("", 0.0), Call("", Ttl(limits) as real)];
            LocalWait(limits, calls, 1) != SharedWait(limits, calls, 1)
  {
    var ttl := Ttl(limits) as real;
    var calls := [Call("", 0.0), Call("", ttl)];
    assert calls[..0] == [];
    BucketStep(limits, calls, "", 0);
    assert BucketAfter(limits, calls[..1], "") == Some(Bucket((limits.burst - 1) as real, 0.0));
    Drained(limits);
    NeverRefused(limits, Some(Bucket((limits.burst - 1) as real, 0.0)), ttl);
    assert calls[..1] == [calls[0]] && [calls[0]][..0] == [];
    assert limits.Flow(0.0) == 0.0;
    hide Limits.Flow, Ttl;
  }

  lemma Drained(limits: Limits)
    requires limits.burst >= 1 && limits.ratePerMinute < 0
    ensures (limits.burst - 1) as real + limits.Flow(Ttl(limits) as real) < 1.0
  {
    var rate, ttl := limits.RefillPerSecond(), Ttl(limits) as real;
    assert rate <= -1.0 / 60.0;
    assert Max(rate, 0.000001) == 0.000001;
    var full := limits.burst as real / 0.000001;
    assert full == limits.burst as real * 1000000.0;
    assert full.Floor == limits.burst * 1000000;
    assert ttl >= 60.0 * limits.burst as real;
    assert ttl * rate <= ttl * (-1.0 / 60.0);
    hide Ttl;
  }

  ghost predicate AlwaysBounded(limits: Limits) {
    forall calls: seq<Call>, identity: string, i: nat, j: nat | NonDecreasing(calls) && i < j <= |calls| ::
      Bounded(limits, calls, identity, i, j)
  }

  ghost predicate AlwaysAccounted(limits: Limits) {
    forall calls: seq<Call>, identity: string, i: nat, j: nat | NonDecreasing(calls) && i < j <= |calls| ::
      Accounted(limits, calls, identity, i, j)
  }

  /** The bound holds of every stretch of every run if and only if there is a
      token to start with and a refill. Otherwise one call, or one more than
      the burst, breaks it at once. */
  lemma BoundedIffSensible(limits: Limits)
    ensures AlwaysBounded(limits) <==> limits.Sensible()
  {
    hide Bounded, NonDecreasing, Grants, Limits.Flow;
    if limits.Sensible() {
      forall calls: seq<Call>, identity: string, i: nat, j: nat | NonDecreasing(calls) && i < j <= |calls|
        ensures Bounded(limits, calls, identity, i, j)
      {
        GrantsBounded(limits, calls, identity, i, j);
      }
    } else {
      var n := if limits.burst >= 1 then limits.burst + 1 else 1;
      TooMany(limits, n);
      assert NonDecreasing(AtOnce(n));
    }
  }

  lemma TooMany(limits: Limits, n: nat)
    requires !limits.Sensible() && n == (if limits.burst >= 1 then limits.burst + 1 else 1)
    ensures !Bounded(limits, AtOnce(n), "", 0, n)
  {
    var run := AtOnce(n);
    assert limits.ratePerMinute as real * 0.0 / 60.0 == 0.0;
    if limits.burst >= 1 {
      AllGranted(limits, n, n);
    } else {
      assert run[..0] == [];
      assert Grants(limits, run, "", 0, 1) == 1;
    }
    hide LocalWait, Grants;
  }

  /** The accounting needs only the refill. */
  lemma AccountedIffRefills(limits: Limits)
    ensures AlwaysAccounted(limits) <==> limits.Refills()
  {
    hide Accounted, NonDecreasing;
    if limits.Refills() {
      forall calls: seq<Call>, identity: string, i: nat, j: nat | NonDecreasing(calls) && i < j <= |calls|
        ensures Accounted(limits, calls, identity, i, j)
      {
        GrantsAccounted(limits, calls, identity, i, j);
      }
    } else {
      var n := 1 + if limits.burst >= 1 then limits.burst else 1;
      Overspent(limits, n);
      assert NonDecreasing(AtOnce(n));
    }
  }

  lemma Overspent(limits: Limits, n: nat)
    requires !limits.Refills() && n == 1 + (if limits.burst >= 1 then limits.burst else 1)
    ensures !Accounted(limits, AtOnce(n), "", 0, n)
  {
    var run := AtOnce(n);
    AllGranted(limits, n, n);
    LevelStays(limits, n - 1);
    assert run[..n] == run && run[..0] == [];
    assert BucketAfter(limits, [], "") == None;
    assert limits.ratePerMinute as real * 0.0 / 60.0 == 0.0;
    hide Grants, Buckets;
  }

  // ── the same bound over the shared store ──

  /** The store lets a call pass when there is no positive wait; an endless
      wait raises. */
  predicate Admitted(wait: Wait) {
    wait.Seconds? && wait.value <= 0.0
  }

  /** How many of calls `i` to `j - 1` the store let pass for `identity`. */
  function SharedGrants(limits: Limits, calls: seq<Call>, identity: string, i: nat, j: nat): nat
    requires i <= j <= |calls|
  {
    if i == j then 0
    else
      SharedGrants(limits, calls, identity, i, j - 1)
      + if calls[j - 1].identity == identity && Admitted(SharedWait(limits, calls, j - 1)) then 1 else 0
  }

  predicate SharedBounded(limits: Limits, calls: seq<Call>, identity: string, i: nat, j: nat)
    requires i < j <= |calls|
  {
    Covered(SharedGrants(limits, calls, identity, i, j), 0.0, limits.burst as real, limits.ratePerMinute,
            calls[j - 1].now - calls[i].now)
  }

  ghost predicate AlwaysSharedBounded(limits: Limits) {
    forall calls: seq<Call>, identity: string, i: nat, j: nat | NonDecreasing(calls) && i < j <= |calls| ::
      SharedBounded(limits, calls, identity, i, j)
  }

  lemma {:induction false} SameGrants(limits: Limits, calls: seq<Call>, identity: string, i: nat, j: nat)
    requires limits.Sensible() && NonDecreasing(calls) && i <= j <= |calls|
    ensures SharedGrants(limits, calls, identity, i, j) == Grants(limits, calls, identity, i, j)
  {
    hide LocalWait, SharedWait;
    if i < j {
      SameGrants(limits, calls, identity, i, j - 1);
      SameAnswers(limits, calls, j - 1);
      NeverRaises(limits, calls, j - 1);
      NeverEndless(limits, calls, j - 1);
    }
  }

  lemma NeverEndless(limits: Limits, calls: seq<Call>, i: nat)
    requires i < |calls|
    ensures LocalWait(limits, calls, i) != Endless
  {
    hide Limits.Flow, Buckets;
  }

  /** A store whose buckets hold nothing lets nothing pass, unless it drains. */
  lemma {:induction false} NonePass(limits: Limits, calls: seq<Call>, identity: string, i: nat, j: nat)
    requires limits.burst == 0 && limits.ratePerMinute >= 0 && i <= j <= |calls|
    ensures SharedGrants(limits, calls, identity, i, j) == 0
  {
    hide SharedWait, Admitted;
    if i < j {
      NonePass(limits, calls, identity, i, j - 1);
      NothingToHand(limits, calls, j - 1);
    }
  }

  lemma NothingToHand(limits: Limits, calls: seq<Call>, i: nat)
    requires limits.burst == 0 && limits.ratePerMinute >= 0 && i < |calls|
    ensures !Admitted(SharedWait(limits, calls, i))
  {
    var keys, now := KeysIn(Stored(limits, calls[..i]), calls[i].identity), calls[i].now;
    var left := Script(limits, keys, now).0.tokens.value.value;
    assert left <= 0.0;
    if limits.ratePerMinute >= 1 {
      TimeForFlows(limits, 1.0 - left);
    }
    hide Limits.Flow, Limits.TimeFor, Ttl, Stored, Read;
  }

  /** The inputs: calls so far apart that each finds the keys dropped. */
  function Spaced(limits: Limits, n: nat): (calls: seq<Call>)
    ensures |calls| == n
  {
    var ttl := Ttl(limits);
    seq(n, k => Call("", (k * ttl) as real))
  }

  lemma SpacedInOrder(limits: Limits, n: nat)
    ensures NonDecreasing(Spaced(limits, n))
  {
    var run, ttl := Spaced(limits, n), Ttl(limits);
    assert ttl >= 0;
    hide Ttl;
    forall i, j | 0 <= i < j < n
      ensures run[i].now <= run[j].now
    {
    }
  }

  lemma FreshEachTime(limits: Limits, n: nat, k: nat)
    requires limits.burst >= 1 && k < n
    ensures Admitted(SharedWait(limits, Spaced(limits, n), k))
  {
    var run, ttl := Spaced(limits, n), Ttl(limits);
    if k == 0 {
      assert run[..0] == [];
    } else {
      assert run[..k][..k - 1] == run[..k - 1];
      assert ((k - 1) * ttl) as real + ttl as real == (k * ttl) as real;
    }
    assert limits.Flow(0.0) == 0.0;
    hide Limits.Flow, Ttl;
  }

  /** Below zero the wait is negative, and passes. */
  lemma NegativeWait(limits: Limits, calls: seq<Call>, k: nat)
    requires limits.ratePerMinute < 0 && k < |calls|
    ensures Admitted(SharedWait(limits, calls, k))
  {
    hide Limits.Flow, Ttl, Stored, Read;
  }

  lemma {:induction false} EachAdmitted(limits: Limits, calls: seq<Call>, k: nat)
    requires k <= |calls|
    requires forall m | 0 <= m < k :: calls[m].identity == "" && Admitted(SharedWait(limits, calls, m))
    ensures SharedGrants(limits, calls, "", 0, k) == k
  {
    hide SharedWait, Admitted;
    if k > 0 {
      EachAdmitted(limits, calls, k - 1);
    }
  }

  /** The run that breaks the bound: one call, one more than the burst at
      once, or one more than the burst each after the keys are gone. */
  function BreakingRun(limits: Limits): (calls: seq<Call>)
    ensures calls != []
  {
    if limits.burst < 1 then AtOnce(1)
    else if limits.ratePerMinute < 0 then AtOnce(limits.burst + 1)
    else Spaced(limits, limits.burst + 1)
  }

  /** Limits at which the store keeps the bound. */
  predicate SharedSafe(limits: Limits) {
    if limits.burst == 0 then limits.ratePerMinute >= 0 else limits.Sensible()
  }

  lemma SharedTooMany(limits: Limits, run: seq<Call>)
    requires run != [] && SharedGrants(limits, run, "", 0, |run|) > limits.burst
    requires limits.Flow(run[|run| - 1].now - run[0].now) == 0.0
    ensures !SharedBounded(limits, run, "", 0, |run|)
  {
    var n := |run|;
    CoveredByFlow(limits, SharedGrants(limits, run, "", 0, n), 0.0, limits.burst as real, run[n - 1].now - run[0].now);
    hide SharedGrants, Covered, Limits.Flow;
  }

  lemma BreaksSharedBound(limits: Limits)
    requires !SharedSafe(limits)
    ensures var run := BreakingRun(limits); NonDecreasing(run) && !SharedBounded(limits, run, "", 0, |run|)
  {
    var run := BreakingRun(limits);
    BreakingRunShape(limits);
    if limits.burst >= 0 {
      forall m: nat | m < |run|
        ensures Admitted(SharedWait(limits, run, m))
      {
        PassesBreakingRun(limits, m);
      }
      EachAdmitted(limits, run, |run|);
    }
    hide BreakingRun, NonDecreasing, SharedGrants, SharedWait, Admitted, SharedBounded, Limits.Flow;
    SharedTooMany(limits, run);
  }

  lemma BreakingRunShape(limits: Limits)
    requires !SharedSafe(limits)
    ensures var run := BreakingRun(limits);
            && NonDecreasing(run) && limits.Flow(run[|run| - 1].now - run[0].now) == 0.0
            && |run| > limits.burst && forall m | 0 <= m < |run| :: run[m].identity == ""
  {
    var n := |BreakingRun(limits)|;
    SpacedInOrder(limits, n);
    hide NonDecreasing, Limits.Flow, Ttl;
  }

  lemma PassesBreakingRun(limits: Limits, m: nat)
    requires !SharedSafe(limits) && limits.burst >= 0 && m < |BreakingRun(limits)|
    ensures Admitted(SharedWait(limits, BreakingRun(limits), m))
  {
    hide Admitted, SharedWait;
    var run := BreakingRun(limits);
    if limits.ratePerMinute < 0 {
      NegativeWait(limits, run, m);
    } else {
      FreshEachTime(limits, |run|, m);
    }
  }

  /** The store, too, lets at most the burst plus what refills pass. */
  lemma SharedGrantsBounded(limits: Limits, calls: seq<Call>, identity: string, i: nat, j: nat)
    requires SharedSafe(limits) && NonDecreasing(calls) && i < j <= |calls|
    ensures SharedBounded(limits, calls, identity, i, j)
  {
    if limits.Sensible() {
      GrantsBounded(limits, calls, identity, i, j);
      SameGrants(limits, calls, identity, i, j);
    } else {
      NonePass(limits, calls, identity, i, j);
      var seconds := calls[j - 1].now - calls[i].now;
      assert seconds >= 0.0;
      assert limits.ratePerMinute as real * seconds >= 0.0;
    }
    hide Grants, SharedGrants;
  }

  /** Over the shared store the bound holds of every stretch of every run if
      and only if the limits are sensible, or the burst is zero and nothing
      drains. */
  lemma SharedBoundedIff(limits: Limits)
    ensures AlwaysSharedBounded(limits) <==> SharedSafe(limits)
  {
    hide SharedBounded, NonDecreasing;
    if SharedSafe(limits) {
      forall calls: seq<Call>, identity: string, i: nat, j: nat | NonDecreasing(calls) && i < j <= |calls|
        ensures SharedBounded(limits, calls, identity, i, j)
      {
        SharedGrantsBounded(limits, calls, identity, i, j);
      }
    } else {
      BreaksSharedBound(limits);
    }
  }

  // ── what the rate means ──

  /** Whoever has spent the burst at once is told, by either limiter, to wait
      the sixtieth part of a minute's tokens: sixty seconds over the rate. */
  lemma WaitAfterBurst(limits: Limits)
    requires limits.Sensible()
    ensures var run, wait := AtOnce(limits.burst + 1), 60.0 / limits.ratePerMinute as real;
            && LocalWait(limits, run, limits.burst) == Seconds(wait)
            && SharedWait(limits, run, limits.burst) == Seconds(wait)
  {
    var run := AtOnce(limits.burst + 1);
    TokensAtOnce(limits, limits.burst + 1, limits.burst);
    SameAnswers(limits, run, limits.burst);
    FlowSign(limits, 0.0);
    OneToken(limits);
    hide Buckets, SharedWait, Limits.Flow, Limits.TimeFor;
  }

  lemma OneToken(limits: Limits)
    requires limits.Refills()
    ensures limits.TimeFor(1.0) == Some(60.0 / limits.ratePerMinute as real)
  {
    var rate := limits.ratePerMinute as real;
    var wait := 60.0 / rate;
    assert wait * rate == 60.0;
    QuotientOf(1.0, rate / 60.0, wait);
  }

  lemma QuotientOf(x: real, y: real, q: real)
    requires y != 0.0 && q * y == x
    ensures x / y == q
  {
    var r := x / y;
    assert (r - q) * y == 0.0;
  }

  /** The keys of the store live twice as long as a bucket takes to fill, in
      whole seconds, and no less than a minute. */
  lemma TtlExact(limits: Limits)
    requires limits.Refills() && limits.burst >= 0
    ensures var fill := 60 * limits.burst / limits.ratePerMinute;
            Ttl(limits) == if 2 * fill > 60 then 2 * fill else 60
  {
    var rate, fill := limits.ratePerMinute, 60 * limits.burst / limits.ratePerMinute;
    var seconds := limits.burst as real / limits.RefillPerSecond();
    FillTime(limits.burst, rate, seconds, limits.RefillPerSecond());
    assert fill * rate <= 60 * limits.burst < (fill + 1) * rate;
    Between(seconds, rate as real, fill);
  }

  lemma FillTime(burst: int, rate: int, seconds: real, perSecond: real)
    requires rate >= 1 && perSecond == rate as real / 60.0 && seconds == burst as real / perSecond
    ensures perSecond >= 1.0 / 60.0 && seconds * rate as real == (60 * burst) as real
  {
    assert seconds * perSecond == burst as real;
  }

  lemma Between(seconds: real, rate: real, fill: int)
    requires rate > 0.0 && fill as real * rate <= seconds * rate < (fill + 1) as real * rate
    ensures seconds.Floor == fill
  {
    NoLess(seconds, fill as real, rate);
    NoLess((fill + 1) as real, seconds, rate);
  }

  lemma NoLess(x: real, y: real, rate: real)
    requires rate > 0.0
    ensures x * rate >= y * rate ==> x >= y
    ensures x * rate > y * rate ==> x > y
  {
    assert x * rate - y * rate == (x - y) * rate;
  }

  // ── the promised wait is exact ──

  /** From a refusal at call `i`, `identity` stays short of its next token
      until `Until(i)`. */
  function Until(limits: Limits, calls: seq<Call>, i: nat): real
    requires i < |calls| && Refused(LocalWait(limits, calls, i))
  {
    calls[i].now + LocalWait(limits, calls, i).value
  }

  /** A bucket that will hold one token at `until` and not before. */
  predicate Filling(limits: Limits, bucket: Option<Bucket>, until: real) {
    && bucket.Some?
    && bucket.value.lastRefill < until
    && bucket.value.tokens + limits.Flow(until - bucket.value.lastRefill) == 1.0
  }

  lemma RefusalStartsFilling(limits: Limits, bucket: Option<Bucket>, now: real)
    requires limits.Refills() && Refused(Consume(limits, bucket, now).1)
    ensures var (b, w) := Consume(limits, bucket, now); Filling(limits, Some(b), now + w.value)
  {
    var (b, w) := Consume(limits, bucket, now);
    TimeForFlows(limits, 1.0 - b.tokens);
    assert now + w.value - now == w.value;
    hide Limits.Flow, Limits.TimeFor;
  }

  /** A filling bucket refuses exactly before its time, and refusing leaves
      it filling towards the same instant. */
  lemma FillingStep(limits: Limits, bucket: Option<Bucket>, until: real, now: real)
    requires limits.Sensible() && Filling(limits, bucket, until) && bucket.value.lastRefill <= now
    ensures var (b, w) := Consume(limits, bucket, now);
            && (Refused(w) <==> now < until)
            && (now < until ==> Filling(limits, Some(b), until) && w.value == until - now)
  {
    var b := bucket.value;
    FlowAdds(limits, now - b.lastRefill, until - now);
    assert now - b.lastRefill + (until - now) == until - b.lastRefill;
    FlowSign(limits, until - now);
    if now < until {
      var short := limits.Flow(until - now);
      TimeForFlows(limits, short);
      FlowAdds(limits, limits.TimeFor(short).value - (until - now), until - now);
      FlowSign(limits, limits.TimeFor(short).value - (until - now));
      assert limits.TimeFor(short).value - (until - now) + (until - now) == limits.TimeFor(short).value;
    }
    hide Limits.Flow, Limits.TimeFor;
  }

  lemma {:induction false} FillingAfterRefusal(limits: Limits, calls: seq<Call>, i: nat, j: nat)
    requires limits.Sensible() && NonDecreasing(calls)
    requires i < j <= |calls| && Refused(LocalWait(limits, calls, i))
    requires forall k | i < k < j && calls[k].identity == calls[i].identity :: calls[k].now < Until(limits, calls, i)
    ensures Filling(limits, BucketAfter(limits, calls[..j], calls[i].identity), Until(limits, calls, i))
  {
    var id, k := calls[i].identity, j - 1;
    var bucket := BucketAfter(limits, calls[..k], id);
    BucketStep(limits, calls, id, k);
    if k == i {
      RefusalStartsFilling(limits, bucket, calls[i].now);
    } else {
      FillingAfterRefusal(limits, calls, i, k);
      if calls[k].identity == id {
        BucketsNonNegative(limits, calls, id, k);
        FillingStep(limits, bucket, Until(limits, calls, i), calls[k].now);
      }
    }
    hide Consume, Filling, Buckets;
  }

  /** Call `j` of a caller that call `i` told to wait, and that has not called
      at or after the promised instant in between. */
  predicate CallsBack(limits: Limits, calls: seq<Call>, i: nat, j: nat) {
    && i < j < |calls| && calls[j].identity == calls[i].identity
    && Refused(LocalWait(limits, calls, i))
    && forall k | i < k < j && calls[k].identity == calls[i].identity :: calls[k].now < Until(limits, calls, i)
  }

  /** It is refused exactly before that instant, with what is left of the
      wait. */
  predicate KeepsPromise(limits: Limits, calls: seq<Call>, i: nat, j: nat)
    requires CallsBack(limits, calls, i, j)
  {
    && (Refused(LocalWait(limits, calls, j)) <==> calls[j].now < Until(limits, calls, i))
    && (calls[j].now < Until(limits, calls, i) ==>
          LocalWait(limits, calls, j) == Seconds(Until(limits, calls, i) - calls[j].now))
  }

  /** A caller refused with wait `w` is refused at every call before `now + w`,
      each time with what is left of that wait, and granted at its first call
      from then on. */
  lemma WaitIsExact(limits: Limits, calls: seq<Call>, i: nat, j: nat)
    requires limits.burst >= 1 && NonDecreasing(calls) && CallsBack(limits, calls, i, j)
    ensures KeepsPromise(limits, calls, i, j)
  {
    var id := calls[i].identity;
    if limits.Refills() {
      FillingAfterRefusal(limits, calls, i, j);
      BucketsNonNegative(limits, calls, id, j);
      FillingStep(limits, BucketAfter(limits, calls[..j], id), Until(limits, calls, i), calls[j].now);
    } else {
      NeverRefused(limits, BucketAfter(limits, calls[..i], id), calls[i].now);
    }
    hide Consume, Buckets;
  }

  ghost predicate PromisesKept(limits: Limits) {
    forall calls: seq<Call>, i: nat, j: nat | NonDecreasing(calls) && CallsBack(limits, calls, i, j) ::
      KeepsPromise(limits, calls, i, j)
  }

  /** Every promised wait is exact if and only if the bucket can hold a token
      (or nobody is ever told to wait). */
  lemma PromisesKeptIff(limits: Limits)
    ensures PromisesKept(limits) <==> limits.burst >= 1 || !limits.Refills()
  {
    hide NonDecreasing, KeepsPromise, LocalWait;
    if limits.burst >= 1 || !limits.Refills() {
      forall calls: seq<Call>, i: nat, j: nat | NonDecreasing(calls) && CallsBack(limits, calls, i, j)
        ensures KeepsPromise(limits, calls, i, j)
      {
        if limits.Refills() {
          WaitIsExact(limits, calls, i, j);
        } else {
          NoneToldToWait(limits, calls, i);
        }
      }
    } else {
      BrokenPromise(limits);
    }
  }

  lemma NoneToldToWait(limits: Limits, calls: seq<Call>, i: nat)
    requires !limits.Refills() && i < |calls|
    ensures !Refused(LocalWait(limits, calls, i))
  {
    NeverRefused(limits, BucketAfter(limits, calls[..i], calls[i].identity), calls[i].now);
    hide Consume, Buckets;
  }

  /** With no room for a token, the second of three calls is told to wait and
      the third, at the promised instant, is refused again. */
  lemma BrokenPromise(limits: Limits)
    requires limits.Refills() && limits.burst < 1
    ensures exists calls: seq<Call> :: NonDecreasing(calls) && CallsBack(limits, calls, 1, 2)
              && !KeepsPromise(limits, calls, 1, 2)
  {
    var b := (limits.burst - 1) as real;
    var bucket := Some(Bucket(b, 0.0));
    FlowSign(limits, 0.0);
    TimeForFlows(limits, 1.0 - b);
    var w := limits.TimeFor(1.0 - b).value;
    var calls := [Call("", 0.0), Call("", 0.0), Call("", w)];
    assert calls[..0] == [];
    BucketStep(limits, calls, "", 0);
    BucketStep(limits, calls, "", 1);
    assert BucketAfter(limits, calls[..1], "") == bucket;
    assert LocalWait(limits, calls, 1) == Seconds(w);
    assert BucketAfter(limits, calls[..2], "") == bucket;
    var tokens := Min(limits.burst as real, b + limits.Flow(w));
    assert tokens < 1.0;
    TimeForFlows(limits, 1.0 - tokens);
    assert Refused(LocalWait(limits, calls, 2));
    hide Consume, Buckets, BucketAfter, Limits.Flow, Limits.TimeFor;
    assert CallsBack(limits, calls, 1, 2) && !KeepsPromise(limits, calls, 1, 2);
  }
}
