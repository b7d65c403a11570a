/** Account lockout: a counter of failed logins and a temporary lock. Times
    are whole ticks (microseconds), and the clock is an argument. */
module Lockout {
  import opened Arithmetic
  import opened PyText

  datatype Policy = Policy(threshold: int, lockTicks: int)

  /** The two columns of a user row; the counter column may be NULL. */
  datatype Account = Account(failedCount: Option<int>, lockedUntil: Option<int>)

  function Count(a: Account): int {
    match a.failedCount
    case None => 0
    case Some(n) => n
  }

  predicate IsLocked(a: Account, now: int) {
    a.lockedUntil.Some? && a.lockedUntil.value > now
  }

  function Failed(p: Policy, a: Account, now: int): (Account, bool) {
    if p.threshold <= 0 then (a, false)
    else if Count(a) + 1 >= p.threshold then (Account(Some(0), Some(now + p.lockTicks)), true)
    else (Account(Some(Count(a) + 1), a.lockedUntil), false)
  }

  class User {
    var failedCount: Option<int>
    var lockedUntil: Option<int>

    constructor ()
      ensures Row() == Account(Some(0), None)
    {
      failedCount, lockedUntil := Some(0), None;
    }

    function Row(): Account
      reads this
    {
      Account(failedCount, lockedUntil)
    }

    /** `commits` says whether the database accepts the change; otherwise it
        is rolled back and no lock is reported. */
    method RegisterFailure(p: Policy, now: int, commits: bool) returns (locked: bool)
      modifies this
      ensures (Row(), locked) == if commits then Failed(p, old(Row()), now) else (old(Row()), false)
      ensures p.threshold <= 0 || !commits ==> Row() == old(Row()) && !locked
      ensures p.threshold > 0 && commits ==>
                var n := old(Count(Row())) + 1;
                if n >= p.threshold then locked && Row() == Account(Some(0), Some(now + p.lockTicks))
                else !locked && Row() == Account(Some(n), old(lockedUntil))
    {
      if p.threshold <= 0 {
        return false;
      }
      var before := (failedCount, lockedUntil);
      failedCount := Some((if failedCount.Some? then failedCount.value else 0) + 1);
      locked := false;
      if failedCount.value >= p.threshold {
        lockedUntil := Some(now + p.lockTicks);
        failedCount := Some(0);
        locked := true;
      }
      if !commits {
        failedCount, lockedUntil := before.0, before.1;
        return false;
      }
    }

    /** The counter is only written when there is something to clear. */
    method RegisterSuccess(commits: bool)
      modifies this
      ensures commits ==> Count(Row()) == 0 && lockedUntil == None
      ensures !commits || old(Count(Row()) == 0 && lockedUntil == None) ==> Row() == old(Row())
    {
      if (failedCount.Some? && failedCount.value != 0) || lockedUntil.Some? {
        var before := (failedCount, lockedUntil);
        failedCount := Some(0);
        lockedUntil := None;
        if !commits {
          failedCount, lockedUntil := before.0, before.1;
        }
      }
    }

    method Unlock()
      modifies this
      ensures Row() == Account(Some(0), None)
    {
      failedCount := Some(0);
      lockedUntil := None;
    }
  }

  function SecondsRemaining(a: Account, now: int, ticksPerSecond: int): int
    requires ticksPerSecond > 0
  {
    if a.lockedUntil.None? || a.lockedUntil.value <= now then 0
    else (a.lockedUntil.value - now) / ticksPerSecond
  }

  /** What a caller is told: an account locked now stays locked for the whole
      seconds named and is free again before one more has passed; for one that
      is not locked, none are named. */
  lemma SecondsRemainingExact(a: Account, now: int, ticksPerSecond: int, later: int)
    requires ticksPerSecond > 0 && now <= later
    ensures var s := SecondsRemaining(a, now, ticksPerSecond);
            && s >= 0
            && (!IsLocked(a, now) ==> s == 0)
            && (IsLocked(a, now) && later < now + s * ticksPerSecond ==> IsLocked(a, later))
            && (later >= now + (s + 1) * ticksPerSecond ==> !IsLocked(a, later))
  {
    if IsLocked(a, now) {
      var left := a.lockedUntil.value - now;
      var s := left / ticksPerSecond;
      assert left == ticksPerSecond * s + left % ticksPerSecond;
      assert (s + 1) * ticksPerSecond == ticksPerSecond * s + ticksPerSecond;
    }
  }

  // ── runs ──

  /** Failed attempts since the last reset, with their times. A caller that
      checks the lock first never registers one while it holds. */
  function After(p: Policy, times: seq<int>): Account {
    if times == [] then Account(Some(0), None)
    else Failed(p, After(p, times[..|times| - 1]), times[|times| - 1]).0
  }

  /** Whether failure `i` is the one that locks the account. */
  predicate Locks(p: Policy, times: seq<int>, i: nat)
    requires i < |times|
  {
    Failed(p, After(p, times[..i]), times[i]).1
  }

  predicate Guarded(p: Policy, times: seq<int>) {
    && (forall i, j | 0 <= i < j < |times| :: times[i] <= times[j])
    && (forall i | 0 <= i < |times| :: !IsLocked(After(p, times[..i]), times[i]))
  }

  function LockCount(p: Policy, times: seq<int>): nat {
    if times == [] then 0
    else LockCount(p, times[..|times| - 1]) + if Locks(p, times, |times| - 1) then 1 else 0
  }

  /** Conservation: every failure since the reset is either in the counter or
      was spent on a lock, and the counter stays below the threshold. */
  lemma {:induction false} FailuresConserved(p: Policy, times: seq<int>)
    requires p.threshold > 0
    ensures 0 <= Count(After(p, times)) < p.threshold
    ensures |times| == p.threshold * LockCount(p, times) + Count(After(p, times))
  {
    if times != [] {
      FailuresConserved(p, times[..|times| - 1]);
    }
  }

  /** So failure `i` locks exactly when it completes a block of failures. */
  lemma LocksEveryThreshold(p: Policy, times: seq<int>, i: nat)
    requires p.threshold > 0 && i < |times|
    ensures Locks(p, times, i) <==> (i + 1) % p.threshold == 0
  {
    FailuresConserved(p, times[..i]);
    var k, c := LockCount(p, times[..i]), Count(After(p, times[..i]));
    if c + 1 == p.threshold {
      assert i + 1 == p.threshold * (k + 1);
      QuotientIs(i + 1, p.threshold, k + 1, 0);
    } else {
      QuotientIs(i + 1, p.threshold, k, c + 1);
    }
  }

  lemma LockedFrom(p: Policy, times: seq<int>, i: nat)
    requires p.threshold > 0 && i < |times| && Locks(p, times, i)
    ensures After(p, times[..i + 1]).lockedUntil == Some(times[i] + p.lockTicks)
  {
    assert times[..i + 1][..i] == times[..i];
  }

  /** After the failure that locks it the account is locked for exactly the
      configured time; with a threshold of zero or below none ever locks. */
  lemma LockExact(p: Policy, times: seq<int>, i: nat, now: int)
    requires i < |times|
    ensures p.threshold > 0 && Locks(p, times, i) ==>
              (IsLocked(After(p, times[..i + 1]), now) <==> now < times[i] + p.lockTicks)
    ensures p.threshold <= 0 ==> !Locks(p, times, i) && !IsLocked(After(p, times[..i + 1]), now)
  {
    if p.threshold > 0 && Locks(p, times, i) {
      LockedFrom(p, times, i);
    }
    if p.threshold <= 0 {
      NeverLocked(p, times[..i + 1]);
    }
  }

  lemma {:induction false} NeverLocked(p: Policy, times: seq<int>)
    requires p.threshold <= 0
    ensures After(p, times) == Account(Some(0), None)
  {
    if times != [] {
      NeverLocked(p, times[..|times| - 1]);
    }
  }

  /** Between two locks the lock instant is the earlier one's. */
  lemma {:induction false} LockHolds(p: Policy, times: seq<int>, i: nat, j: nat)
    requires p.threshold > 0 && p.lockTicks >= 0 && Guarded(p, times)
    requires i < j < |times| && Locks(p, times, i)
    ensures times[j] >= times[i] + p.lockTicks
    ensures After(p, times[..j]).lockedUntil.Some?
    ensures After(p, times[..j]).lockedUntil.value >= times[i] + p.lockTicks
  {
    if j == i + 1 {
      LockedFrom(p, times, i);
    } else {
      LockHolds(p, times, i, j - 1);
      assert times[..j][..j - 1] == times[..j - 1];
      var (a, locked) := Failed(p, After(p, times[..j - 1]), times[j - 1]);
      assert After(p, times[..j]) == a;
      hide After, Locks;
    }
    hide After, Locks, Failed;
    assert !IsLocked(After(p, times[..j]), times[j]);
  }

  function Budget(p: Policy, span: int): int
    requires p.lockTicks > 0
  {
    p.threshold * (span / p.lockTicks + 2)
  }

  lemma {:induction false} WithinBudget(p: Policy, times: seq<int>, i: nat, j: nat)
    requires p.threshold > 0 && p.lockTicks > 0 && Guarded(p, times)
    requires i <= j < |times|
    ensures j - i + 1 < Budget(p, times[j] - times[i])
    decreases j - i
  {
    hide Budget, After, Failed, Locks, IsLocked, Guarded;
    var t, span := p.threshold, times[j] - times[i];
    InOrder(p, times, i, j);
    BudgetAtLeastTwo(p, span);
    if j - i + 1 >= 2 * t {
      // The first lock from failure i on comes before failure i + t, which
      // the guard therefore delays by a whole lock.
      var first := NextLock(p, times, i);
      LockHolds(p, times, first, i + t);
      InOrder(p, times, i, first);
      InOrder(p, times, i + t, j);
      WithinBudget(p, times, i + t, j);
      BudgetStep(p, span, times[j] - times[i + t]);
    }
  }

  /** For a caller that refuses while locked: failures `i` to `j` (both included)
      are fewer than threshold times two more than the locks that fit between them. */
  lemma FailuresInSpan(p: Policy, times: seq<int>, i: nat, j: nat)
    requires p.threshold > 0 && p.lockTicks > 0 && Guarded(p, times)
    requires i <= j < |times|
    ensures j - i + 1 < p.threshold * ((times[j] - times[i]) / p.lockTicks + 2)
  {
    WithinBudget(p, times, i, j);
    hide Guarded;
  }

  lemma InOrder(p: Policy, times: seq<int>, i: nat, j: nat)
    requires Guarded(p, times) && i <= j < |times|
    ensures times[i] <= times[j]
  {
  }

  lemma NextLock(p: Policy, times: seq<int>, i: nat) returns (first: nat)
    requires p.threshold > 0 && i + p.threshold <= |times|
    ensures i <= first < i + p.threshold && Locks(p, times, first)
  {
    first := i + (p.threshold - 1 - i % p.threshold);
    NextMultiple(i, p.threshold);
    LocksEveryThreshold(p, times, first);
  }

  lemma BudgetAtLeastTwo(p: Policy, span: int)
    requires p.threshold > 0 && p.lockTicks > 0 && span >= 0
    ensures Budget(p, span) >= 2 * p.threshold
  {
    assert span / p.lockTicks >= 0;
    ProductAtLeast(p.threshold, span / p.lockTicks + 2, 2);
  }

  lemma BudgetStep(p: Policy, span: int, shorter: int)
    requires p.threshold > 0 && p.lockTicks > 0 && 0 <= shorter <= span - p.lockTicks
    ensures Budget(p, shorter) + p.threshold <= Budget(p, span)
  {
    DropOneLock(span, shorter, p.lockTicks);
    var x, y := span / p.lockTicks + 2, shorter / p.lockTicks + 3;
    ProductAtLeast(p.threshold, x, y);
    assert p.threshold * y == p.threshold * (y - 1) + p.threshold;
  }

  lemma DropOneLock(span: int, shorter: int, lock: int)
    requires 0 < lock && 0 <= shorter <= span - lock
    ensures shorter / lock + 1 <= span / lock
  {
    var q := shorter / lock;
    assert shorter == lock * q + shorter % lock;
    assert (q + 1) * lock == lock * q + lock;
    QuotientAtLeast(span, q + 1, lock);
  }

  lemma NextMultiple(i: nat, t: int)
    requires t > 0
    ensures (i + (t - 1 - i % t) + 1) % t == 0
  {
    assert i == t * (i / t) + i % t;
    assert t * (i / t + 1) == t * (i / t) + t;
    QuotientIs(i + (t - 1 - i % t) + 1, t, i / t + 1, 0);
  }
}
