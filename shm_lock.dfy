/** The bounded-recovery lock protocol, as decisions over a trace of lock
    attempts. Real mutexes, waiting and clocks are not modelled: each timed
    attempt either acquires the lock at some time, times out (and the clock
    is then read), or throws. A trace ends with an attempt that acquires or
    throws; any run of the source that terminates is a prefix of such a trace. */
module ShmLock {
  import opened ShmDefs

  datatype LockAttempt = Acquired(at: int) | TimedOut(at: int) | Threw

  /** What one locking call did: whether it holds the lock, how many times it
      force-unlocked the mutex, and the new `lastLockTime_`. */
  datatype LockOutcome = LockOutcome(acquired: bool, forced: nat, lockTime: int)

  /** The trace ends with an attempt that acquires the lock or throws. */
  predicate Ends(attempts: seq<LockAttempt>)
  {
    |attempts| > 0 && !attempts[|attempts| - 1].TimedOut?
  }

  const Wrap32: int := 0x1_0000_0000

  /** `uint32_t(now - last)`: the elapsed time truncated to 32 bits. */
  function Elapsed32(now: int, last: int): (r: int)
    ensures 0 <= r < Wrap32
    ensures 0 <= now - last < Wrap32 ==> r == now - last
  {
    (now - last) % Wrap32
  }

  /** Staleness as a topic's timed lock decides it (32-bit elapsed time). */
  predicate Stale32(now: int, last: int)
  {
    Elapsed32(now, last) > LockTimeoutMs
  }

  /** Staleness as the directory lock and the try-lock decide it (signed). */
  predicate SignedStale(now: int, last: int)
  {
    now - last > LockTimeoutMs
  }

  /** The index of the first attempt that does not time out. */
  function FirstStop(attempts: seq<LockAttempt>): (k: nat)
    requires Ends(attempts)
    ensures k < |attempts| && !attempts[k].TimedOut?
    ensures forall i :: 0 <= i < k ==> attempts[i].TimedOut?
    decreases |attempts|
  {
    if !attempts[0].TimedOut? then 0 else 1 + FirstStop(attempts[1..])
  }

  /** The number of timeouts in `attempts` after which the lock looked stale. */
  function CountStale(attempts: seq<LockAttempt>, last: int, stale: (int, int) -> bool): nat
    decreases |attempts|
  {
    if |attempts| == 0 then 0
    else (if attempts[0].TimedOut? && stale(attempts[0].at, last) then 1 else 0)
         + CountStale(attempts[1..], last, stale)
  }

  lemma {:induction false} CountStaleCons(attempts: seq<LockAttempt>, k: nat, last: int, stale: (int, int) -> bool)
    requires 0 < k <= |attempts|
    ensures CountStale(attempts[..k], last, stale)
            == (if attempts[0].TimedOut? && stale(attempts[0].at, last) then 1 else 0)
               + CountStale(attempts[1..][..k - 1], last, stale)
  {
    assert attempts[..k][1..] == attempts[1..][..k - 1];
  }

  /** The loop of `doTimedLock_` from some attempt on; `second` says whether
      the mutex was already force-unlocked in this call. */
  function TimedLockFrom(attempts: seq<LockAttempt>, last: int, second: bool): (r: LockOutcome)
    requires Ends(attempts)
    ensures var k := FirstStop(attempts);
            var n := CountStale(attempts[..k], last, Stale32) + (if second then 1 else 0);
            && (r.acquired <==> n <= 1 && attempts[k].Acquired?)
            && r.forced == (if n >= 1 then 1 else 0)
            && (r.acquired ==> r.lockTime == attempts[k].at)
            && (!r.acquired ==> r.lockTime == last)
    decreases |attempts|
  {
    match attempts[0]
    case Acquired(t) => LockOutcome(true, if second then 1 else 0, t)
    case Threw => LockOutcome(false, if second then 1 else 0, last)
    case TimedOut(t) =>
      CountStaleCons(attempts, FirstStop(attempts), last, Stale32);
      if Stale32(t, last) then
        if second then LockOutcome(false, 1, last)
        else TimedLockFrom(attempts[1..], last, true)
      else TimedLockFrom(attempts[1..], last, second)
  }

  /** One timed-out attempt of the loop: a second stale timeout gives up;
      otherwise the loop goes on with the rest of the trace. */
  lemma TimedLockFromStep(attempts: seq<LockAttempt>, last: int, second: bool)
    requires Ends(attempts) && attempts[0].TimedOut?
    ensures Ends(attempts[1..])
    ensures TimedLockFrom(attempts, last, second)
            == if Stale32(attempts[0].at, last) && second then LockOutcome(false, 1, last)
               else TimedLockFrom(attempts[1..], last, second || Stale32(attempts[0].at, last))
  {
  }

  /** `doTimedLock_` of a topic: keeps trying while attempts time out; the
      first stale timeout force-unlocks the mutex, a second one gives up, and
      an exception gives up. */
  function TimedLock(attempts: seq<LockAttempt>, last: int): (r: LockOutcome)
    requires Ends(attempts)
    ensures var k := FirstStop(attempts);
            var n := CountStale(attempts[..k], last, Stale32);
            && (r.acquired <==> n <= 1 && attempts[k].Acquired?)
            && r.forced <= 1
            && (r.forced == 1 <==> n >= 1)
            && (r.acquired ==> r.lockTime == attempts[k].at)
            && (!r.acquired ==> r.lockTime == last)
  {
    TimedLockFrom(attempts, last, false)
  }

  /** The waiting loop of the topic's `doTimedLock_`, on the lock time
      `last` it starts from: whether the lock is taken, and the lock time
      it leaves. */
  method AwaitTimedLock(attempts: seq<LockAttempt>, last: int) returns (ok: bool, at: int)
    requires Ends(attempts)
    ensures ok == TimedLock(attempts, last).acquired
    ensures at == TimedLock(attempts, last).lockTime
  {
    var i := 0;
    var second := false;
    while attempts[i].TimedOut?
      invariant 0 <= i < |attempts| && Ends(attempts[i..])
      invariant TimedLockFrom(attempts[i..], last, second) == TimedLock(attempts, last)
      decreases |attempts| - i
    {
      TimedLockFromStep(attempts[i..], last, second);
      assert attempts[i..][1..] == attempts[i + 1..];
      if Stale32(attempts[i].at, last) {
        if second {
          return false, last;
        }
        second := true;
      }
      i := i + 1;
    }
    if attempts[i].Threw? {
      return false, last;
    }
    return true, attempts[i].at;
  }

  /** `doTimedLock` of the topic directory: never gives up on staleness and
      force-unlocks after every stale timeout; only an exception ends it
      without the lock. */
  function DirectoryLock(attempts: seq<LockAttempt>, last: int): (r: LockOutcome)
    requires Ends(attempts)
    ensures var k := FirstStop(attempts);
            && (r.acquired <==> attempts[k].Acquired?)
            && r.forced == CountStale(attempts[..k], last, SignedStale)
            && (r.acquired ==> r.lockTime == attempts[k].at)
            && (!r.acquired ==> r.lockTime == last)
    decreases |attempts|
  {
    match attempts[0]
    case Acquired(t) => LockOutcome(true, 0, t)
    case Threw => LockOutcome(false, 0, last)
    case TimedOut(t) =>
      CountStaleCons(attempts, FirstStop(attempts), last, SignedStale);
      var r := DirectoryLock(attempts[1..], last);
      r.(forced := r.forced + if SignedStale(t, last) then 1 else 0)
  }

  /** What one non-blocking `try_lock()` did: took the lock, found it held,
      or threw. */
  datatype TryAttempt = Took | Busy | Raised

  /** What `doTryLock_` did: the locking outcome, and whether an exception
      from `try_lock()` escaped it (the function has no handler). */
  datatype TryOutcome = TryOutcome(lock: LockOutcome, escaped: bool)

  /** `doTryLock_`: one non-blocking attempt; when it finds the lock held and
      the lock looks stale, force-unlock and try once more. An exception from
      either attempt leaves the function, the lock not held. */
  function TryLock(first: TryAttempt, retry: TryAttempt, now: int, last: int): (r: TryOutcome)
    ensures r.escaped <==> first == Raised || (first == Busy && SignedStale(now, last) && retry == Raised)
    ensures r.lock.acquired <==> first == Took || (first == Busy && SignedStale(now, last) && retry == Took)
    ensures r.lock.forced == (if first == Busy && SignedStale(now, last) then 1 else 0)
    ensures r.lock.acquired ==> r.lock.lockTime == now
    ensures !r.lock.acquired ==> r.lock.lockTime == last
  {
    match first
    case Took => TryOutcome(LockOutcome(true, 0, now), false)
    case Raised => TryOutcome(LockOutcome(false, 0, last), true)
    case Busy =>
      if !SignedStale(now, last) then TryOutcome(LockOutcome(false, 0, last), false)
      else match retry
        case Took => TryOutcome(LockOutcome(true, 1, now), false)
        case Busy => TryOutcome(LockOutcome(false, 1, last), false)
        case Raised => TryOutcome(LockOutcome(false, 1, last), true)
  }

  /** Two stale timeouts in a row make a topic's timed lock give up. */
  lemma StaleTwiceGivesUp(attempts: seq<LockAttempt>, last: int)
    requires Ends(attempts) && |attempts| >= 2
    requires attempts[0].TimedOut? && Stale32(attempts[0].at, last)
    requires attempts[1].TimedOut? && Stale32(attempts[1].at, last)
    ensures !TimedLock(attempts, last).acquired && TimedLock(attempts, last).forced == 1
  {
    assert attempts[1..][0] == attempts[1];
  }

  /** Because the elapsed time is truncated to 32 bits, a clock reading
      earlier than `lastLockTime_` (by less than 2^32 - 10000 ms) counts as
      stale for a topic, but not for the directory. */
  lemma {:induction false} EarlierClockLooksStale(now: int, last: int)
    requires now < last && last - now < Wrap32 - LockTimeoutMs
    ensures Stale32(now, last) && !SignedStale(now, last)
  {
    assert Elapsed32(now, last) == now - last + Wrap32 by {
      assert 0 <= now - last + Wrap32 < Wrap32;
    }
  }

  /** For elapsed times that fit in 32 bits both rules agree. */
  lemma StaleRulesAgree(now: int, last: int)
    requires 0 <= now - last < Wrap32
    ensures Stale32(now, last) <==> SignedStale(now, last)
  {
  }
}
