/** The bounded retry loops around every transaction (api/helpers.go, lib/rand/jitter.go). */
module Retry {
  import opened Base

  const MAX_CAS_ATTEMPTS: nat := 3
  const MAX_DEADLOCK_ATTEMPTS: nat := 6
  const MILLISECOND: nat := 1_000_000
  const DEADLOCK_RETRY_BACKOFF: nat := 2 * MILLISECOND

  /** What the client of a request is told. */
  datatype Answer = Done | BadRequest | NotFound | Conflict | ServerError

  /** How one run of a transaction body ends. */
  datatype Outcome =
    | Applied                    // committed (or nothing to do)
    | Conflicted                 // the guarded update matched no row
    | Deadlocked                 // rolled back as a deadlock victim
    | Failed(answer: Answer)     // any other error

  /** Where a request stands between two runs of its body. Both counters start at 1. */
  datatype Progress = Trying(cas: nat, deadlocks: nat) | Answered(answer: Answer)

  const START: Progress := Trying(1, 1)

  predicate InBounds(p: Progress) {
    p.Trying? ==> 1 <= p.cas <= MAX_CAS_ATTEMPTS && 1 <= p.deadlocks <= MAX_DEADLOCK_ATTEMPTS
  }

  /** The retry policy, one outcome at a time. An answered request stays answered. */
  function Advance(p: Progress, o: Outcome): (r: Progress)
    ensures InBounds(p) ==> InBounds(r)
  {
    match p
    case Answered(_) => p
    case Trying(cas, deadlocks) =>
      match o
      case Applied => Answered(Done)
      case Failed(a) => Answered(a)
      case Conflicted => if cas >= MAX_CAS_ATTEMPTS then Answered(Conflict) else Trying(cas + 1, 1)
      case Deadlocked =>
        if deadlocks >= MAX_DEADLOCK_ATTEMPTS then Answered(ServerError) else Trying(cas, deadlocks + 1)
  }

  /** The policy applied to the first n outcomes of a request, numbered from `from`. */
  function Replay(p: Progress, body: nat -> Outcome, from: nat, n: nat): Progress {
    if n == 0 then p else Advance(Replay(p, body, from, n - 1), body(from + n - 1))
  }

  lemma {:induction false} ReplaySplit(p: Progress, body: nat -> Outcome, from: nat, m: nat, n: nat)
    ensures Replay(p, body, from, m + n) == Replay(Replay(p, body, from, m), body, from + m, n)
  {
    if n > 0 {
      ReplaySplit(p, body, from, m, n - 1);
    }
  }

  type Word64 = n: nat | n < 0x1_0000_0000_0000_0000

  /** A random duration for the given one, from a 64-bit random word. */
  function Jitter(d: int, word: Word64): (r: int)
    ensures d <= 0 ==> r == 0
    ensures d > 0 ==> d / 2 <= r < d
  {
    if d <= 0 then 0
    else
      var half := d / 2;
      half + (word / 4) % (d - half)
  }

  function Pow2(n: nat): (r: nat)
    ensures r >= 1
  {
    if n == 0 then 1 else 2 * Pow2(n - 1)
  }

  function Backoff(n: nat): int {
    DEADLOCK_RETRY_BACKOFF * Pow2(n)
  }

  /** A sleep between n + 1 runs: nothing for one run, otherwise within these bounds. */
  ghost predicate SleptFor(n: nat, slept: nat) {
    && MILLISECOND * (Pow2(n) - 1) <= slept
    && (n > 0 ==> slept < DEADLOCK_RETRY_BACKOFF * (Pow2(n) - 1))
    && (n == 0 ==> slept == 0)
  }

  /** One more sleep, of a jittered backoff. */
  lemma SleptLonger(n: nat, slept: nat, word: Word64)
    requires SleptFor(n, slept)
    ensures var nap := Jitter(Backoff(n), word); nap >= 0 && SleptFor(n + 1, slept + nap)
    ensures Backoff(n + 1) == 2 * Backoff(n)
  {
    hide Jitter;
    var p := Pow2(n);
    var nap := Jitter(Backoff(n), word);
    assert Backoff(n) == 2 * (MILLISECOND * p);
  }

  /** The n runs numbered from `from` were all deadlock victims. */
  ghost predicate AllDeadlocked(body: nat -> Outcome, from: nat, n: nat) {
    n == 0 || (AllDeadlocked(body, from, n - 1) && body(from + n - 1).Deadlocked?)
  }

  /** No run before number n left anything in the database. */
  ghost predicate Undone(body: nat -> Outcome, n: nat) {
    n == 0 || (Undone(body, n - 1) && (body(n - 1).Deadlocked? || body(n - 1).Conflicted?))
  }

  /** `retryOnDeadlock`: body(from + k) is how the k-th run of the body ends, words(k) the random
      word drawn before the next one. */
  method RetryOnDeadlock(body: nat -> Outcome, from: nat, words: nat -> Word64)
    returns (result: Outcome, runs: nat, slept: nat)
    ensures 1 <= runs <= MAX_DEADLOCK_ATTEMPTS
    ensures result == body(from + runs - 1)
    ensures AllDeadlocked(body, from, runs - 1)
    ensures result.Deadlocked? ==> runs == MAX_DEADLOCK_ATTEMPTS
    ensures MILLISECOND * (Pow2(runs - 1) - 1) <= slept
    ensures runs > 1 ==> slept < DEADLOCK_RETRY_BACKOFF * (Pow2(runs - 1) - 1)
    ensures runs == 1 ==> slept == 0
  {
    var backoff := DEADLOCK_RETRY_BACKOFF;
    runs, slept := 1, 0;
    result := body(from);
    while result.Deadlocked? && runs < MAX_DEADLOCK_ATTEMPTS
      invariant 1 <= runs <= MAX_DEADLOCK_ATTEMPTS
      invariant result == body(from + runs - 1)
      invariant AllDeadlocked(body, from, runs - 1)
      invariant backoff == Backoff(runs - 1)
      invariant SleptFor(runs - 1, slept)
    {
      hide Jitter, Backoff, SleptFor;
      var nap := Jitter(backoff, words(runs - 1));
      SleptLonger(runs - 1, slept, words(runs - 1));
      slept := slept + nap;
      backoff := backoff * 2;
      result := body(from + runs);
      runs := runs + 1;
    }
  }

  /** A request that uses up every run sleeps at least 31 ms and less than 62 ms. */
  lemma SleepOfAFullRetry(slept: nat)
    requires MILLISECOND * (Pow2(MAX_DEADLOCK_ATTEMPTS - 1) - 1) <= slept
    requires slept < DEADLOCK_RETRY_BACKOFF * (Pow2(MAX_DEADLOCK_ATTEMPTS - 1) - 1)
    ensures 31 * MILLISECOND <= slept < 62 * MILLISECOND
  {
    assert Pow2(5) == 2 * Pow2(4) && Pow2(4) == 2 * Pow2(3) && Pow2(3) == 2 * Pow2(2);
  }

  lemma {:induction false} ReplayDeadlocks(cas: nat, body: nat -> Outcome, from: nat, n: nat)
    requires n < MAX_DEADLOCK_ATTEMPTS
    requires AllDeadlocked(body, from, n)
    ensures Replay(Trying(cas, 1), body, from, n) == Trying(cas, n + 1)
  {
    if n > 0 {
      ReplayDeadlocks(cas, body, from, n - 1);
    }
  }

  lemma {:induction false} DeadlocksAreUndone(body: nat -> Outcome, used: nat, n: nat)
    requires Undone(body, used) && AllDeadlocked(body, used, n)
    ensures Undone(body, used + n)
  {
    if n > 0 {
      DeadlocksAreUndone(body, used, n - 1);
    }
  }

  /** After `used` runs the request is about to begin CAS attempt number `cas`. */
  ghost predicate StandsAt(body: nat -> Outcome, used: nat, cas: nat) {
    Replay(START, body, 0, used) == Trying(cas, 1) && Undone(body, used)
  }

  /** The policy answers exactly at run number `used`, and no earlier run left anything behind. */
  ghost predicate EndsAt(body: nat -> Outcome, used: nat, answer: Answer) {
    && used >= 1
    && Replay(START, body, 0, used - 1).Trying?
    && Replay(START, body, 0, used) == Answered(answer)
    && Undone(body, used - 1)
  }

  /** The run that is no deadlock, or the last one allowed. */
  lemma LastRun(body: nat -> Outcome, cas: nat, last: nat, runs: nat, result: Outcome)
    requires Replay(START, body, 0, last) == Trying(cas, runs) && Undone(body, last) && result == body(last)
    requires result.Deadlocked? ==> runs == MAX_DEADLOCK_ATTEMPTS
    ensures result.Conflicted? && cas < MAX_CAS_ATTEMPTS ==> StandsAt(body, last + 1, cas + 1)
    ensures result.Conflicted? && cas >= MAX_CAS_ATTEMPTS ==> EndsAt(body, last + 1, Conflict)
    ensures result.Applied? ==> EndsAt(body, last + 1, Done)
    ensures result.Failed? ==> EndsAt(body, last + 1, result.answer)
    ensures result.Deadlocked? ==> EndsAt(body, last + 1, ServerError)
  {
    assert Replay(START, body, 0, last + 1) == Advance(Trying(cas, runs), result);
    assert result.Conflicted? ==> Undone(body, last + 1);
    hide Replay, Undone;
  }

  /** One pass of the CAS loop, made of `runs` runs of the body. */
  lemma OnePass(body: nat -> Outcome, cas: nat, used: nat, runs: nat, result: Outcome)
    requires 1 <= runs <= MAX_DEADLOCK_ATTEMPTS
    requires StandsAt(body, used, cas)
    requires AllDeadlocked(body, used, runs - 1) && result == body(used + runs - 1)
    requires result.Deadlocked? ==> runs == MAX_DEADLOCK_ATTEMPTS
    ensures result.Conflicted? && cas < MAX_CAS_ATTEMPTS ==> StandsAt(body, used + runs, cas + 1)
    ensures result.Conflicted? && cas >= MAX_CAS_ATTEMPTS ==> EndsAt(body, used + runs, Conflict)
    ensures result.Applied? ==> EndsAt(body, used + runs, Done)
    ensures result.Failed? ==> EndsAt(body, used + runs, result.answer)
    ensures result.Deadlocked? ==> EndsAt(body, used + runs, ServerError)
  {
    hide Replay, Undone, AllDeadlocked, EndsAt, Advance;
    DeadlocksAreUndone(body, used, runs - 1);
    ReplaySplit(START, body, 0, used, runs - 1);
    ReplayDeadlocks(cas, body, used, runs - 1);
    var last := used + runs - 1;
    assert Replay(START, body, 0, last) == Trying(cas, runs) && Undone(body, last);
    hide StandsAt;
    LastRun(body, cas, last, runs, result);
  }

  /** The body of the CAS loop: up to 6 runs, which end in a conflict or with the answer. */
  method OneAttempt(body: nat -> Outcome, words: nat -> Word64, ghost cas: nat, before: nat)
    returns (answer: Option<Answer>, used: nat)
    requires StandsAt(body, before, cas)
    ensures before < used <= before + MAX_DEADLOCK_ATTEMPTS
    ensures answer.Some? ==> EndsAt(body, used, answer.value)
    ensures answer.None? && cas < MAX_CAS_ATTEMPTS ==> StandsAt(body, used, cas + 1)
    ensures answer.None? && cas >= MAX_CAS_ATTEMPTS ==> EndsAt(body, used, Conflict)
  {
    var result, runs, _ := RetryOnDeadlock(body, before, words);
    OnePass(body, cas, before, runs, result);
    hide StandsAt, EndsAt, AllDeadlocked, Pow2;
    used := before + runs;
    match result {
      case Conflicted => answer := None;
      case Applied => answer := Some(Done);
      case Failed(a) => answer := Some(a);
      case Deadlocked => answer := Some(ServerError);
    }
  }

  /** `updateIncident`, `updateVisit` and `updateFieldReport`: the CAS loop around the deadlock loop.
      body(k) is how the k-th attempt of the whole request ends. The two nested loops answer exactly
      when and what the one-step policy answers, after at most 18 attempts; every attempt before the
      last was undone, so an applied attempt is the last one and the only one. */
  method UpdateRecord(body: nat -> Outcome, words: nat -> Word64) returns (answer: Answer, used: nat)
    ensures used <= MAX_CAS_ATTEMPTS * MAX_DEADLOCK_ATTEMPTS
    ensures EndsAt(body, used, answer)
  {
    assert StandsAt(body, 0, 1);
    hide StandsAt, EndsAt;
    used := 0;
    for attempt := 0 to MAX_CAS_ATTEMPTS
      invariant used <= attempt * MAX_DEADLOCK_ATTEMPTS
      invariant attempt < MAX_CAS_ATTEMPTS ==> StandsAt(body, used, attempt + 1)
      invariant attempt == MAX_CAS_ATTEMPTS ==> EndsAt(body, used, Conflict)
    {
      var answered;
      answered, used := OneAttempt(body, words, attempt + 1, used);
      if answered.Some? {
        return answered.value, used;
      }
    }
    answer := Conflict;
  }
}
