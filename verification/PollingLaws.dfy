/** What the three machines promise, and that they agree. */
module PollingLaws {
  import opened Common
  import opened Polling

  // ------------------------------------------- poll_with_state, on its own

  /** The user state before attempt `i + 1`, as long as attempts 1..i all asked
      for another one. */
  function StateAt<S, T>(max: int, interval: int, h: Hooks<S, T>, s: S, i: nat): S {
    if i == 0 then s
    else
      match Judge(max, interval, h, i, StateAt(max, interval, h, s, i - 1))
      case Again(s', _) => s'
      case Final(_) => s
  }

  /** What attempt `i` comes to. */
  function VerdictAt<S, T>(max: int, interval: int, h: Hooks<S, T>, s: S, i: nat): Verdict<S, T>
    requires i >= 1
  {
    Judge(max, interval, h, i, StateAt(max, interval, h, s, i - 1))
  }

  /** The log of attempts `tried + 1` to `k`, the last of which ended the run. */
  ghost predicate EndsAt<S, T>(max: int, interval: int, h: Hooks<S, T>, timer: nat -> Option<Error>, s: S, tried: nat, k: nat, log: Log<T>) {
    && tried < k <= max && !log.ranOut
    && |log.attempts| == k - tried && (forall i :: 0 <= i < k - tried ==> log.attempts[i] == tried + 1 + i)
    && |log.waits| >= k - tried - 1
    && (forall i :: tried < i < k ==> timer(i) == None && VerdictAt(max, interval, h, s, i).Again?
                                      && log.waits[i - tried - 1] == VerdictAt(max, interval, h, s, i).delay)
    && match VerdictAt(max, interval, h, s, k)
       case Final(r) => log.delivered == [r] && |log.waits| == k - tried - 1
       case Again(_, delay) => timer(k).Some? && log.delivered == [Err(timer(k).value)]
                               && |log.waits| == k - tried && log.waits[k - tried - 1] == delay
  }

  lemma {:induction false} PollEnds<S, T>(max: int, interval: int, h: Hooks<S, T>, timer: nat -> Option<Error>, s: S, tried: nat) returns (k: nat)
    requires tried < max
    ensures EndsAt(max, interval, h, timer, s, tried, k, PollFrom(max, interval, h, timer, tried, StateAt(max, interval, h, s, tried)))
    decreases max - tried
  {
    var attempt := tried + 1;
    var log := PollFrom(max, interval, h, timer, tried, StateAt(max, interval, h, s, tried));
    match VerdictAt(max, interval, h, s, attempt)
    case Final(r) => k := attempt;
    case Again(s', delay) =>
      if timer(attempt).Some? {
        k := attempt;
      } else {
        assert attempt < max;
        k := PollEnds(max, interval, h, timer, s, attempt);
        var rest := PollFrom(max, interval, h, timer, attempt, StateAt(max, interval, h, s, attempt));
        assert log == Tried(attempt, Waited(delay, rest));
        EndsOneEarlier(max, interval, h, timer, s, tried, k, rest);
      }
  }

  lemma EndsOneEarlier<S, T>(max: int, interval: int, h: Hooks<S, T>, timer: nat -> Option<Error>, s: S, tried: nat, k: nat, rest: Log<T>)
    requires EndsAt(max, interval, h, timer, s, tried + 1, k, rest)
    requires timer(tried + 1) == None && VerdictAt(max, interval, h, s, tried + 1).Again?
    ensures EndsAt(max, interval, h, timer, s, tried, k,
                   Tried(tried + 1, Waited(VerdictAt(max, interval, h, s, tried + 1).delay, rest)))
  {
  }

  /** With at least one attempt allowed the run ends at the first attempt k that
      gives a verdict, exhausts the limit or loses its timer: attempts are
      numbered 1..k with k <= max, exactly one result is delivered, and the
      refusal for want of attempts is never reached. Otherwise nothing runs. */
  lemma PollRun<S, T>(max: int, interval: int, h: Hooks<S, T>, timer: nat -> Option<Error>, s: S) returns (k: nat)
    ensures var log := PollFrom(max, interval, h, timer, 0, s);
            if max >= 1 then EndsAt(max, interval, h, timer, s, 0, k, log)
            else log == Log([], [], [Err(EXHAUSTED)], true)
  {
    if max >= 1 {
      k := PollEnds(max, interval, h, timer, s, 0);
    } else {
      k := 0;
    }
  }

  lemma PollRunOnce<S, T>(max: int, interval: int, h: Hooks<S, T>, timer: nat -> Option<Error>, s: S)
    ensures var log := PollFrom(max, interval, h, timer, 0, s);
            && |log.delivered| == 1
            && (log.ranOut <==> max < 1)
            && |log.attempts| <= (if max >= 0 then max else 0)
            && log.attempts == seq(|log.attempts|, i => i + 1)
  {
    var k := PollRun(max, interval, h, timer, s);
  }

  // -------------------------------------------------------- the instances

  /** `poll_if` as an instance: stop on a satisfying value or a refused error,
      and when attempts run out deliver the last error if there was one. */
  function PollIfHooks<T>(run: nat -> Result<T>, satisfied: T -> bool, retryOn: Error -> bool): Hooks<bool, T> {
    Hooks(
      (attempt: nat, s: bool) => (s, Value(run(attempt))),
      (attempt: nat, s: bool, r: Result<T>) =>
        (s, Value(if (if r.Ok? then satisfied(r.value) else !retryOn(r.error)) then Done else Retry(None))),
      (attempt: nat, s: bool, r: Result<T>) => Value(if r.Err? then r.error else EXHAUSTED))
  }

  function Pow2(n: nat): nat {
    if n == 0 then 1 else 2 * Pow2(n - 1)
  }

  /** `retry_exponential_if` as an instance: the delay after attempt i is the
      initial delay times 2^(i-1). */
  function RetryHooks<T>(run: nat -> Result<T>, shouldRetry: Error -> bool, initialDelay: int): Hooks<bool, T> {
    Hooks(
      (attempt: nat, s: bool) => (s, Value(run(attempt))),
      (attempt: nat, s: bool, r: Result<T>) =>
        (s, Value(if r.Ok? || !shouldRetry(r.error) then Done
                  else Retry(Some(initialDelay * Pow2(if attempt > 0 then attempt - 1 else 0))))),
      (attempt: nat, s: bool, r: Result<T>) => Value(if r.Err? then r.error else EXHAUSTED))
  }

  lemma RetryJudged<T>(max: int, interval: int, initialDelay: int, run: nat -> Result<T>, shouldRetry: Error -> bool,
                       attempt: nat, s: bool)
    requires attempt >= 1
    ensures Judge(max, interval, RetryHooks(run, shouldRetry, initialDelay), attempt, s)
         == if run(attempt).Ok? || !shouldRetry(run(attempt).error) || attempt >= max then Final(run(attempt))
            else Again(s, initialDelay * Pow2(attempt - 1))
  {
  }

  lemma DelayDoubles(initialDelay: int, n: nat)
    ensures initialDelay * Pow2(n) * 2 == initialDelay * Pow2(n + 1)
  {
  }

  lemma {:induction false} RetryAgreesFrom<T>(max: int, interval: int, initialDelay: int, run: nat -> Result<T>,
                                              shouldRetry: Error -> bool, timer: nat -> Option<Error>, tried: nat, s: bool)
    requires tried < max
    ensures RetryFrom(max, initialDelay * Pow2(tried), run, shouldRetry, timer, tried)
         == PollFrom(max, interval, RetryHooks(run, shouldRetry, initialDelay), timer, tried, s)
    decreases max - tried
  {
    var attempt := tried + 1;
    RetryJudged(max, interval, initialDelay, run, shouldRetry, attempt, s);
    if run(attempt).Err? && attempt < max && shouldRetry(run(attempt).error) && timer(attempt).None? {
      DelayDoubles(initialDelay, tried);
      RetryAgreesFrom(max, interval, initialDelay, run, shouldRetry, timer, attempt, s);
    }
  }

  /** Same executions, same waits, same delivery, whatever the items and the
      timer do; with no attempt allowed it still executes once. */
  lemma RetryAgrees<T>(max: int, interval: int, initialDelay: int, run: nat -> Result<T>, shouldRetry: Error -> bool,
                       timer: nat -> Option<Error>)
    ensures RetryFrom(max, initialDelay, run, shouldRetry, timer, 0)
         == PollFrom(if max >= 1 then max else 1, interval, RetryHooks(run, shouldRetry, initialDelay), timer, 0, false)
  {
    assert initialDelay * Pow2(0) == initialDelay;
    if max >= 1 {
      RetryAgreesFrom(max, interval, initialDelay, run, shouldRetry, timer, 0, false);
    } else {
      RetryAgreesFrom(1, interval, initialDelay, run, shouldRetry, timer, 0, false);
      assert RetryFrom(max, initialDelay, run, shouldRetry, timer, 0) == RetryFrom(1, initialDelay, run, shouldRetry, timer, 0);
    }
  }

  lemma {:induction false} RetryRunFrom<T>(max: int, initialDelay: int, run: nat -> Result<T>, shouldRetry: Error -> bool,
                                           timer: nat -> Option<Error>, tried: nat)
    requires tried < max || tried == 0
    ensures var log := RetryFrom(max, initialDelay * Pow2(tried), run, shouldRetry, timer, tried);
            && |log.delivered| == 1 && !log.ranOut
            && 1 <= |log.attempts| && (tried + |log.attempts| <= max || |log.attempts| == 1)
            && |log.attempts| - 1 <= |log.waits| <= |log.attempts|
            && (forall i :: 0 <= i < |log.attempts| ==> log.attempts[i] == tried + 1 + i)
            && (forall i :: 0 <= i < |log.waits| ==> log.waits[i] == initialDelay * Pow2(tried + i))
    decreases max - tried
  {
    var attempt := tried + 1;
    if run(attempt).Err? && attempt < max && shouldRetry(run(attempt).error) && timer(attempt).None? {
      DelayDoubles(initialDelay, tried);
      RetryRunFrom(max, initialDelay, run, shouldRetry, timer, attempt);
    }
  }

  /** Attempts 1..k with k at most the limit, or one if none is allowed; the
      wait after attempt i is the initial delay times 2^(i-1). */
  lemma RetryRun<T>(max: int, initialDelay: int, run: nat -> Result<T>, shouldRetry: Error -> bool, timer: nat -> Option<Error>)
    ensures var log := RetryFrom(max, initialDelay, run, shouldRetry, timer, 0);
            && |log.delivered| == 1 && !log.ranOut
            && 1 <= |log.attempts| <= (if max >= 1 then max else 1)
            && log.attempts == seq(|log.attempts|, i => i + 1)
            && |log.attempts| - 1 <= |log.waits| <= |log.attempts|
            && (forall i :: 0 <= i < |log.waits| ==> log.waits[i] == initialDelay * Pow2(i))
  {
    assert initialDelay * Pow2(0) == initialDelay;
    RetryRunFrom(max, initialDelay, run, shouldRetry, timer, 0);
  }

  /** Attempt `i` ends the polling. */
  predicate Stops<T>(run: nat -> Result<T>, satisfied: T -> bool, retryOn: Error -> bool, i: nat) {
    if run(i).Ok? then satisfied(run(i).value) else !retryOn(run(i).error)
  }

  /** Nothing ends the polling before the last allowed attempt, and that one
      gives a value that does not satisfy. */
  ghost predicate LastUnsatisfied<T>(max: int, run: nat -> Result<T>, satisfied: T -> bool, retryOn: Error -> bool,
                                     timer: nat -> Option<Error>)
  {
    && max >= 1 && run(max).Ok? && !satisfied(run(max).value)
    && forall i: nat :: 0 < i < max ==> timer(i).None? && !Stops(run, satisfied, retryOn, i)
  }

  lemma {:induction false} ReachesLast<T>(max: int, interval: int, run: nat -> Result<T>, satisfied: T -> bool,
                                          retryOn: Error -> bool, timer: nat -> Option<Error>, tried: nat)
    requires tried < max
    ensures tried + |PollIfFrom(max, interval, run, satisfied, retryOn, timer, tried).attempts| == max <==>
            forall i: nat :: tried < i < max ==> timer(i).None? && !Stops(run, satisfied, retryOn, i)
    decreases max - tried
  {
    var attempt := tried + 1;
    if attempt < max {
      ReachesLast(max, interval, run, satisfied, retryOn, timer, attempt);
      var goesOn := timer(attempt).None? && !Stops(run, satisfied, retryOn, attempt);
      assert |PollIfFrom(max, interval, run, satisfied, retryOn, timer, tried).attempts|
          == 1 + if goesOn then |PollIfFrom(max, interval, run, satisfied, retryOn, timer, attempt).attempts| else 0;
    }
  }

  ghost predicate SameButForLastWait<T>(max: int, interval: int, run: nat -> Result<T>, satisfied: T -> bool,
                                        timer: nat -> Option<Error>, tried: nat, a: Log<T>, b: Log<T>)
  {
    && a.attempts == b.attempts
    && if max >= 1 && tried + |a.attempts| == max && run(max).Ok? && !satisfied(run(max).value) then
         && a.waits == b.waits + [interval]
         && b.delivered == [Err(EXHAUSTED)]
         && a.delivered == [Err(if timer(max).Some? then timer(max).value else EXHAUSTED)]
       else
         a.waits == b.waits && a.delivered == b.delivered
  }

  lemma PollIfJudged<T>(max: int, interval: int, run: nat -> Result<T>, satisfied: T -> bool, retryOn: Error -> bool,
                        attempt: nat, s: bool)
    ensures Judge(max, interval, PollIfHooks(run, satisfied, retryOn), attempt, s)
         == if (if run(attempt).Ok? then satisfied(run(attempt).value) else !retryOn(run(attempt).error)) then Final(run(attempt))
            else if attempt >= max then Final(Err(if run(attempt).Err? then run(attempt).error else EXHAUSTED))
            else Again(s, interval)
  {
  }

  lemma {:induction false} PollIfAgreesFrom<T>(max: int, interval: int, run: nat -> Result<T>, satisfied: T -> bool,
                                               retryOn: Error -> bool, timer: nat -> Option<Error>, tried: nat, s: bool)
    requires tried < max
    ensures SameButForLastWait(max, interval, run, satisfied, timer, tried,
                               PollIfFrom(max, interval, run, satisfied, retryOn, timer, tried),
                               PollFrom(max, interval, PollIfHooks(run, satisfied, retryOn), timer, tried, s))
    decreases max - tried
  {
    var attempt := tried + 1;
    var r := run(attempt);
    PollIfJudged(max, interval, run, satisfied, retryOn, attempt, s);
    if !(if r.Ok? then satisfied(r.value) else !retryOn(r.error)) && attempt < max && timer(attempt).None? {
      PollIfAgreesFrom(max, interval, run, satisfied, retryOn, timer, attempt, s);
      var a := PollIfFrom(max, interval, run, satisfied, retryOn, timer, attempt);
      var b := PollFrom(max, interval, PollIfHooks(run, satisfied, retryOn), timer, attempt, s);
      assert [interval] + (b.waits + [interval]) == [interval] + b.waits + [interval];
    }
  }

  /** `poll_if` runs the same executions as its instance and delivers the same,
      for every limit, with one exception: when the last allowed attempt gives
      an unsatisfying value it waits once more before it reports exhaustion, so
      only a failure of that last wait can make the deliveries differ. */
  lemma PollIfAgrees<T>(max: int, interval: int, run: nat -> Result<T>, satisfied: T -> bool,
                        retryOn: Error -> bool, timer: nat -> Option<Error>)
    ensures var a := PollIfFrom(max, interval, run, satisfied, retryOn, timer, 0);
            var b := PollFrom(max, interval, PollIfHooks(run, satisfied, retryOn), timer, 0, false);
            var last := LastUnsatisfied(max, run, satisfied, retryOn, timer);
            && a.attempts == b.attempts
            && a.waits == b.waits + (if last then [interval] else [])
            && (a.delivered == b.delivered <==> !(last && timer(max).Some? && timer(max).value != EXHAUSTED))
  {
    if max >= 1 {
      PollIfAgreesFrom(max, interval, run, satisfied, retryOn, timer, 0, false);
      ReachesLast(max, interval, run, satisfied, retryOn, timer, 0);
    }
  }

  /** One attempt, an unsatisfying value and a wait that fails: `poll_if`
      delivers the timer's error, its instance the exhaustion. */
  lemma DeliveriesDiffer(interval: int, lost: Error)
    requires lost != EXHAUSTED
    ensures var run := (i: nat) => Ok(0);
            var never, always, timer := (v: int) => false, (e: Error) => true, (i: nat) => Some(lost);
            && PollIfFrom(1, interval, run, never, always, timer, 0).delivered == [Err(lost)]
            && PollFrom(1, interval, PollIfHooks(run, never, always), timer, 0, false).delivered == [Err(EXHAUSTED)]
  {
  }
}
