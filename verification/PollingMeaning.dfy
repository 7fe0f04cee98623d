/** What the three retry machines deliver, said of the user's functions alone. */
module PollingMeaning {
  import opened Common
  import opened Polling
  import opened PollingLaws

  // -------------------------------------------------------- poll_with_state

  /** A job that throws ends the polling with its message. */
  lemma JobThrows<S, T>(max: int, interval: int, h: Hooks<S, T>, timer: nat -> Option<Error>, tried: nat, s: S, what: string)
    requires tried < max && h.job(tried + 1, s).1 == Threw(what)
    ensures PollFrom(max, interval, h, timer, tried, s) == Log([tried + 1], [], [Err(Error(-1, what))], false)
  {
  }

  /** So does a decision that throws. */
  lemma DecideThrows<S, T>(max: int, interval: int, h: Hooks<S, T>, timer: nat -> Option<Error>, tried: nat, s: S, r: Result<T>, what: string)
    requires tried < max && h.job(tried + 1, s).1 == Value(r)
    requires h.decide(tried + 1, h.job(tried + 1, s).0, r).1 == Threw(what)
    ensures PollFrom(max, interval, h, timer, tried, s) == Log([tried + 1], [], [Err(Error(-1, what))], false)
  {
  }

  /** Attempt `tried + 1`, made in state `s`, called back with `r`, was decided
      upon with `c`, and that left the state `s'`. */
  ghost predicate Decided<S, T>(h: Hooks<S, T>, tried: nat, s: S, r: Result<T>, c: Control, s': S) {
    var (s1, ran) := h.job(tried + 1, s);
    ran == Value(r) && h.decide(tried + 1, s1, r) == (s', Value(c))
  }

  /** Done delivers what the attempt called back with, value or error. */
  lemma DoneDelivers<S, T>(max: int, interval: int, h: Hooks<S, T>, timer: nat -> Option<Error>, tried: nat, s: S, r: Result<T>, s': S)
    requires tried < max && Decided(h, tried, s, r, Done, s')
    ensures PollFrom(max, interval, h, timer, tried, s) == Log([tried + 1], [], [r], false)
  {
  }

  /** Fail delivers the error it names; without one, the attempt's own, and for
      an attempt that succeeded an error that says so. Never a success. */
  lemma FailDelivers<S, T>(max: int, interval: int, h: Hooks<S, T>, timer: nat -> Option<Error>, tried: nat, s: S, r: Result<T>,
                           named: Option<Error>, s': S)
    requires tried < max && Decided(h, tried, s, r, Fail(named), s')
    ensures var e := match named
                     case Some(e) => e
                     case None => if r.Err? then r.error else Error(2, "poll_with_state: fail requested without error");
            PollFrom(max, interval, h, timer, tried, s) == Log([tried + 1], [], [Err(e)], false)
  {
  }

  /** A retry with attempts left waits for the delay it names, else the interval.
      If the wait fails its error is delivered; otherwise the next attempt is
      made in the state the decision left. */
  lemma RetryGoesOn<S, T>(max: int, interval: int, h: Hooks<S, T>, timer: nat -> Option<Error>, tried: nat, s: S, r: Result<T>,
                          after: Option<int>, s': S)
    requires tried + 1 < max && Decided(h, tried, s, r, Retry(after), s')
    ensures var delay := if after.Some? then after.value else interval;
            var rest := PollFrom(max, interval, h, timer, tried + 1, s');
            PollFrom(max, interval, h, timer, tried, s) ==
            match timer(tried + 1)
            case Some(lost) => Log([tried + 1], [delay], [Err(lost)], false)
            case None => Log([tried + 1] + rest.attempts, [delay] + rest.waits, rest.delivered, rest.ranOut)
  {
  }

  /** A retry on the last attempt delivers the error the exhaustion hook returns
      for that attempt's state and result, or its message if it throws; there is
      no wait. */
  lemma ExhaustionDelivers<S, T>(max: int, interval: int, h: Hooks<S, T>, timer: nat -> Option<Error>, tried: nat, s: S, r: Result<T>,
                                 after: Option<int>, s': S)
    requires tried + 1 == max && Decided(h, tried, s, r, Retry(after), s')
    ensures PollFrom(max, interval, h, timer, tried, s) ==
            match h.onExhausted(max, s', r)
            case Value(e) => Log([tried + 1], [], [Err(e)], false)
            case Threw(what) => Log([tried + 1], [], [Err(Error(-1, what))], false)
  {
  }

  /** A run of retries: attempt `i` is made in `states[i - 1]`, calls back with
      `results[i - 1]` and leaves `states[i]`, and the wait after it succeeds. */
  ghost predicate Retries<S, T>(h: Hooks<S, T>, timer: nat -> Option<Error>, states: seq<S>, results: seq<Result<T>>, delays: seq<Option<int>>) {
    && |states| == |results| + 1 == |delays| + 1
    && forall i :: 0 <= i < |results| ==> RetriedAt(h, timer, states, results, delays, i)
  }

  ghost predicate RetriedAt<S, T>(h: Hooks<S, T>, timer: nat -> Option<Error>, states: seq<S>, results: seq<Result<T>>,
                                  delays: seq<Option<int>>, i: nat)
    requires i < |results| && |states| == |results| + 1 == |delays| + 1
  {
    Decided(h, i, states[i], results[i], Retry(delays[i]), states[i + 1]) && timer(i + 1).None?
  }

  function Waits(delays: seq<Option<int>>, interval: int): seq<int> {
    seq(|delays|, i requires 0 <= i < |delays| => if delays[i].Some? then delays[i].value else interval)
  }

  /** Over whole runs: after any number of retries the rest is that of polling
      from the state they left. */
  lemma {:induction false} RetriesThread<S, T>(max: int, interval: int, h: Hooks<S, T>, timer: nat -> Option<Error>,
                                               states: seq<S>, results: seq<Result<T>>, delays: seq<Option<int>>)
    requires Retries(h, timer, states, results, delays) && |results| < max
    ensures var n := |results|;
            var rest := PollFrom(max, interval, h, timer, n, states[n]);
            PollFrom(max, interval, h, timer, 0, states[0])
            == Log(seq(n, i => i + 1) + rest.attempts, Waits(delays, interval) + rest.waits, rest.delivered, rest.ranOut)
    decreases |results|
  {
    if results != [] {
      var k := |results| - 1;
      assert RetriedAt(h, timer, states, results, delays, k);
      var st, re, de := states[..k + 1], results[..k], delays[..k];
      forall i | 0 <= i < k ensures RetriedAt(h, timer, st, re, de, i) {
        assert RetriedAt(h, timer, states, results, delays, i);
      }
      RetriesThread(max, interval, h, timer, st, re, de);
      RetryGoesOn(max, interval, h, timer, k, states[k], results[k], delays[k], states[k + 1]);
      var delay := if delays[k].Some? then delays[k].value else interval;
      assert Waits(delays, interval) == Waits(delays[..k], interval) + [delay];
      assert seq(k + 1, i => i + 1) == seq(k, i => i + 1) + [k + 1];
      var rest := PollFrom(max, interval, h, timer, k + 1, states[k + 1]);
      Regroup(seq(k, i => i + 1), k + 1, rest.attempts);
      Regroup(Waits(delays[..k], interval), delay, rest.waits);
    } else {
      var rest := PollFrom(max, interval, h, timer, 0, states[0]);
      assert [] + rest.attempts == rest.attempts && [] + rest.waits == rest.waits;
      assert seq(0, i => i + 1) == [] && Waits(delays, interval) == [];
    }
  }

  lemma Regroup<A>(a: seq<A>, x: A, b: seq<A>)
    ensures a + ([x] + b) == (a + [x]) + b
  {
  }

  /** Three attempts, each of which is retried, and a hook with its own error:
      that error is delivered. */
  lemma ThreeTries(interval: int, timer: nat -> Option<Error>)
    requires timer(1).None? && timer(2).None?
    ensures var h := Hooks((i: nat, s: int) => (s + i, Value(Ok(0))), (i: nat, s: int, r: Result<int>) => (s, Value(Retry(None))),
                           (i: nat, s: int, r: Result<int>) => Value(Error(123, "custom")));
            PollFrom(3, interval, h, timer, 0, 0) == Log([1, 2, 3], [interval, interval], [Err(Error(123, "custom"))], false)
  {
    var h := Hooks((i: nat, s: int) => (s + i, Value(Ok(0))), (i: nat, s: int, r: Result<int>) => (s, Value(Retry(None))),
                   (i: nat, s: int, r: Result<int>) => Value(Error(123, "custom")));
    ExhaustionDelivers(3, interval, h, timer, 2, 3, Ok(0), None, 6);
    RetryGoesOn(3, interval, h, timer, 1, 1, Ok(0), None, 3);
    RetryGoesOn(3, interval, h, timer, 0, 0, Ok(0), None, 1);
  }

  // ------------------------------------------------------------- the others

  /** `retry_exponential_if` stops at the first attempt that succeeds, has an
      error not to be retried, or is the last allowed, and delivers what that
      attempt called back with; or at the first wait that fails. */
  lemma {:induction false} RetryDelivers<T>(max: int, delay: int, run: nat -> Result<T>, shouldRetry: Error -> bool,
                                            timer: nat -> Option<Error>, tried: nat, k: nat)
    requires tried < k
    requires forall i: nat :: tried < i < k ==> run(i).Err? && i < max && shouldRetry(run(i).error) && timer(i).None?
    ensures run(k).Ok? || k >= max || !shouldRetry(run(k).error) ==>
              RetryFrom(max, delay, run, shouldRetry, timer, tried).delivered == [run(k)]
    ensures run(k).Err? && k < max && shouldRetry(run(k).error) && timer(k).Some? ==>
              RetryFrom(max, delay, run, shouldRetry, timer, tried).delivered == [Err(timer(k).value)]
    decreases k - tried
  {
    if tried + 1 < k {
      RetryDelivers(max, delay * 2, run, shouldRetry, timer, tried + 1, k);
    }
  }

  /** `poll_if` stops at the first attempt with a satisfying value, which it
      delivers, or with an error that is not to be retried or is on the last
      allowed attempt, which it delivers; or at the first wait that fails. When
      all attempts were made and the last wait is over it reports exhaustion. */
  lemma {:induction false} PollIfDelivers<T>(max: int, interval: int, run: nat -> Result<T>, satisfied: T -> bool,
                                             retryOn: Error -> bool, timer: nat -> Option<Error>, tried: nat, k: nat)
    requires tried < k <= max
    requires forall i: nat :: tried < i < k ==>
                                (if run(i).Ok? then !satisfied(run(i).value) else retryOn(run(i).error)) && timer(i).None?
    ensures var d := PollIfFrom(max, interval, run, satisfied, retryOn, timer, tried).delivered;
            if run(k).Ok? && satisfied(run(k).value) then d == [run(k)]
            else if run(k).Err? && (!retryOn(run(k).error) || k == max) then d == [run(k)]
            else if timer(k).Some? then d == [Err(timer(k).value)]
            else k == max ==> d == [Err(Error(3, "Polling attempts exhausted"))]
    decreases k - tried
  {
    if tried + 1 < k {
      PollIfDelivers(max, interval, run, satisfied, retryOn, timer, tried + 1, k);
    }
  }
}
