/** Three retry machines: `poll_with_state`, `poll_if` and
    `retry_exponential_if`. The environment is given as functions: what the
    i-th execution calls back with, and whether the wait after attempt i fails. */
module Polling {
  import opened Common

  datatype Control = Done | Retry(after: Option<int>) | Fail(error: Option<Error>)

  /** A call into user code: it returns or it throws. */
  datatype Thrown<+A> = Value(v: A) | Threw(what: string)

  datatype Hooks<!S, !T> = Hooks(
    job: (nat, S) -> (S, Thrown<Result<T>>),
    decide: (nat, S, Result<T>) -> (S, Thrown<Control>),
    onExhausted: (nat, S, Result<T>) -> Thrown<Error>)

  /** `ranOut` is set where an attempt is refused for want of attempts left. */
  datatype Log<+T> = Log(attempts: seq<nat>, waits: seq<int>, delivered: seq<Result<T>>, ranOut: bool)

  const EXHAUSTED := Error(3, "Polling attempts exhausted")
  const NO_ERROR := Error(2, "poll_with_state: fail requested without error")

  function Deliver<T>(r: Result<T>): Log<T> {
    Log([], [], [r], false)
  }

  function Tried<T>(attempt: nat, rest: Log<T>): Log<T> {
    rest.(attempts := [attempt] + rest.attempts)
  }

  function Waited<T>(delay: int, rest: Log<T>): Log<T> {
    rest.(waits := [delay] + rest.waits)
  }

  // -------------------------------------------------------- poll_with_state

  /** What becomes of one attempt: a delivery, or a wait before the next. */
  datatype Verdict<!S, +T> = Final(r: Result<T>) | Again(s: S, delay: int)

  function Judge<S, T>(max: int, interval: int, h: Hooks<S, T>, attempt: nat, s: S): Verdict<S, T> {
    var (s1, ran) := h.job(attempt, s);
    match ran
    case Threw(what) => Final(Err(Error(-1, what)))
    case Value(r) =>
      var (s2, decided) := h.decide(attempt, s1, r);
      match decided
      case Threw(what) => Final(Err(Error(-1, what)))
      case Value(Done) => Final(r)
      case Value(Fail(Some(e))) => Final(Err(e))
      case Value(Fail(None)) => Final(Err(if r.Err? then r.error else NO_ERROR))
      case Value(Retry(after)) =>
        if attempt >= max then
          match h.onExhausted(attempt, s2, r)
          case Value(e) => Final(Err(e))
          case Threw(what) => Final(Err(Error(-1, what)))
        else
          Again(s2, if after.Some? then after.value else interval)
  }

  function PollFrom<S, T>(max: int, interval: int, h: Hooks<S, T>, timer: nat -> Option<Error>, tried: nat, s: S): Log<T>
    decreases max - tried
  {
    if tried >= max then Deliver<T>(Err(EXHAUSTED)).(ranOut := true)
    else
      var attempt := tried + 1;
      Tried(attempt,
            match Judge(max, interval, h, attempt, s)
            case Final(r) => Deliver(r)
            case Again(s', delay) =>
              Waited(delay,
                     match timer(attempt)
                     case Some(e) => Deliver(Err(e))
                     case None => PollFrom(max, interval, h, timer, attempt, s')))
  }

  method PollWithState<S, T>(max: int, interval: int, initial: S, h: Hooks<S, T>, timer: nat -> Option<Error>)
    returns (log: Log<T>)
    ensures log == PollFrom(max, interval, h, timer, 0, initial)
  {
    var attempt: nat, state := 0, initial;
    var attempts: seq<nat>, waits: seq<int> := [], [];
    ghost var whole := PollFrom(max, interval, h, timer, 0, initial);
    while true
      invariant whole == After(attempts, waits, PollFrom(max, interval, h, timer, attempt, state))
      decreases max - attempt
    {
      if attempt >= max {
        return Log(attempts, waits, [Err(EXHAUSTED)], true);
      }
      attempt := attempt + 1;
      ghost var state0, attempts0, waits0 := state, attempts, waits;
      attempts := attempts + [attempt];
      var (s1, ran) := h.job(attempt, state);
      if ran.Threw? {
        return Log(attempts, waits, [Err(Error(-1, ran.what))], false);
      }
      var r := ran.v;
      var (s2, decided) := h.decide(attempt, s1, r);
      state := s2;
      if decided.Threw? {
        return Log(attempts, waits, [Err(Error(-1, decided.what))], false);
      }
      var ctrl := decided.v;
      if ctrl.Done? {
        return Log(attempts, waits, [r], false);
      }
      if ctrl.Fail? {
        var err := if ctrl.error.Some? then ctrl.error.value else if r.Err? then r.error else NO_ERROR;
        return Log(attempts, waits, [Err(err)], false);
      }
      if attempt >= max {
        var exhausted := h.onExhausted(attempt, state, r);
        var err := if exhausted.Value? then exhausted.v else Error(-1, exhausted.what);
        return Log(attempts, waits, [Err(err)], false);
      }
      var delay := if ctrl.after.Some? then ctrl.after.value else interval;
      waits := waits + [delay];
      AfterOne(attempts0, waits0, attempt, delay,
               match timer(attempt) case Some(e) => Deliver(Err(e)) case None => PollFrom(max, interval, h, timer, attempt, state));
      if timer(attempt).Some? {
        return Log(attempts, waits, [Err(timer(attempt).value)], false);
      }
    }
  }

  /** A log continued after `attempts` and `waits`. */
  function After<T>(attempts: seq<nat>, waits: seq<int>, rest: Log<T>): Log<T> {
    rest.(attempts := attempts + rest.attempts, waits := waits + rest.waits)
  }

  lemma AfterOne<T>(attempts: seq<nat>, waits: seq<int>, attempt: nat, delay: int, rest: Log<T>)
    ensures After(attempts, waits, Tried(attempt, Waited(delay, rest)))
         == After(attempts + [attempt], waits + [delay], rest)
  {
    assert attempts + ([attempt] + rest.attempts) == attempts + [attempt] + rest.attempts;
    assert waits + ([delay] + rest.waits) == waits + [delay] + rest.waits;
  }

  // ----------------------------------------------------------------- poll_if

  function PollIfFrom<T>(max: int, interval: int, run: nat -> Result<T>, satisfied: T -> bool,
                         retryOn: Error -> bool, timer: nat -> Option<Error>, tried: nat): Log<T>
    decreases max - tried
  {
    if tried >= max then Deliver<T>(Err(EXHAUSTED)).(ranOut := true)
    else
      var attempt := tried + 1;
      var r := run(attempt);
      var stop := if r.Ok? then satisfied(r.value) else !retryOn(r.error) || attempt >= max;
      Tried(attempt,
            if stop then Deliver(r)
            else Waited(interval,
                        match timer(attempt)
                        case Some(e) => Deliver(Err(e))
                        case None => PollIfFrom(max, interval, run, satisfied, retryOn, timer, attempt)))
  }

  method PollIf<T>(max: int, interval: int, run: nat -> Result<T>, satisfied: T -> bool,
                   retryOn: Error -> bool, timer: nat -> Option<Error>) returns (log: Log<T>)
    ensures log == PollIfFrom(max, interval, run, satisfied, retryOn, timer, 0)
  {
    var attempt: nat := 0;
    var attempts: seq<nat>, waits: seq<int> := [], [];
    ghost var whole := PollIfFrom(max, interval, run, satisfied, retryOn, timer, 0);
    while attempt < max
      invariant whole == After(attempts, waits, PollIfFrom(max, interval, run, satisfied, retryOn, timer, attempt))
    {
      attempt := attempt + 1;
      var r := run(attempt);
      if r.Ok? {
        if satisfied(r.value) {
          return Log(attempts + [attempt], waits, [r], false);
        }
      } else if !retryOn(r.error) || attempt >= max {
        return Log(attempts + [attempt], waits, [r], false);
      }
      AfterOne(attempts, waits, attempt, interval,
               match timer(attempt) case Some(e) => Deliver(Err(e))
               case None => PollIfFrom(max, interval, run, satisfied, retryOn, timer, attempt));
      attempts, waits := attempts + [attempt], waits + [interval];
      if timer(attempt).Some? {
        return Log(attempts, waits, [Err(timer(attempt).value)], false);
      }
    }
    log := Log(attempts, waits, [Err(EXHAUSTED)], true);
  }

  // ---------------------------------------------------- retry_exponential_if

  /** Unlike the others it executes before it looks at the limit. */
  function RetryFrom<T>(max: int, delay: int, run: nat -> Result<T>, shouldRetry: Error -> bool,
                        timer: nat -> Option<Error>, tried: nat): Log<T>
    decreases max - tried
  {
    var attempt := tried + 1;
    var r := run(attempt);
    Tried(attempt,
          if r.Ok? || attempt >= max || !shouldRetry(r.error) then Deliver(r)
          else Waited(delay,
                      match timer(attempt)
                      case Some(e) => Deliver(Err(e))
                      case None => RetryFrom(max, delay * 2, run, shouldRetry, timer, attempt)))
  }

  method RetryExponentialIf<T>(max: int, initialDelay: int, run: nat -> Result<T>, shouldRetry: Error -> bool,
                               timer: nat -> Option<Error>) returns (log: Log<T>)
    ensures log == RetryFrom(max, initialDelay, run, shouldRetry, timer, 0)
  {
    var attempt: nat, delay := 0, initialDelay;
    var attempts: seq<nat>, waits: seq<int> := [], [];
    ghost var whole := RetryFrom(max, initialDelay, run, shouldRetry, timer, 0);
    while true
      invariant whole == After(attempts, waits, RetryFrom(max, delay, run, shouldRetry, timer, attempt))
      decreases max - attempt
    {
      attempt := attempt + 1;
      var r := run(attempt);
      if r.Ok? || attempt >= max || !shouldRetry(r.error) {
        return Log(attempts + [attempt], waits, [r], false);
      }
      AfterOne(attempts, waits, attempt, delay,
               match timer(attempt) case Some(e) => Deliver(Err(e))
               case None => RetryFrom(max, delay * 2, run, shouldRetry, timer, attempt));
      attempts, waits := attempts + [attempt], waits + [delay];
      if timer(attempt).Some? {
        return Log(attempts, waits, [Err(timer(attempt).value)], false);
      }
      delay := delay * 2;
    }
  }
}
