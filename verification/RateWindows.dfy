/** The limiter over any window of a run, and over a burst. */
module RateWindows {
  import opened RateLimiter
  import opened RateDebt

  // ------------------------------------------------------- the bucket's cap

  predicate Capped<T>(lim: Limits, users: Table<T>) {
    forall u :: u in users ==> users[u].tokens <= lim.maxTokens
  }

  /** No entry ever holds more than a bucket, before a request is charged or
      after. */
  lemma ServedCapped<T>(lim: Limits, users: Table<T>, u: T, t: Clock)
    requires Sensible(lim) && Capped(lim, users)
    ensures Refilled(lim, Known(lim, users, u, t), t.refill).tokens <= lim.maxTokens
    ensures Capped(lim, Served(lim, users, u, t))
  {
  }

  lemma {:induction false} TallyCapped<T>(lim: Limits, u: T, run: seq<Request<T>>)
    requires Sensible(lim)
    ensures Capped(lim, TallyOf(lim, u, run).users)
  {
    if run != [] {
      var k := |run| - 1;
      TallyCapped(lim, u, run[..k]);
      ServedCapped(lim, TallyOf(lim, u, run[..k]).users, run[k].user, run[k].t);
    }
  }

  /** After a quiet time that refills a bucket, a resident has exactly one. */
  lemma FullAgain(lim: Limits, d: UserData, now: int)
    requires Sensible(lim) && d.tokens <= lim.maxTokens
    requires Elapsed(d.lastRequest, now) > 0 && d.tokens + Elapsed(d.lastRequest, now) * lim.refillRate >= lim.maxTokens
    ensures Refilled(lim, d, now) == UserData(lim.maxTokens, now)
  {
  }

  // ------------------------------------------------------------ any window

  /** The books of a window: as if its run began with a full bucket a second
      before its first request. `base` is the tally before the window, `first`
      the time of its first request. */
  function Shifted<T>(base: Tally<T>, first: int, y: Tally<T>): Tally<T>
    requires base.allowed <= y.allowed && base.residences <= y.residences
  {
    Tally(y.users, y.allowed - base.allowed, y.residences - base.residences + 1, first - SECOND,
          if y.residences == base.residences then first - SECOND else y.entered, y.now)
  }

  lemma ShiftedCount<T>(lim: Limits, u: T, base: Tally<T>, first: int, y: Tally<T>, r: Request<T>)
    requires base.allowed <= y.allowed && base.residences <= y.residences
    ensures base.allowed <= Count(lim, u, y, r).allowed && base.residences <= Count(lim, u, y, r).residences
    ensures Shifted(base, first, Count(lim, u, y, r)) == Count(lim, u, Shifted(base, first, y), r)
  {
  }

  /** The first request of the window puts them in order. The tally `base` counts
      a residence that begins with it as begun. */
  lemma WindowOpens<T>(lim: Limits, u: T, y: Tally<T>, t: Clock)
    requires Sensible(lim) && Capped(lim, y.users) && 0 < t.evict <= t.init <= t.refill && y.now <= t.evict
    requires forall v :: v in y.users ==> 0 < y.users[v].lastRequest <= y.now
    ensures var z := Count(lim, u, y, Request(u, t));
            Books(lim, u, Shifted(z.(allowed := y.allowed), t.refill, z))
  {
    var known := Known(lim, y.users, u, t);
    var f := Refilled(lim, known, t.refill);
    ServedCapped(lim, y.users, u, t);
    RefilledLately(lim, known, t.refill);
    var first := t.refill - SECOND;
    MulMono(lim.refillRate, 0, f.lastRequest - first);
    MulMono(lim.refillRate, 0, t.refill - first);
    Again(lim, f, t.refill);
    ChargeBooks(lim, f, t.refill, 0, 1, first);
    NothingSpent(lim, 1, t.refill - first);
  }

  lemma RefilledLately(lim: Limits, d: UserData, now: int)
    requires d.lastRequest <= now
    ensures var f := Refilled(lim, d, now); d.lastRequest <= f.lastRequest <= now < f.lastRequest + SECOND
  {
  }

  lemma Again(lim: Limits, f: UserData, now: int)
    requires f.lastRequest <= now < f.lastRequest + SECOND
    ensures Refilled(lim, f, now) == f
  {
  }

  /** The tally before the window from `k` on, but with the residence that its
      first request belongs to. */
  function Base<T>(lim: Limits, u: T, run: seq<Request<T>>, k: nat): Tally<T>
    requires k < |run|
  {
    TallyOf(lim, u, run[..k + 1]).(allowed := TallyOf(lim, u, run[..k]).allowed)
  }

  ghost predicate WindowOk<T>(lim: Limits, u: T, run: seq<Request<T>>, k: nat, j: nat)
    requires k < j <= |run|
  {
    var base, y := Base(lim, u, run, k), TallyOf(lim, u, run[..j]);
    && base.allowed <= y.allowed && base.residences <= y.residences && y.now == run[j - 1].t.refill
    && Books(lim, u, Shifted(base, run[k].t.refill, y))
  }

  lemma WindowFirst<T>(lim: Limits, u: T, run: seq<Request<T>>, k: nat)
    requires Sensible(lim) && Timely(run) && k < |run| && run[k].user == u
    ensures WindowOk(lim, u, run, k, k + 1)
  {
    TallyNext(lim, u, run, k);
    LatestReading(lim, u, run[..k]);
    TimelyPrefix(run, k);
    TallyCapped(lim, u, run[..k]);
    LastRequestPositive(lim, u, run[..k]);
    StampsPast(lim, u, run[..k]);
    assert run[k] == Request(u, run[k].t);
    WindowOpens(lim, u, TallyOf(lim, u, run[..k]), run[k].t);
  }

  lemma WindowNext<T>(lim: Limits, u: T, run: seq<Request<T>>, k: nat, j: nat)
    requires Sensible(lim) && Timely(run) && k < j < |run| && WindowOk(lim, u, run, k, j)
    ensures WindowOk(lim, u, run, k, j + 1)
  {
    TallyNext(lim, u, run, j);
    TimelyPrefix(run, j);
    var base, y, first := Base(lim, u, run, k), TallyOf(lim, u, run[..j]), run[k].t.refill;
    ShiftedCount(lim, u, base, first, y, run[j]);
    CountKeepsBooks(lim, u, Shifted(base, first, y), run[j]);
  }

  /** The window goes on request by request. */
  lemma WindowBooks<T>(lim: Limits, u: T, run: seq<Request<T>>, k: nat, j: nat)
    requires Sensible(lim) && Timely(run) && k < j <= |run| && run[k].user == u
    ensures WindowOk(lim, u, run, k, j)
  {
    WindowFirst(lim, u, run, k);
    for i := k + 1 to j
      invariant WindowOk(lim, u, run, k, i)
    {
      WindowNext(lim, u, run, k, i);
    }
  }

  lemma TimelyPrefix<T>(run: seq<Request<T>>, k: nat)
    requires Timely(run) && k <= |run|
    ensures Timely(run[..k])
    ensures 0 < k < |run| ==> run[k - 1].t.refill <= run[k].t.evict
  {
    if 0 < k < |run| {
      assert run[k - 1].t.refill <= run[k - 1 + 1].t.evict;
    }
  }

  /** In any window of any run, from a request of the user at `k` to the `j`-th
      request of anyone: what is allowed costs less than a bucket for itself and
      for each time the user enters anew, plus the refill of the window and one
      second, one request a bucket aside. */
  lemma WindowBound<T>(lim: Limits, u: T, run: seq<Request<T>>, k: nat, j: nat)
    requires Sensible(lim) && Timely(run) && k < j <= |run| && run[k].user == u
    ensures var before, begun, y := TallyOf(lim, u, run[..k]), TallyOf(lim, u, run[..k + 1]), TallyOf(lim, u, run[..j]);
            var a, m := y.allowed - before.allowed, y.residences - begun.residences + 1;
            var T := run[j - 1].t.refill - run[k].t.refill + SECOND;
            && m <= 1 + T / (301 * SECOND)
            && SECOND * (lim.consumeRate * (a - m)) < SECOND * (m * lim.maxTokens) + lim.refillRate * T
  {
    WindowBooks(lim, u, run, k, j);
    BooksBound(lim, u, Shifted(Base(lim, u, run, k), run[k].t.refill, TallyOf(lim, u, run[..j])));
  }

  // ---------------------------------------------------------------- bursts

  /** `n` requests of one user at the same moment, the first of them new. */
  function Burst<T>(u: T, x: int, n: nat): seq<Request<T>> {
    seq(n, i requires 0 <= i < n => Request(u, Clock(x, x, x)))
  }

  /** How many of a burst are allowed: as long as tokens are left. */
  function Affordable(lim: Limits, n: nat): nat
    requires lim.consumeRate >= 0
  {
    if n == 0 then 0
    else Affordable(lim, n - 1) + if lim.maxTokens - lim.consumeRate * (n - 1) > 0 then 1 else 0
  }

  /** Of a burst exactly those requests are allowed before which the bucket,
      charged for each earlier one, is not yet empty. */
  lemma {:induction false} BurstExactly<T>(lim: Limits, u: T, x: int, n: nat)
    requires Sensible(lim) && x > 0
    ensures TallyOf(lim, u, Burst(u, x, n)).allowed == Affordable(lim, n)
    ensures n > 0 ==> TallyOf(lim, u, Burst(u, x, n)).users == map[u := UserData(lim.maxTokens - lim.consumeRate * n, x)]
  {
    if n > 0 {
      var run := Burst(u, x, n);
      BurstExactly(lim, u, x, n - 1);
      assert run[..n - 1] == Burst(u, x, n - 1);
      assert lim.consumeRate * n == lim.consumeRate * (n - 1) + lim.consumeRate;
      BurstStep(lim, u, x, TallyOf(lim, u, Burst(u, x, n - 1)).users, n - 1);
    }
  }

  lemma BurstStep<T>(lim: Limits, u: T, x: int, users: Table<T>, n: nat)
    requires Sensible(lim) && x > 0 && users == if n == 0 then map[] else map[u := UserData(lim.maxTokens - lim.consumeRate * n, x)]
    ensures var t := Clock(x, x, x);
            && (Allowed(lim, users, u, t) <==> lim.maxTokens - lim.consumeRate * n > 0)
            && Served(lim, users, u, t) == map[u := UserData(lim.maxTokens - lim.consumeRate * n - lim.consumeRate, x)]
  {
    if n > 0 {
      assert Evicted(users, x) == users;
      assert Known(lim, users, u, Clock(x, x, x)) == users[u];
    } else {
      assert lim.consumeRate * n == 0;
    }
  }
}
