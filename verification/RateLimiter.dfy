/** The token-bucket limiter: per-user tokens refilled by whole seconds, users
    forgotten after more than 300 idle seconds, and a bound on what any user is
    allowed over any run. */
module RateLimiter {

  /** Clock readings are in nanoseconds. */
  const SECOND := 1_000_000_000

  datatype UserData = UserData(tokens: int, lastRequest: int)

  datatype Limits = Limits(maxTokens: int, consumeRate: int, refillRate: int)

  function Min(a: int, b: int): int {
    if a <= b then a else b
  }

  /** Whole seconds; readings never go back, so the quotient is not negative. */
  function Elapsed(from: int, to: int): int {
    (to - from) / SECOND
  }

  // ----------------------------------------------------------- one request

  /** The readings of one request: at eviction, at a first request, at refill. */
  datatype Clock = Clock(evict: int, init: int, refill: int)

  type Table<T> = map<T, UserData>

  function Evicted<T>(users: Table<T>, now: int): Table<T> {
    map u | u in users && Elapsed(users[u].lastRequest, now) <= 300 :: users[u]
  }

  /** A default entry has time zero, which marks a first request. */
  function Known<T>(lim: Limits, users: Table<T>, u: T, t: Clock): UserData {
    var found := if u in Evicted(users, t.evict) then Evicted(users, t.evict)[u] else UserData(0, 0);
    if found.lastRequest == 0 then UserData(lim.maxTokens, t.init) else found
  }

  function Refilled(lim: Limits, d: UserData, now: int): UserData {
    var elapsed := Elapsed(d.lastRequest, now);
    if elapsed > 0 then UserData(Min(lim.maxTokens, d.tokens + elapsed * lim.refillRate), now) else d
  }

  function Allowed<T>(lim: Limits, users: Table<T>, u: T, t: Clock): bool {
    Refilled(lim, Known(lim, users, u, t), t.refill).tokens > 0
  }

  /** A denied request is charged as well. */
  function Served<T>(lim: Limits, users: Table<T>, u: T, t: Clock): Table<T> {
    var d := Refilled(lim, Known(lim, users, u, t), t.refill);
    Evicted(users, t.evict)[u := d.(tokens := d.tokens - lim.consumeRate)]
  }

  class Limiter<T(==)> {
    const lim: Limits
    var users: Table<T>

    constructor (lim: Limits)
      ensures this.lim == lim && users == map[]
    {
      this.lim := lim;
      users := map[];
    }

    method RemoveOlderThan300s(now: int)
      modifies this
      ensures users == Evicted(old(users), now)
    {
      var left := users.Keys;
      while left != {}
        invariant left <= users.Keys
        invariant users == map u | u in old(users) && (u in left || Elapsed(old(users)[u].lastRequest, now) <= 300) :: old(users)[u]
      {
        var u :| u in left;
        if Elapsed(users[u].lastRequest, now) > 300 {
          users := users - {u};
        }
        left := left - {u};
      }
    }

    method AllowRequest(u: T, t: Clock) returns (ok: bool)
      modifies this
      ensures ok == Allowed(lim, old(users), u, t)
      ensures users == Served(lim, old(users), u, t)
    {
      RemoveOlderThan300s(t.evict);
      var d := if u in users then users[u] else UserData(0, 0);
      if d.lastRequest == 0 {
        d := UserData(lim.maxTokens, t.init);
      }
      var elapsed := Elapsed(d.lastRequest, t.refill);
      if elapsed > 0 {
        d := UserData(Min(lim.maxTokens, d.tokens + elapsed * lim.refillRate), t.refill);
      }
      ok := d.tokens > 0;
      users := users[u := d.(tokens := d.tokens - lim.consumeRate)];
    }
  }

  // ------------------------------------------------------------ whole runs

  datatype Request<T> = Request(user: T, t: Clock)

  /** Readings are positive and never go back. */
  predicate Timely<T>(run: seq<Request<T>>) {
    && (forall i :: 0 <= i < |run| ==> 0 < run[i].t.evict <= run[i].t.init <= run[i].t.refill)
    && (forall i :: 0 <= i < |run| - 1 ==> run[i].t.refill <= run[i + 1].t.evict)
  }

  /** What happened to one user: requests allowed, times entered into the
      table, the first and the latest such time, and the latest reading. */
  datatype Tally<T> = Tally(users: Table<T>, allowed: nat, residences: nat, first: int, entered: int, now: int)

  function TallyOf<T>(lim: Limits, u: T, run: seq<Request<T>>): Tally<T> {
    if run == [] then Tally(map[], 0, 0, 0, 0, 0)
    else
      var before := TallyOf(lim, u, run[..|run| - 1]);
      Count(lim, u, before, run[|run| - 1])
  }

  function Count<T>(lim: Limits, u: T, before: Tally<T>, r: Request<T>): Tally<T> {
    var enters := r.user == u && u !in Evicted(before.users, r.t.evict);
    Tally(
      Served(lim, before.users, r.user, r.t),
      before.allowed + if r.user == u && Allowed(lim, before.users, u, r.t) then 1 else 0,
      before.residences + if enters then 1 else 0,
      if enters && before.residences == 0 then r.t.init else before.first,
      if enters then r.t.init else before.entered,
      r.t.refill)
  }

  /** Tokens in hand plus what the allowed requests cost, one request per past
      residence forgiven, is at most one bucket per residence plus the refill;
      residences are at least 301 seconds apart. */
  predicate Books<T>(lim: Limits, u: T, y: Tally<T>) {
    var m, c, r := y.residences, lim.consumeRate, lim.refillRate;
    && (m == 0 ==> u !in y.users && y.allowed == 0)
    && (m > 0 ==>
          && y.first <= y.entered <= y.now
          && y.first + 301 * SECOND * (m - 1) <= y.entered
          && (u !in y.users ==> y.entered + 301 * SECOND <= y.now)
          && (y.allowed > 0 ==> SECOND * (c * (y.allowed - m)) < SECOND * (m * lim.maxTokens) + r * (y.now - y.first))
          && (u in y.users ==>
                var d := y.users[u];
                && 0 < d.lastRequest && y.entered <= d.lastRequest <= y.now
                && SECOND * d.tokens + SECOND * (c * (y.allowed - m + 1))
                   <= SECOND * (m * lim.maxTokens) + r * (d.lastRequest - y.first)))
  }

  lemma MulMono(r: int, a: int, b: int)
    requires r >= 0 && a <= b
    ensures r * a <= r * b
  {
  }

  /** Refilling stays on the books. */
  lemma RefillBooks(lim: Limits, d: UserData, now: int, first: int, rest: int)
    requires lim.refillRate >= 0 && d.lastRequest <= now
    requires SECOND * d.tokens + rest <= lim.refillRate * (d.lastRequest - first)
    ensures var d' := Refilled(lim, d, now);
            && SECOND * d'.tokens + rest <= lim.refillRate * (d'.lastRequest - first)
            && d.lastRequest <= d'.lastRequest <= now
  {
    var e := Elapsed(d.lastRequest, now);
    if e > 0 {
      var r := lim.refillRate;
      assert SECOND * e <= now - d.lastRequest;
      MulMono(r, SECOND * e, now - d.lastRequest);
      assert SECOND * (e * r) == r * (SECOND * e);
      assert r * (now - first) == r * (now - d.lastRequest) + r * (d.lastRequest - first);
    }
  }

  /** The books of one resident: what `Books` says of its entry `d`. */
  predicate OnBooks(lim: Limits, d: UserData, allowed: nat, m: nat, first: int) {
    SECOND * d.tokens + SECOND * (lim.consumeRate * (allowed - m + 1)) <= SECOND * (m * lim.maxTokens) + lim.refillRate * (d.lastRequest - first)
  }

  predicate Sensible(lim: Limits) {
    lim.maxTokens > 0 && lim.consumeRate >= 0 && lim.refillRate >= 0
  }

  /** One request of a resident: refilled, judged and charged. */
  lemma ChargeBooks(lim: Limits, d: UserData, now: int, allowed: nat, m: nat, first: int)
    requires Sensible(lim) && first <= d.lastRequest <= now && m > 0
    requires OnBooks(lim, d, allowed, m, first)
    ensures var f := Refilled(lim, d, now);
            var allowed' := allowed + if f.tokens > 0 then 1 else 0;
            && OnBooks(lim, f.(tokens := f.tokens - lim.consumeRate), allowed', m, first)
            && d.lastRequest <= f.lastRequest <= now
            && (f.tokens > 0 ==> SECOND * (lim.consumeRate * (allowed' - m)) < SECOND * (m * lim.maxTokens) + lim.refillRate * (now - first))
  {
    var c, r := lim.consumeRate, lim.refillRate;
    RefillBooks(lim, d, now, first, SECOND * (c * (allowed - m + 1)) - SECOND * (m * lim.maxTokens));
    var f := Refilled(lim, d, now);
    assert c * (allowed + 1 - m + 1) == c * (allowed - m + 1) + c;
    MulMono(r, f.lastRequest - first, now - first);
  }

  /** A first request puts a full bucket on the books. */
  lemma EnterBooks<T>(lim: Limits, u: T, y: Tally<T>, init: int)
    requires Sensible(lim) && Books(lim, u, y) && 0 < init && y.now <= init
    ensures OnBooks(lim, UserData(lim.maxTokens, init), y.allowed, y.residences + 1, if y.residences == 0 then init else y.first)
  {
    var m, c, r := y.residences, lim.consumeRate, lim.refillRate;
    assert (m + 1) * lim.maxTokens == m * lim.maxTokens + lim.maxTokens;
    if m > 0 {
      MulMono(r, y.now - y.first, init - y.first);
      MulMono(r, 0, y.now - y.first);
      if y.allowed == 0 {
        MulMono(c, -m, 0);
        MulMono(m, 0, lim.maxTokens);
      }
    }
  }

  /** Time passing keeps the books, also over the eviction of `u`. */
  lemma WaitBooks<T>(lim: Limits, u: T, y: Tally<T>, evict: int, now: int)
    requires Sensible(lim) && Books(lim, u, y) && y.now <= evict <= now
    ensures Books(lim, u, y.(users := Evicted(y.users, evict), now := now))
  {
    MulMono(lim.refillRate, y.now - y.first, now - y.first);
  }

  lemma StayKeepsBooks<T>(lim: Limits, u: T, y: Tally<T>, t: Clock)
    requires Sensible(lim) && Books(lim, u, y) && u in Evicted(y.users, t.evict)
    requires 0 < t.evict <= t.init <= t.refill && y.now <= t.evict
    ensures Books(lim, u, Count(lim, u, y, Request(u, t)))
  {
    ChargeBooks(lim, y.users[u], t.refill, y.allowed, y.residences, y.first);
    MulMono(lim.refillRate, y.now - y.first, t.refill - y.first);
  }

  lemma GoneForLong<T>(lim: Limits, u: T, y: Tally<T>, evict: int)
    requires Books(lim, u, y) && y.residences > 0 && y.now <= evict && u !in Evicted(y.users, evict)
    ensures y.entered + 301 * SECOND <= evict
  {
  }

  lemma EntryKeepsBooks<T>(lim: Limits, u: T, y: Tally<T>, t: Clock)
    requires Sensible(lim) && Books(lim, u, y) && u !in Evicted(y.users, t.evict)
    requires 0 < t.evict <= t.init <= t.refill && y.now <= t.evict
    ensures Books(lim, u, Count(lim, u, y, Request(u, t)))
  {
    var m, first := y.residences + 1, if y.residences == 0 then t.init else y.first;
    EnterBooks(lim, u, y, t.init);
    ChargeBooks(lim, UserData(lim.maxTokens, t.init), t.refill, y.allowed, m, first);
    if y.residences > 0 {
      GoneForLong(lim, u, y, t.evict);
      MulMono(lim.refillRate, y.now - first, t.refill - first);
      MulMono(lim.consumeRate, y.allowed - m, y.allowed - y.residences);
    }
  }

  lemma CountKeepsBooks<T>(lim: Limits, u: T, y: Tally<T>, r: Request<T>)
    requires Sensible(lim) && Books(lim, u, y)
    requires 0 < r.t.evict <= r.t.init <= r.t.refill && y.now <= r.t.evict
    ensures Books(lim, u, Count(lim, u, y, r))
  {
    if r.user != u {
      WaitBooks(lim, u, y, r.t.evict, r.t.refill);
    } else if u in Evicted(y.users, r.t.evict) {
      StayKeepsBooks(lim, u, y, r.t);
    } else {
      EntryKeepsBooks(lim, u, y, r.t);
    }
  }

  lemma {:induction false} TallyKeepsBooks<T>(lim: Limits, u: T, run: seq<Request<T>>)
    requires Sensible(lim) && Timely(run)
    ensures Books(lim, u, TallyOf(lim, u, run))
    ensures run != [] ==> TallyOf(lim, u, run).now == run[|run| - 1].t.refill
  {
    if run != [] {
      var k := |run| - 1;
      TallyKeepsBooks(lim, u, run[..k]);
      assert k > 0 ==> run[k - 1].t.refill <= run[k - 1 + 1].t.evict;
      CountKeepsBooks(lim, u, TallyOf(lim, u, run[..k]), run[k]);
    }
  }

  lemma DivAtLeast(t: int, d: int, k: int)
    requires d > 0 && d * k <= t
    ensures k <= t / d
  {
    var q := t / d;
    assert t == d * q + t % d;
    if k > q {
      MulMono(d, q + 1, k);
    }
  }

  /** Of any run: what one user is allowed costs less than a bucket for every
      residence in the table plus the refill of the whole time, one request a
      residence aside; and residences begin at least 301 seconds apart. */
  lemma ThroughputBound<T>(lim: Limits, u: T, run: seq<Request<T>>)
    requires Sensible(lim) && Timely(run)
    ensures var y := TallyOf(lim, u, run);
            var m, T := y.residences, y.now - y.first;
            if m == 0 then y.allowed == 0
            else
              && m <= 1 + T / (301 * SECOND)
              && SECOND * (lim.consumeRate * (y.allowed - m)) < SECOND * (m * lim.maxTokens) + lim.refillRate * T
  {
    TallyKeepsBooks(lim, u, run);
    if TallyOf(lim, u, run).residences > 0 {
      BooksBound(lim, u, TallyOf(lim, u, run));
    }
  }

  lemma BooksBound<T>(lim: Limits, u: T, y: Tally<T>)
    requires Sensible(lim) && Books(lim, u, y) && y.residences > 0
    ensures var m, T := y.residences, y.now - y.first;
            && m <= 1 + T / (301 * SECOND)
            && SECOND * (lim.consumeRate * (y.allowed - m)) < SECOND * (m * lim.maxTokens) + lim.refillRate * T
  {
    var m: int, T: int := y.residences, y.now - y.first;
    DivAtLeast(T, 301 * SECOND, m - 1);
    if y.allowed == 0 {
      NothingSpent(lim, m, T);
    }
  }

  lemma NothingSpent(lim: Limits, m: int, T: int)
    requires Sensible(lim) && m > 0 && T >= 0
    ensures SECOND * (lim.consumeRate * (0 - m)) < SECOND * (m * lim.maxTokens) + lim.refillRate * T
  {
    MulMono(lim.refillRate, 0, T);
    MulMono(lim.consumeRate, -m, 0);
    MulMono(lim.maxTokens, 1, m);
  }

  /** A user seen for less than 301 seconds was entered once, and then the
      bound speaks of one bucket. */
  lemma OneResidence<T>(lim: Limits, u: T, run: seq<Request<T>>)
    requires Sensible(lim) && Timely(run)
    ensures var y := TallyOf(lim, u, run);
            && (y.residences > 0 && y.now - y.first < 301 * SECOND ==> y.residences == 1)
            && (y.residences == 1 ==>
                  SECOND * (lim.consumeRate * (y.allowed - 1)) < SECOND * lim.maxTokens + lim.refillRate * (y.now - y.first))
  {
    ThroughputBound(lim, u, run);
    TallyKeepsBooks(lim, u, run);
    assert 1 * lim.maxTokens == lim.maxTokens;
  }

  // -------------------------------------------------------- what is in the table

  lemma TallyNext<T>(lim: Limits, u: T, run: seq<Request<T>>, k: nat)
    requires k < |run|
    ensures TallyOf(lim, u, run[..k + 1]) == Count(lim, u, TallyOf(lim, u, run[..k]), run[k])
  {
    assert run[..k + 1][..k] == run[..k];
  }

  /** The time zero that marks a first request is never in the table. */
  lemma {:induction false} LastRequestPositive<T>(lim: Limits, u: T, run: seq<Request<T>>)
    requires Timely(run)
    ensures forall v :: v in TallyOf(lim, u, run).users ==> 0 < TallyOf(lim, u, run).users[v].lastRequest
  {
    if run != [] {
      LastRequestPositive(lim, u, run[..|run| - 1]);
    }
  }
}
