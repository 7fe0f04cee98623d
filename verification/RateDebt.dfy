/** When the limiter denies: users do not affect each other, and exactly when a
    user in debt is ever allowed again. */
module RateDebt {
  import opened RateLimiter

  // ------------------------------------------------------------ isolation

  /** The requests of one user. */
  function Own<T(==)>(run: seq<Request<T>>, u: T): seq<Request<T>> {
    if run == [] then []
    else
      var k := |run| - 1;
      Own(run[..k], u) + if run[k].user == u then [run[k]] else []
  }

  /** The tables agree about `u` at every reading from `from` on. */
  ghost predicate Alike<T>(u: T, a: Table<T>, b: Table<T>, from: int) {
    forall now :: from <= now ==>
                    && (u in Evicted(a, now) <==> u in Evicted(b, now))
                    && (u in Evicted(a, now) ==> a[u] == b[u])
  }

  lemma OthersApart<T>(lim: Limits, u: T, a: Table<T>, b: Table<T>, from: int, r: Request<T>)
    requires Alike(u, a, b, from) && r.user != u && from <= r.t.evict <= r.t.refill
    ensures Alike(u, Served(lim, a, r.user, r.t), b, r.t.refill)
  {
    var served := Served(lim, a, r.user, r.t);
    forall now | r.t.refill <= now
      ensures u in Evicted(served, now) <==> u in Evicted(b, now)
      ensures u in Evicted(served, now) ==> served[u] == b[u]
    {
      assert u in Evicted(a, now) <==> u in Evicted(b, now);
      assert u in a ==> Elapsed(a[u].lastRequest, r.t.evict) <= Elapsed(a[u].lastRequest, now);
    }
  }

  lemma OwnAlike<T>(lim: Limits, u: T, a: Table<T>, b: Table<T>, from: int, t: Clock)
    requires Alike(u, a, b, from) && from <= t.evict
    ensures Allowed(lim, a, u, t) == Allowed(lim, b, u, t)
    ensures Alike(u, Served(lim, a, u, t), Served(lim, b, u, t), t.refill)
  {
    assert u in Evicted(a, t.evict) <==> u in Evicted(b, t.evict);
    assert Known(lim, a, u, t) == Known(lim, b, u, t);
    assert Served(lim, a, u, t)[u] == Served(lim, b, u, t)[u];
  }

  /** What a user is allowed depends on its own requests only. */
  lemma {:induction false} Isolation<T>(lim: Limits, u: T, run: seq<Request<T>>)
    requires Timely(run)
    ensures Apart(lim, u, run)
  {
    if run != [] {
      var k := |run| - 1;
      Isolation(lim, u, run[..k]);
      LatestReading(lim, u, run[..k]);
      assert k > 0 ==> run[k - 1].t.refill <= run[k - 1 + 1].t.evict;
      if run[k].user == u {
        ApartByOwn(lim, u, run);
      } else {
        ApartByOther(lim, u, run);
      }
    }
  }

  /** The run and the user's own part of it agree about the user. */
  ghost predicate Apart<T>(lim: Limits, u: T, run: seq<Request<T>>) {
    var y, z := TallyOf(lim, u, run), TallyOf(lim, u, Own(run, u));
    y.allowed == z.allowed && Alike(u, y.users, z.users, y.now)
  }

  lemma ApartByOwn<T>(lim: Limits, u: T, run: seq<Request<T>>)
    requires run != [] && run[|run| - 1].user == u && Apart(lim, u, run[..|run| - 1])
    requires TallyOf(lim, u, run[..|run| - 1]).now <= run[|run| - 1].t.evict
    ensures Apart(lim, u, run)
  {
    var k := |run| - 1;
    var y, z := TallyOf(lim, u, run[..k]), TallyOf(lim, u, Own(run[..k], u));
    assert Own(run, u)[..|Own(run, u)| - 1] == Own(run[..k], u);
    OwnAlike(lim, u, y.users, z.users, y.now, run[k].t);
  }

  lemma ApartByOther<T>(lim: Limits, u: T, run: seq<Request<T>>)
    requires run != [] && run[|run| - 1].user != u && Apart(lim, u, run[..|run| - 1])
    requires TallyOf(lim, u, run[..|run| - 1]).now <= run[|run| - 1].t.evict <= run[|run| - 1].t.refill
    ensures Apart(lim, u, run)
  {
    var k := |run| - 1;
    var y, z := TallyOf(lim, u, run[..k]), TallyOf(lim, u, Own(run[..k], u));
    assert Own(run, u) == Own(run[..k], u);
    OthersApart(lim, u, y.users, z.users, y.now, run[k]);
  }

  lemma LatestReading<T>(lim: Limits, u: T, run: seq<Request<T>>)
    ensures TallyOf(lim, u, run).now == if run == [] then 0 else run[|run| - 1].t.refill
  {
  }

  // -------------------------------------------------------------- one call

  /** A resident is allowed exactly when refilled tokens are left. */
  lemma AllowedExactly<T>(lim: Limits, users: Table<T>, u: T, t: Clock)
    requires lim.maxTokens > 0 && u in Evicted(users, t.evict)
    requires 0 < users[u].lastRequest <= t.refill
    ensures Allowed(lim, users, u, t) <==> users[u].tokens + Elapsed(users[u].lastRequest, t.refill) * lim.refillRate > 0
  {
  }

  lemma NewcomerAllowed<T>(lim: Limits, users: Table<T>, u: T, t: Clock)
    requires lim.maxTokens > 0 && lim.refillRate >= 0 && u !in Evicted(users, t.evict) && t.init <= t.refill
    ensures Allowed(lim, users, u, t)
  {
    MulMono(lim.refillRate, 0, Elapsed(t.init, t.refill));
  }

  lemma {:induction false} StampsPast<T>(lim: Limits, u: T, run: seq<Request<T>>)
    requires Timely(run)
    ensures forall v :: v in TallyOf(lim, u, run).users ==> TallyOf(lim, u, run).users[v].lastRequest <= TallyOf(lim, u, run).now
  {
    if run != [] {
      var k := |run| - 1;
      StampsPast(lim, u, run[..k]);
      LatestReading(lim, u, run[..k]);
      assert k > 0 ==> run[k - 1].t.refill <= run[k - 1 + 1].t.evict;
    }
  }

  lemma {:induction false} StampBounded<T>(lim: Limits, u: T, run: seq<Request<T>>)
    requires Timely(run) && u in TallyOf(lim, u, run).users
    ensures exists i :: 0 <= i < |run| && run[i].user == u && TallyOf(lim, u, run).users[u].lastRequest <= run[i].t.refill
  {
    var k := |run| - 1;
    if run[k].user == u {
      StampsPast(lim, u, run);
      LatestReading(lim, u, run);
    } else {
      StampBounded(lim, u, run[..k]);
      var i :| 0 <= i < k && run[..k][i].user == u && TallyOf(lim, u, run[..k]).users[u].lastRequest <= run[..k][i].t.refill;
      assert run[i].user == u && TallyOf(lim, u, run).users[u].lastRequest <= run[i].t.refill;
    }
  }

  /** Whoever stays away for 301 seconds is allowed again. */
  lemma AbsenceRestores<T>(lim: Limits, u: T, run: seq<Request<T>>, t: Clock)
    requires lim.maxTokens > 0 && lim.refillRate >= 0 && Timely(run) && t.init <= t.refill
    requires forall i :: 0 <= i < |run| && run[i].user == u ==> run[i].t.refill + 301 * SECOND <= t.evict
    ensures Allowed(lim, TallyOf(lim, u, run).users, u, t)
  {
    var users := TallyOf(lim, u, run).users;
    if u in users {
      StampBounded(lim, u, run);
      assert Elapsed(users[u].lastRequest, t.evict) >= 301;
    }
    NewcomerAllowed(lim, users, u, t);
  }

  // ------------------------------------------------------- a user in debt

  function Asked<T>(u: T, asks: seq<Clock>): seq<Request<T>> {
    seq(|asks|, i requires 0 <= i < |asks| => Request(u, asks[i]))
  }

  /** The user's requests at `asks`, made from the table `users`, are all denied. */
  predicate DeniedAll<T(==)>(lim: Limits, u: T, users: Table<T>, asks: seq<Clock>)
    decreases |asks|
  {
    asks == [] || (!Allowed(lim, users, u, asks[0]) && DeniedAll(lim, u, Served(lim, users, u, asks[0]), asks[1..]))
  }

  lemma {:induction false} DeniedTally<T>(lim: Limits, u: T, pre: seq<Request<T>>, asks: seq<Clock>)
    ensures TallyOf(lim, u, pre + Asked(u, asks)).allowed >= TallyOf(lim, u, pre).allowed
    ensures DeniedAll(lim, u, TallyOf(lim, u, pre).users, asks) <==>
            TallyOf(lim, u, pre + Asked(u, asks)).allowed == TallyOf(lim, u, pre).allowed
    decreases |asks|
  {
    if asks == [] {
      assert pre + Asked(u, asks) == pre;
    } else {
      var next := pre + [Request(u, asks[0])];
      assert next[..|pre|] == pre;
      assert TallyOf(lim, u, next) == Count(lim, u, TallyOf(lim, u, pre), Request(u, asks[0]));
      assert pre + Asked(u, asks) == next + Asked(u, asks[1..]);
      DeniedTally(lim, u, next, asks[1..]);
    }
  }

  /** The seconds refilled by requests at `asks`, the fractions of a second
      dropped by the one left to the next. */
  function Refills(stamp: int, asks: seq<Clock>): int
    decreases |asks|
  {
    if asks == [] then 0
    else Elapsed(stamp, asks[0].refill) + Refills(NextStamp(stamp, asks[0]), asks[1..])
  }

  function NextStamp(stamp: int, t: Clock): int {
    if Elapsed(stamp, t.refill) > 0 then t.refill else stamp
  }

  /** Never away long enough to be evicted. */
  predicate Resident(stamp: int, asks: seq<Clock>)
    decreases |asks|
  {
    asks == [] ||
    (0 < stamp <= asks[0].evict <= asks[0].refill && Elapsed(stamp, asks[0].evict) <= 300 && Resident(NextStamp(stamp, asks[0]), asks[1..]))
  }

  /** Tokens before the charge of request `k`, if all before it are denied. */
  function Owed(lim: Limits, d: UserData, asks: seq<Clock>, k: nat): int
    requires k < |asks|
  {
    d.tokens - lim.consumeRate * k + lim.refillRate * Refills(d.lastRequest, asks[..k + 1])
  }

  lemma DeniedOnce<T>(lim: Limits, u: T, users: Table<T>, t: Clock)
    requires lim.maxTokens > 0 && u in users && 0 < users[u].lastRequest <= t.evict <= t.refill
    requires Elapsed(users[u].lastRequest, t.evict) <= 300
    ensures var d, e := users[u], Elapsed(users[u].lastRequest, t.refill);
            && (Allowed(lim, users, u, t) <==> d.tokens + e * lim.refillRate > 0)
            && (!Allowed(lim, users, u, t) ==>
                  var d' := UserData(d.tokens + e * lim.refillRate - lim.consumeRate, NextStamp(d.lastRequest, t));
                  u in Served(lim, users, u, t) && Served(lim, users, u, t)[u] == d')
  {
    AllowedExactly(lim, users, u, t);
    assert Known(lim, users, u, t) == users[u];
  }

  lemma OwedNext(lim: Limits, d: UserData, asks: seq<Clock>, k: nat)
    requires k + 1 < |asks|
    ensures var e := Elapsed(d.lastRequest, asks[0].refill);
            var d' := UserData(d.tokens + e * lim.refillRate - lim.consumeRate, NextStamp(d.lastRequest, asks[0]));
            Owed(lim, d', asks[1..], k) == Owed(lim, d, asks, k + 1)
  {
    var e, r := Elapsed(d.lastRequest, asks[0].refill), lim.refillRate;
    var rest := Refills(NextStamp(d.lastRequest, asks[0]), asks[1..][..k + 1]);
    assert asks[..k + 2][1..] == asks[1..][..k + 1];
    assert Refills(d.lastRequest, asks[..k + 2]) == e + rest;
    assert r * (e + rest) == e * r + r * rest;
    assert lim.consumeRate * (k + 1) == lim.consumeRate * k + lim.consumeRate;
  }

  /** A resident is denied all along exactly when the refills never catch up
      with the charges. */
  lemma {:induction false} DeniedExactly<T>(lim: Limits, u: T, users: Table<T>, asks: seq<Clock>)
    requires lim.maxTokens > 0 && u in users && Resident(users[u].lastRequest, asks)
    ensures DeniedAll(lim, u, users, asks) <==> forall k: nat :: k < |asks| ==> Owed(lim, users[u], asks, k) <= 0
    decreases |asks|
  {
    if asks != [] {
      var d, users' := users[u], Served(lim, users, u, asks[0]);
      DeniedOnce(lim, u, users, asks[0]);
      FirstOwed(lim, d, asks);
      if !Allowed(lim, users, u, asks[0]) {
        DeniedExactly(lim, u, users', asks[1..]);
        forall k: nat | k + 1 < |asks| ensures Owed(lim, users'[u], asks[1..], k) == Owed(lim, d, asks, k + 1) {
          OwedNext(lim, d, asks, k);
        }
        OwedShift(lim, d, users'[u], asks);
      }
    }
  }

  lemma FirstOwed(lim: Limits, d: UserData, asks: seq<Clock>)
    requires asks != []
    ensures Owed(lim, d, asks, 0) == d.tokens + Elapsed(d.lastRequest, asks[0].refill) * lim.refillRate
  {
    assert asks[..1][1..] == [] && asks[..1][0] == asks[0];
    var e := Elapsed(d.lastRequest, asks[0].refill);
    assert Refills(d.lastRequest, asks[..1]) == e + Refills(NextStamp(d.lastRequest, asks[0]), []);
    assert lim.refillRate * e == e * lim.refillRate;
    assert lim.consumeRate * 0 == 0;
  }

  lemma OwedShift(lim: Limits, d: UserData, d': UserData, asks: seq<Clock>)
    requires asks != [] && Owed(lim, d, asks, 0) <= 0
    requires forall k: nat :: k + 1 < |asks| ==> Owed(lim, d', asks[1..], k) == Owed(lim, d, asks, k + 1)
    ensures (forall k: nat :: k < |asks[1..]| ==> Owed(lim, d', asks[1..], k) <= 0) <==>
            (forall k: nat :: k < |asks| ==> Owed(lim, d, asks, k) <= 0)
  {
    if forall k: nat :: k < |asks[1..]| ==> Owed(lim, d', asks[1..], k) <= 0 {
      forall k: nat | k < |asks| ensures Owed(lim, d, asks, k) <= 0 {
        if k > 0 {
          assert Owed(lim, d', asks[1..], k - 1) == Owed(lim, d, asks, k - 1 + 1);
        }
      }
    }
    if forall k: nat :: k < |asks| ==> Owed(lim, d, asks, k) <= 0 {
      forall k: nat | k < |asks[1..]| ensures Owed(lim, d', asks[1..], k) <= 0 {
        assert Owed(lim, d, asks, k + 1) <= 0;
      }
    }
  }

  // ------------------------------------------------ asking at a steady pace

  /** One request every `g` whole seconds after the time `from`. */
  predicate Paced(asks: seq<Clock>, from: int, g: nat) {
    forall i :: 0 <= i < |asks| ==>
      && asks[i].refill == from + (i + 1) * g * SECOND
      && from + i * g * SECOND <= asks[i].evict <= asks[i].init <= asks[i].refill
  }

  lemma PacedTail(asks: seq<Clock>, from: int, g: nat)
    requires asks != [] && Paced(asks, from, g)
    ensures asks[0].refill == from + g * SECOND && Paced(asks[1..], asks[0].refill, g)
  {
    var rest := asks[1..];
    assert (0 + 1) * g * SECOND == g * SECOND;
    forall i | 0 <= i < |rest|
      ensures rest[i].refill == from + g * SECOND + (i + 1) * g * SECOND
      ensures from + g * SECOND + i * g * SECOND <= rest[i].evict <= rest[i].init <= rest[i].refill
    {
      assert rest[i] == asks[i + 1];
      assert (i + 1) * g == i * g + g && (i + 2) * g == (i + 1) * g + g;
    }
  }

  /** At a steady pace every request refills `g` seconds, a started second
      before the first included. */
  lemma {:induction false} PacedRefills(asks: seq<Clock>, stamp: int, from: int, g: nat)
    requires 1 <= g <= 300 && Paced(asks, from, g) && 0 < stamp <= from < stamp + SECOND
    ensures Resident(stamp, asks) && Refills(stamp, asks) == g * |asks|
    decreases |asks|
  {
    if asks != [] {
      PacedTail(asks, from, g);
      assert from + 0 * g * SECOND == from;
      WholeSeconds(stamp, from, g);
      PacedRefills(asks[1..], asks[0].refill, asks[0].refill, g);
      assert g * |asks| == g + g * |asks[1..]|;
    }
  }

  lemma WholeSeconds(stamp: int, from: int, g: nat)
    requires stamp <= from < stamp + SECOND
    ensures Elapsed(stamp, from + g * SECOND) == g
  {
  }

  lemma PacedPrefix(asks: seq<Clock>, from: int, g: nat, k: nat)
    requires Paced(asks, from, g) && k <= |asks|
    ensures Paced(asks[..k], from, g)
  {
  }

  /** A user in debt that asks at a steady pace. */
  lemma PacedOwed(lim: Limits, d: UserData, asks: seq<Clock>, from: int, g: nat, k: nat)
    requires 1 <= g <= 300 && Paced(asks, from, g) && 0 < d.lastRequest <= from < d.lastRequest + SECOND
    requires k < |asks|
    ensures Owed(lim, d, asks, k) == d.tokens + lim.consumeRate + (k + 1) * (g * lim.refillRate - lim.consumeRate)
  {
    PacedPrefix(asks, from, g, k + 1);
    PacedRefills(asks[..k + 1], d.lastRequest, from, g);
    var r, c := lim.refillRate, lim.consumeRate;
    assert r * (g * (k + 1)) == (k + 1) * (g * r);
    assert (k + 1) * (g * r - c) == (k + 1) * (g * r) - (k + 1) * c;
    assert (k + 1) * c == c * k + c;
  }

  /** The last request of the run is one of `u`, at `from`, and it was denied. */
  predicate DeniedLast<T(==)>(lim: Limits, u: T, run: seq<Request<T>>) {
    && Timely(run) && run != [] && run[|run| - 1].user == u
    && !Allowed(lim, TallyOf(lim, u, run[..|run| - 1]).users, u, run[|run| - 1].t)
  }

  lemma InDebt<T>(lim: Limits, u: T, run: seq<Request<T>>)
    requires Sensible(lim) && DeniedLast(lim, u, run)
    ensures var users, from := TallyOf(lim, u, run).users, run[|run| - 1].t.refill;
            u in users && users[u].tokens <= -lim.consumeRate && 0 < users[u].lastRequest <= from < users[u].lastRequest + SECOND
  {
    var k := |run| - 1;
    LastRequestPositive(lim, u, run);
    StampsPast(lim, u, run);
    LatestReading(lim, u, run);
    var known := Known(lim, TallyOf(lim, u, run[..k]).users, u, run[k].t);
    assert Elapsed(Refilled(lim, known, run[k].t.refill).lastRequest, run[k].t.refill) <= 0;
  }

  function Every(from: int, g: nat, n: nat): seq<Clock> {
    seq(n, i requires 0 <= i < n => var x := from + (i + 1) * g * SECOND; Clock(x, x, x))
  }

  lemma EveryPaced(from: int, g: nat, n: nat)
    ensures Paced(Every(from, g, n), from, g) && |Every(from, g, n)| == n
  {
    forall i | 0 <= i < n ensures i * g * SECOND <= (i + 1) * g * SECOND {
      assert (i + 1) * g == i * g + g;
    }
  }

  /** A denied user that goes on asking every `g` whole seconds is denied for
      ever exactly when the seconds refill no more than a request costs. */
  lemma SteadyPaceStarves<T>(lim: Limits, u: T, run: seq<Request<T>>, g: nat)
    requires Sensible(lim) && DeniedLast(lim, u, run) && 1 <= g <= 300
    ensures (forall asks :: Paced(asks, run[|run| - 1].t.refill, g) ==>
                              TallyOf(lim, u, run + Asked(u, asks)).allowed == TallyOf(lim, u, run).allowed)
       <==> g * lim.refillRate <= lim.consumeRate
  {
    var users, from := TallyOf(lim, u, run).users, run[|run| - 1].t.refill;
    InDebt(lim, u, run);
    if g * lim.refillRate <= lim.consumeRate {
      forall asks | Paced(asks, from, g)
        ensures TallyOf(lim, u, run + Asked(u, asks)).allowed == TallyOf(lim, u, run).allowed
      {
        PaceTooFast(lim, u, users, asks, from, g);
        DeniedTally(lim, u, run, asks);
      }
    } else {
      var asks := PaceSlowEnough(lim, u, users, from, g);
      DeniedTally(lim, u, run, asks);
    }
  }

  lemma PaceTooFast<T>(lim: Limits, u: T, users: Table<T>, asks: seq<Clock>, from: int, g: nat)
    requires Sensible(lim) && u in users && users[u].tokens <= -lim.consumeRate
    requires 1 <= g <= 300 && Paced(asks, from, g) && 0 < users[u].lastRequest <= from < users[u].lastRequest + SECOND
    requires g * lim.refillRate <= lim.consumeRate
    ensures DeniedAll(lim, u, users, asks)
  {
    var d := users[u];
    PacedRefills(asks, d.lastRequest, from, g);
    forall k: nat | k < |asks| ensures Owed(lim, d, asks, k) <= 0 {
      PacedOwed(lim, d, asks, from, g, k);
      MulMono(k + 1, g * lim.refillRate - lim.consumeRate, 0);
    }
    DeniedExactly(lim, u, users, asks);
  }

  /** Otherwise a number of requests known beforehand is enough. */
  lemma PaceSlowEnough<T>(lim: Limits, u: T, users: Table<T>, from: int, g: nat) returns (asks: seq<Clock>)
    requires Sensible(lim) && u in users && users[u].tokens <= -lim.consumeRate
    requires 1 <= g <= 300 && 0 < users[u].lastRequest <= from < users[u].lastRequest + SECOND
    requires g * lim.refillRate > lim.consumeRate
    ensures Paced(asks, from, g) && |asks| == 1 - users[u].tokens && !DeniedAll(lim, u, users, asks)
  {
    var d := users[u];
    var k: nat := -d.tokens;
    asks := Every(from, g, k + 1);
    EveryPaced(from, g, k + 1);
    PacedRefills(asks, d.lastRequest, from, g);
    PacedOwed(lim, d, asks, from, g, k);
    MulMono(k + 1, 1, g * lim.refillRate - lim.consumeRate);
    DeniedExactly(lim, u, users, asks);
  }

  /** Whoever else asks in between. */
  lemma ImpatientAmongOthers<T>(lim: Limits, u: T, run: seq<Request<T>>, pre: seq<Request<T>>, asks: seq<Clock>, g: nat)
    requires Sensible(lim) && Timely(run) && Own(run, u) == pre + Asked(u, asks)
    requires DeniedLast(lim, u, pre) && 1 <= g <= 300 && Paced(asks, pre[|pre| - 1].t.refill, g)
    requires g * lim.refillRate <= lim.consumeRate
    ensures TallyOf(lim, u, run).allowed == TallyOf(lim, u, pre).allowed
  {
    Isolation(lim, u, run);
    SteadyPaceStarves(lim, u, pre, g);
  }

  /** One token, one for each request and one a second: asked twice in the first
      second and then every second, the limiter allows the first and no other. */
  lemma StarvingRun(n: nat)
    ensures var run := [Request(7, Clock(SECOND, SECOND, SECOND)), Request(7, Clock(SECOND, SECOND, SECOND))];
            TallyOf(Limits(1, 1, 1), 7, run + Asked(7, Every(SECOND, 1, n))).allowed == 1
  {
    var lim, t := Limits(1, 1, 1), Clock(SECOND, SECOND, SECOND);
    var run := [Request(7, t), Request(7, t)];
    assert run[..1] == [Request(7, t)] && run[..1][..0] == [];
    var one := TallyOf(lim, 7, run[..1]);
    assert one == Count(lim, 7, TallyOf(lim, 7, []), Request(7, t));
    assert one.users == map[7 := UserData(0, SECOND)] && one.allowed == 1;
    assert TallyOf(lim, 7, run) == Count(lim, 7, one, Request(7, t));
    SteadyPaceStarves(lim, 7, run, 1);
    EveryPaced(SECOND, 1, n);
  }
}
