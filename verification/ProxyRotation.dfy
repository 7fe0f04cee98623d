/** Rotation over a list of proxies: a cyclic index, a blacklist whose entries
    expire, and merging of new entries while the rotation goes on. */
module ProxyRotation {
  import opened Common

  datatype Proxy = Proxy(host: string, port: string, username: string, password: string, disabled: bool, fromEnv: bool)

  type Blacklist = map<Proxy, int>

  datatype State = State(proxies: seq<Proxy>, blacklist: Blacklist, index: nat)

  /** The readings one call takes: reading 0 for the cleaning, reading `t + 1`
      for its try `t`. */
  type Clock = nat -> int

  ghost predicate Steady(clock: Clock) {
    forall i: nat, j: nat :: i <= j ==> clock(i) <= clock(j)
  }

  predicate Blacklisted(black: Blacklist, p: Proxy, now: int) {
    p in black && now < black[p]
  }

  function Cleaned(black: Blacklist, now: int): Blacklist {
    map p | p in black && now < black[p] :: black[p]
  }

  predicate InRange(s: State) {
    s.index < |s.proxies| || (s.proxies == [] && s.index == 0)
  }

  // ------------------------------------------------------------ one call

  /** The position looked at by try `t`. */
  function At(s: State, t: nat): (k: nat)
    requires s.proxies != []
    ensures k < |s.proxies|
  {
    Mod(s.index + t, |s.proxies|)
  }

  predicate Refused(s: State, clock: Clock, t: nat)
    requires s.proxies != []
  {
    Blacklisted(Cleaned(s.blacklist, clock(0)), s.proxies[At(s, t)], clock(t + 1))
  }

  /** The first try from `t` on that is not refused, or the number of proxies. */
  function FirstTry(s: State, clock: Clock, t: nat): (k: nat)
    requires s.proxies != [] && t <= |s.proxies|
    ensures t <= k <= |s.proxies|
    ensures k < |s.proxies| ==> !Refused(s, clock, k)
    ensures forall j :: t <= j < k ==> Refused(s, clock, j)
    decreases |s.proxies| - t
  {
    if t == |s.proxies| || !Refused(s, clock, t) then t else FirstTry(s, clock, t + 1)
  }

  /** The position that a call of `next` returns, if any. */
  function Picked(s: State, clock: Clock): (r: Option<nat>)
    ensures r.Some? ==> r.value < |s.proxies|
  {
    if s.proxies == [] || FirstTry(s, clock, 0) == |s.proxies| then None
    else Some(At(s, FirstTry(s, clock, 0)))
  }

  function AfterNext(s: State, clock: Clock): State {
    if s.proxies == [] then s
    else
      var k := FirstTry(s, clock, 0);
      State(s.proxies, Cleaned(s.blacklist, clock(0)), At(s, if k < |s.proxies| then k + 1 else k))
  }

  /** Entries of `additions` not seen before, each once, behind the list. */
  function Merged(list: seq<Proxy>, additions: seq<Proxy>): seq<Proxy> {
    if additions == [] then list
    else
      var k := |additions| - 1;
      var before := Merged(list, additions[..k]);
      if additions[k] in before then before else before + [additions[k]]
  }

  class ProxyPool {
    var proxies: seq<Proxy>
    var black: Blacklist
    var index: nat

    function View(): State
      reads this
    {
      State(proxies, black, index)
    }

    constructor (list: seq<Proxy>)
      ensures View() == State(list, map[], 0) && InRange(View())
    {
      proxies, black, index := list, map[], 0;
    }

    method ReplaceEntries(list: seq<Proxy>)
      modifies this
      ensures View() == State(list, old(black), 0) && InRange(View())
    {
      proxies, index := list, 0;
    }

    method MergeEntries(additions: seq<Proxy>)
      requires InRange(View())
      modifies this
      ensures InRange(View())
      ensures View() == old(View()).(proxies := Merged(old(proxies), additions))
    {
      var current := proxies;
      var seen := set p | p in current;
      for i := 0 to |additions|
        invariant current == Merged(proxies, additions[..i])
        invariant seen == set p | p in current
        invariant proxies == old(proxies) && View() == old(View())
      {
        assert additions[..i + 1][..i] == additions[..i];
        if additions[i] !in seen {
          seen := seen + {additions[i]};
          current := current + [additions[i]];
        }
      }
      assert additions[..|additions|] == additions;
      MergedLonger(proxies, additions);
      proxies := current;
      if proxies == [] {
        index := 0;
      } else {
        ModIsRemainder(index, |proxies|);
        index := index % |proxies|;
      }
    }

    method Next(clock: Clock) returns (r: Option<Proxy>)
      requires InRange(View())
      modifies this
      ensures InRange(View()) && View() == AfterNext(old(View()), clock)
      ensures var k := Picked(old(View()), clock);
              r == if k.Some? then Some(proxies[k.value]) else None
    {
      if proxies == [] {
        return None;
      }
      CleanExpired(clock(0));
      ghost var was := old(View());
      var tries := 0;
      while tries < |proxies|
        invariant tries <= |proxies| && proxies == was.proxies && black == Cleaned(was.blacklist, clock(0))
        invariant index == At(was, tries)
        invariant FirstTry(was, clock, 0) == FirstTry(was, clock, tries)
      {
        var p := proxies[index];
        NextAt(was, tries);
        ModIsRemainder(index + 1, |proxies|);
        index := (index + 1) % |proxies|;
        if !Blacklisted(black, p, clock(tries + 1)) {
          return Some(p);
        }
        tries := tries + 1;
      }
      return None;
    }

    method Ban(p: Proxy, now: int, timeout: int)
      modifies this
      ensures View() == old(View()).(blacklist := old(black)[p := now + timeout])
    {
      black := black[p := now + timeout];
    }

    method ResetBlacklist()
      modifies this
      ensures View() == old(View()).(blacklist := map[])
    {
      black := map[];
    }

    method CleanExpired(now: int)
      modifies this
      ensures View() == old(View()).(blacklist := Cleaned(old(black), now))
    {
      var left := black.Keys;
      while left != {}
        invariant left <= black.Keys
        invariant black == map p | p in old(black) && (p in left || now < old(black)[p]) :: old(black)[p]
        invariant proxies == old(proxies) && index == old(index)
      {
        var p :| p in left;
        if now >= black[p] {
          black := black - {p};
        }
        left := left - {p};
      }
    }
  }

  // ------------------------------------------------- remainders, as needed

  /** The remainder by repeated subtraction. */
  function Mod(x: nat, m: nat): (r: nat)
    requires m > 0
    ensures r < m
  {
    if x < m then x else Mod(x - m, m)
  }

  lemma MulAtLeast(m: nat, d: int)
    requires d >= 1
    ensures m * d >= m
  {
    assert m * d == m * (d - 1) + m;
  }

  lemma SameQuotient(m: int, d: int, e: int)
    requires 0 < m && m * d == e && -m < e < m
    ensures e == 0
  {
    assert m * -d == -e;
    if d != 0 {
      MulAtLeast(m, if d > 0 then d else -d);
    }
  }

  lemma LessOne(x: nat, m: nat)
    requires 0 < m <= x
    ensures x % m == (x - m) % m
  {
    var q, q' := x / m, (x - m) / m;
    var r, r' := x % m, (x - m) % m;
    assert x == m * q + r && x - m == m * q' + r';
    assert m * (q - q' - 1) == r' - r;
    SameQuotient(m, q - q' - 1, r' - r);
  }

  lemma {:induction false} ModIsRemainder(x: nat, m: nat)
    requires m > 0
    ensures Mod(x, m) == x % m
  {
    if x >= m {
      LessOne(x, m);
      ModIsRemainder(x - m, m);
    }
  }

  lemma WrapOnce(x: nat, m: nat)
    requires 0 < m && x < 2 * m
    ensures Mod(x, m) == if x < m then x else x - m
  {
  }

  lemma {:induction false} ModPlus(x: nat, e: nat, m: nat)
    requires m > 0
    ensures Mod(x + e, m) == Mod(Mod(x, m) + e, m)
  {
    if x >= m {
      ModPlus(x - m, e, m);
    }
  }

  lemma NextAt(s: State, t: nat)
    requires s.proxies != []
    ensures At(s, t + 1) == Mod(At(s, t) + 1, |s.proxies|)
  {
    ModPlus(s.index + t, 1, |s.proxies|);
  }

  // ------------------------------------------------------------- blacklist

  /** Cleaning forgets only what no later look would find. */
  lemma CleaningIsSilent(black: Blacklist, p: Proxy, clean: int, now: int)
    requires clean <= now
    ensures Blacklisted(Cleaned(black, clean), p, now) <==> Blacklisted(black, p, now)
  {
  }

  /** Exactly the expired entries are forgotten. */
  lemma CleanedExactly(black: Blacklist, now: int)
    ensures forall p :: p in Cleaned(black, now) <==> p in black && now < black[p]
    ensures forall p :: p in Cleaned(black, now) ==> Cleaned(black, now)[p] == black[p]
  {
  }

  /** A ban lasts for its timeout, and concerns nobody else. */
  lemma BanLasts(black: Blacklist, p: Proxy, since: int, timeout: int, q: Proxy, now: int)
    ensures Blacklisted(black[p := since + timeout], p, now) <==> now < since + timeout
    ensures q != p ==> (Blacklisted(black[p := since + timeout], q, now) <==> Blacklisted(black, q, now))
  {
  }

  /** A call that finds nothing leaves the index where it was. */
  lemma FruitlessRound(s: State, clock: Clock)
    requires InRange(s) && Picked(s, clock).None?
    ensures AfterNext(s, clock).index == s.index && AfterNext(s, clock).proxies == s.proxies
  {
    if s.proxies != [] {
      WrapOnce(s.index + |s.proxies|, |s.proxies|);
    }
  }

  /** Every position is tried once in one round. */
  lemma TriedOnce(s: State, k: nat)
    requires InRange(s) && k < |s.proxies|
    ensures exists t: nat :: t < |s.proxies| && At(s, t) == k
  {
    var n := |s.proxies|;
    var t: nat := if s.index <= k then k - s.index else n - s.index + k;
    WrapOnce(s.index + t, n);
    assert At(s, t) == k;
  }

  /** Nothing is returned only if every entry was blacklisted when the call
      began, and whatever is returned is not blacklisted when it ends. */
  lemma NextIsHonest(s: State, clock: Clock, end: int)
    requires InRange(s) && Steady(clock) && clock(|s.proxies|) <= end
    ensures Picked(s, clock).None? ==> forall p :: p in s.proxies ==> Blacklisted(s.blacklist, p, clock(0))
    ensures Picked(s, clock).Some? ==> !Blacklisted(s.blacklist, s.proxies[Picked(s, clock).value], end)
    ensures (forall p :: p in s.proxies ==> Blacklisted(s.blacklist, p, end)) ==> Picked(s, clock).None?
  {
    if s.proxies != [] {
      var n, k := |s.proxies|, FirstTry(s, clock, 0);
      if k == n {
        forall i: nat | i < n ensures Blacklisted(s.blacklist, s.proxies[i], clock(0)) {
          TriedOnce(s, i);
          var t: nat :| t < n && At(s, t) == i;
          assert Refused(s, clock, t) && clock(0) <= clock(t + 1);
        }
      } else {
        assert clock(0) <= clock(k + 1) <= clock(n) <= end;
      }
    }
  }

  // -------------------------------------------------------- cyclic fairness

  /** No entry of the list expires within the readings `from` to `to`. */
  predicate Settled(s: State, from: int, to: int) {
    forall p :: p in s.proxies && p in s.blacklist ==> s.blacklist[p] <= from || to < s.blacklist[p]
  }

  /** `good` lists the positions eligible at `now`, ascending. */
  predicate Eligible(s: State, now: int, good: seq<nat>) {
    && Ascending(good)
    && (forall i :: 0 <= i < |good| ==> good[i] < |s.proxies| && !Blacklisted(s.blacklist, s.proxies[good[i]], now))
    && (forall k :: 0 <= k < |s.proxies| && !Blacklisted(s.blacklist, s.proxies[k], now) ==> k in good)
  }

  /** The eligible positions below `n`. */
  function EligibleBelow(s: State, now: int, n: nat): (good: seq<nat>)
    requires n <= |s.proxies|
    ensures Ascending(good) && forall i :: 0 <= i < |good| ==> good[i] < n
    ensures forall k: nat :: k in good <==> k < n && !Blacklisted(s.blacklist, s.proxies[k], now)
  {
    if n == 0 then []
    else
      EligibleBelow(s, now, n - 1) + if Blacklisted(s.blacklist, s.proxies[n - 1], now) then [] else [n - 1]
  }

  lemma EligibleListed(s: State, now: int)
    ensures Eligible(s, now, EligibleBelow(s, now, |s.proxies|))
  {
    var good := EligibleBelow(s, now, |s.proxies|);
    assert forall i :: 0 <= i < |good| ==> good[i] in good;
  }

  /** How many of the positions in `good` lie below `index`. */
  function Rank(good: seq<nat>, index: nat): (r: nat)
    ensures r <= |good|
  {
    if good == [] then 0
    else Rank(good[..|good| - 1], index) + if good[|good| - 1] < index then 1 else 0
  }

  predicate Ascending(good: seq<nat>) {
    forall i, j :: 0 <= i < j < |good| ==> good[i] < good[j]
  }

  lemma {:induction false} RankSplits(good: seq<nat>, index: nat)
    requires Ascending(good)
    ensures forall i :: 0 <= i < |good| ==> (good[i] < index <==> i < Rank(good, index))
  {
    if good != [] {
      var k := |good| - 1;
      RankSplits(good[..k], index);
      if good[k] < index && k > 0 {
        assert good[..k][k - 1] < index;
      }
    }
  }

  lemma RankIs(good: seq<nat>, index: nat, r: nat)
    requires Ascending(good) && r <= |good|
    requires forall i :: 0 <= i < |good| ==> (good[i] < index <==> i < r)
    ensures Rank(good, index) == r
  {
    RankSplits(good, index);
    var r' := Rank(good, index);
    if r < |good| {
      assert good[r] < index <==> r < r';
    }
    if r' < |good| {
      assert good[r'] < index <==> r' < r;
    }
  }

  ghost predicate Within(clock: Clock, from: int, to: int) {
    Steady(clock) && forall i: nat :: from <= clock(i) <= to
  }

  lemma SettledLook(s: State, clock: Clock, from: int, to: int, t: nat)
    requires s.proxies != [] && Settled(s, from, to) && Within(clock, from, to)
    ensures Refused(s, clock, t) <==> Blacklisted(s.blacklist, s.proxies[At(s, t)], from)
  {
    assert clock(0) <= clock(t + 1);
    assert from <= clock(0) <= to && from <= clock(t + 1) <= to;
  }

  /** Between the index and the next position in `good` there is no other. */
  lemma NotBetween(good: seq<nat>, index: nat, k: nat)
    requires Ascending(good) && good != []
    requires var r := Rank(good, index);
             if r < |good| then index <= k < good[r] else index <= k || k < good[0]
    ensures k !in good
  {
    RankSplits(good, index);
    var r := Rank(good, index);
    forall i | 0 <= i < |good| ensures good[i] != k {
      assert r < i ==> good[r] < good[i];
      assert 0 < i ==> good[0] < good[i];
    }
  }

  /** The first try that is not refused settles the call. */
  lemma CallTakes(s: State, clock: Clock, t: nat)
    requires t < |s.proxies| && !Refused(s, clock, t) && forall j: nat :: j < t ==> Refused(s, clock, j)
    ensures Picked(s, clock) == Some(At(s, t))
    ensures AfterNext(s, clock).index == Mod(At(s, t) + 1, |s.proxies|)
  {
    assert FirstTry(s, clock, 0) == t;
    NextAt(s, t);
  }

  /** How many tries it takes to the next position in `good`. */
  function Away(s: State, good: seq<nat>): nat
    requires good != [] && forall i :: 0 <= i < |good| ==> good[i] < |s.proxies|
  {
    var r := Rank(good, s.index);
    if r < |good| then (if good[r] >= s.index then good[r] - s.index else 0)
    else if s.index <= |s.proxies| then |s.proxies| - s.index + good[0] else 0
  }

  lemma AwayIs(s: State, good: seq<nat>, j: nat)
    requires InRange(s) && Ascending(good) && good != [] && forall i :: 0 <= i < |good| ==> good[i] < |s.proxies|
    requires j <= Away(s, good)
    ensures Away(s, good) < |s.proxies|
    ensures if j == Away(s, good) then At(s, j) == good[Mod(Rank(good, s.index), |good|)] else At(s, j) !in good
  {
    RankSplits(good, s.index);
    WrapOnce(Rank(good, s.index), |good|);
    WrapOnce(s.index + j, |s.proxies|);
    if j < Away(s, good) {
      NotBetween(good, s.index, At(s, j));
    }
  }

  /** A call skips straight to the next eligible position, wrapping once. */
  lemma OneCall(s: State, clock: Clock, from: int, to: int, good: seq<nat>)
    requires InRange(s) && Settled(s, from, to) && Within(clock, from, to)
    requires Eligible(s, from, good) && good != []
    ensures Picked(s, clock) == Some(good[Mod(Rank(good, s.index), |good|)])
    ensures AfterNext(s, clock).index == Mod(good[Mod(Rank(good, s.index), |good|)] + 1, |s.proxies|)
  {
    var t := Away(s, good);
    AwayIs(s, good, t);
    SettledLook(s, clock, from, to, t);
    forall j: nat | j < t ensures Refused(s, clock, j) {
      AwayIs(s, good, j);
      SettledLook(s, clock, from, to, j);
    }
    CallTakes(s, clock, t);
  }

  lemma OrderKept(good: seq<nat>, i: nat, j: nat)
    requires Ascending(good) && i < |good| && j < |good|
    ensures i < j <==> good[i] < good[j]
  {
  }

  /** Past a returned position lies the next one in cyclic order. */
  lemma RankNext(good: seq<nat>, n: nat, r: nat)
    requires Ascending(good) && r < |good| && n > 0 && forall i :: 0 <= i < |good| ==> good[i] < n
    ensures Mod(Rank(good, Mod(good[r] + 1, n)), |good|) == Mod(r + 1, |good|)
  {
    if good[r] + 1 < n {
      RankIs(good, good[r] + 1, r + 1);
    } else {
      OrderKept(good, r, |good| - 1);
      RankIs(good, 0, 0);
    }
  }

  /** A call leaves the circumstances of the rotation as they were. */
  lemma StaysSettled(s: State, clock: Clock, from: int, to: int, good: seq<nat>)
    requires InRange(s) && Settled(s, from, to) && Within(clock, from, to) && Eligible(s, from, good)
    ensures var s' := AfterNext(s, clock);
            InRange(s') && s'.proxies == s.proxies && Settled(s', from, to) && Eligible(s', from, good)
  {
    assert from <= clock(0) <= to;
  }

  /** The state before call `t` of an unending sequence of calls. */
  function StateAt(s: State, calls: nat -> Clock, t: nat): State {
    if t == 0 then s else AfterNext(StateAt(s, calls, t - 1), calls(t - 1))
  }

  /** What call `t` returns. */
  function PickedAt(s: State, calls: nat -> Clock, t: nat): Option<nat> {
    Picked(StateAt(s, calls, t), calls(t))
  }

  /** The circumstances of the rotation. */
  predicate Rotating(s: State, from: int, to: int, good: seq<nat>) {
    InRange(s) && Settled(s, from, to) && Eligible(s, from, good) && good != []
  }

  lemma StepRank(s: State, clock: Clock, from: int, to: int, good: seq<nat>, x: nat)
    requires Rotating(s, from, to, good) && Within(clock, from, to)
    requires Mod(Rank(good, s.index), |good|) == Mod(x, |good|)
    ensures var s' := AfterNext(s, clock);
            && Rotating(s', from, to, good)
            && Mod(Rank(good, s'.index), |good|) == Mod(x + 1, |good|)
  {
    OneCall(s, clock, from, to, good);
    StaysSettled(s, clock, from, to, good);
    RankNext(good, |s.proxies|, Mod(Rank(good, s.index), |good|));
    ModPlus(x, 1, |good|);
    WrapOnce(Mod(x, |good|), |good|);
  }

  lemma {:induction false} RunRank(s: State, calls: nat -> Clock, from: int, to: int, good: seq<nat>, t: nat)
    requires Rotating(s, from, to, good)
    requires forall i: nat :: i < t ==> Within(calls(i), from, to)
    ensures Rotating(StateAt(s, calls, t), from, to, good)
    ensures Mod(Rank(good, StateAt(s, calls, t).index), |good|) == Mod(Rank(good, s.index) + t, |good|)
  {
    var z, x := s, Rank(good, s.index);
    for i := 0 to t
      invariant z == StateAt(s, calls, i) && x == Rank(good, s.index) + i
      invariant Rotating(z, from, to, good) && Mod(Rank(good, z.index), |good|) == Mod(x, |good|)
    {
      StepRank(z, calls(i), from, to, good, x);
      z, x := AfterNext(z, calls(i)), x + 1;
    }
  }

  /** While nothing expires, calls go round the eligible positions in order. */
  lemma CyclicOrder(s: State, calls: nat -> Clock, from: int, to: int, good: seq<nat>, t: nat)
    requires Rotating(s, from, to, good)
    requires forall i: nat :: i <= t ==> Within(calls(i), from, to)
    ensures PickedAt(s, calls, t) == Some(good[Mod(Rank(good, s.index) + t, |good|)])
  {
    RunRank(s, calls, from, to, good, t);
    OneCall(StateAt(s, calls, t), calls(t), from, to, good);
  }

  /** In a full round of residues each is met at exactly one step. */
  function StepTo(x: nat, j: nat, m: nat): nat
    requires x < m && j < m
  {
    if x <= j then j - x else m - x + j
  }

  lemma RoundMeets(r: nat, m: nat, j: nat, e: nat)
    requires j < m && e < m
    ensures StepTo(Mod(r, m), j, m) < m
    ensures Mod(r + e, m) == j <==> e == StepTo(Mod(r, m), j, m)
  {
    ModPlus(r, e, m);
  }

  /** Any `|good|` calls in a row return every eligible position exactly once. */
  lemma EachOncePerRound(s: State, calls: nat -> Clock, from: int, to: int, good: seq<nat>, a: nat, j: nat)
    requires Rotating(s, from, to, good) && j < |good|
    requires forall i: nat :: i < a + |good| ==> Within(calls(i), from, to)
    ensures exists t: nat :: a <= t < a + |good| && PickedAt(s, calls, t) == Some(good[j])
                             && forall u: nat :: a <= u < a + |good| && PickedAt(s, calls, u) == Some(good[j]) ==> u == t
  {
    var m, r := |good|, Rank(good, s.index);
    var d := StepTo(Mod(r + a, m), j, m);
    forall u: nat | a <= u < a + m ensures PickedAt(s, calls, u) == Some(good[j]) <==> u == a + d {
      CyclicOrder(s, calls, from, to, good, u);
      RoundMeets(r + a, m, j, u - a);
      OrderKept(good, Mod(r + u, m), j);
      OrderKept(good, j, Mod(r + u, m));
    }
    assert PickedAt(s, calls, a + d) == Some(good[j]);
  }

  /** The same of the list itself: while nothing expires, as many calls as there
      are eligible positions return each of them exactly once. */
  lemma EveryEligibleOnce(s: State, calls: nat -> Clock, from: int, to: int, a: nat, k: nat)
    requires InRange(s) && Settled(s, from, to)
    requires k < |s.proxies| && !Blacklisted(s.blacklist, s.proxies[k], from)
    requires forall i: nat :: i < a + |EligibleBelow(s, from, |s.proxies|)| ==> Within(calls(i), from, to)
    ensures var m := |EligibleBelow(s, from, |s.proxies|)|;
            exists t: nat :: a <= t < a + m && PickedAt(s, calls, t) == Some(k)
                             && forall u: nat :: a <= u < a + m && PickedAt(s, calls, u) == Some(k) ==> u == t
  {
    var good := EligibleBelow(s, from, |s.proxies|);
    EligibleListed(s, from);
    assert k in good;
    var j :| 0 <= j < |good| && good[j] == k;
    EachOncePerRound(s, calls, from, to, good, a, j);
  }

  // --------------------------------------------------------------- merging

  lemma {:induction false} MergedLonger(list: seq<Proxy>, additions: seq<Proxy>)
    ensures |list| <= |Merged(list, additions)| && Merged(list, additions)[..|list|] == list
  {
    if additions != [] {
      MergedLonger(list, additions[..|additions| - 1]);
    }
  }

  /** Exactly the entries of both are in the merged list. */
  lemma {:induction false} MergedHolds(list: seq<Proxy>, additions: seq<Proxy>)
    ensures forall p :: p in Merged(list, additions) <==> p in list || p in additions
  {
    if additions != [] {
      var k := |additions| - 1;
      MergedHolds(list, additions[..k]);
      assert additions == additions[..k] + [additions[k]];
    }
  }

  /** What is added repeats nothing, of the old list or of itself. */
  lemma {:induction false} MergedAddsOnce(list: seq<Proxy>, additions: seq<Proxy>)
    ensures var z := Merged(list, additions);
            forall i, j :: 0 <= i < j < |z| && |list| <= j ==> z[i] != z[j]
  {
    if additions != [] {
      var k, z := |additions| - 1, Merged(list, additions);
      var before := Merged(list, additions[..k]);
      MergedAddsOnce(list, additions[..k]);
      MergedLonger(list, additions[..k]);
      forall i, j | 0 <= i < j < |z| && |list| <= j ensures z[i] != z[j] {
        assert z[i] == before[i] && before[i] in before;
        assert j < |before| ==> z[j] == before[j];
      }
    }
  }

  lemma {:induction false} MergedTwice(list: seq<Proxy>, a: seq<Proxy>, b: seq<Proxy>)
    ensures Merged(Merged(list, a), b) == Merged(list, a + b)
    decreases |b|
  {
    if b == [] {
      assert a + b == a;
    } else {
      var k := |b| - 1;
      MergedTwice(list, a, b[..k]);
      assert (a + b)[..|a + b| - 1] == a + b[..k];
    }
  }

  /** New entries keep the order in which they first occur: the one at `j`
      stands right behind those that come before it. */
  lemma MergedInOrder(list: seq<Proxy>, additions: seq<Proxy>, j: nat)
    requires j < |additions| && additions[j] !in list && additions[j] !in additions[..j]
    ensures var z, before := Merged(list, additions), Merged(list, additions[..j]);
            |before| < |z| && z[..|before|] == before && z[|before|] == additions[j]
  {
    var before := Merged(list, additions[..j]);
    MergedHolds(list, additions[..j]);
    assert additions[..j + 1][..j] == additions[..j];
    assert Merged(list, additions[..j + 1]) == before + [additions[j]];
    assert additions[..j + 1] + additions[j + 1..] == additions;
    MergedTwice(list, additions[..j + 1], additions[j + 1..]);
    MergedLonger(before + [additions[j]], additions[j + 1..]);
    var z := Merged(list, additions);
    assert z[..|before| + 1] == before + [additions[j]];
    assert z[..|before|] == z[..|before| + 1][..|before|];
    assert z[|before|] == z[..|before| + 1][|before|];
  }

  lemma {:induction false} NothingNew(list: seq<Proxy>, additions: seq<Proxy>)
    requires forall p :: p in additions ==> p in list
    ensures Merged(list, additions) == list
  {
    if additions != [] {
      var k := |additions| - 1;
      assert additions[k] in additions;
      NothingNew(list, additions[..k]);
    }
  }

  /** Merging the same entries again changes nothing. */
  lemma MergedAgain(list: seq<Proxy>, additions: seq<Proxy>)
    ensures Merged(Merged(list, additions), additions) == Merged(list, additions)
  {
    MergedHolds(list, additions);
    NothingNew(Merged(list, additions), additions);
  }

  /** Merging does not disturb the rotation: the entries eligible before keep
      their places in the cycle, and the newcomers stand behind them. */
  lemma MergeKeepsRotation(s: State, additions: seq<Proxy>, now: int, good: seq<nat>, good': seq<nat>)
    requires InRange(s) && Eligible(s, now, good)
    requires Eligible(s.(proxies := Merged(s.proxies, additions)), now, good')
    ensures good <= good' && forall i :: |good| <= i < |good'| ==> |s.proxies| <= good'[i]
    ensures s.proxies != [] ==> Rank(good', s.index) == Rank(good, s.index)
  {
    var n, z := |s.proxies|, Merged(s.proxies, additions);
    MergedLonger(s.proxies, additions);
    assert forall k :: 0 <= k < n ==> z[k] == z[..n][k];
    SamePrefix(good, good', n);
    if n > 0 {
      RankSplits(good, s.index);
      RankIs(good', s.index, Rank(good, s.index));
    }
  }

  lemma TailHolds(a: seq<nat>, x: nat)
    requires Ascending(a) && a != []
    ensures x in a[1..] <==> x in a && x != a[0]
    ensures x in a ==> a[0] <= x
  {
    assert a == [a[0]] + a[1..];
  }

  /** Of two ascending lists with the same elements below `n`, one of them
      ending there, that one is a prefix of the other. */
  lemma {:induction false} SamePrefix(a: seq<nat>, b: seq<nat>, n: nat)
    requires Ascending(a) && Ascending(b) && forall i :: 0 <= i < |a| ==> a[i] < n
    requires forall k: nat :: k < n ==> (k in a <==> k in b)
    ensures a <= b && forall i :: |a| <= i < |b| ==> n <= b[i]
    decreases |a|
  {
    if a == [] {
      assert forall i :: 0 <= i < |b| ==> b[i] in b;
    } else {
      assert a[0] in a && a[0] in b && b[0] in b;
      TailHolds(b, a[0]);
      TailHolds(a, b[0]);
      forall k: nat | k < n ensures k in a[1..] <==> k in b[1..] {
        TailHolds(a, k);
        TailHolds(b, k);
      }
      SamePrefix(a[1..], b[1..], n);
    }
  }
}
