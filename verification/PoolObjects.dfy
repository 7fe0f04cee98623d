/** The pool as the object it is: the table of deques is a field, connections
    are objects closed and stamped in place, and every method is proved to do
    the step that ConnectionPool.dfy specifies and to keep the invariant. */
module PoolObjects {
  import opened Common
  import opened ConnectionPool
  import opened PoolInvariant

  /** Shortening one deque from the back takes exactly that tail out. */
  lemma TailGone(now: int, s: PoolState, o: Origin, n: nat, c: Connection)
    requires DequesOk(now, s) && n <= |Dq(s.idle, o)|
    ensures IsIdle(s.idle, c) && !IsIdle(s.idle[o := Dq(s.idle, o)[..n]], c) <==> c in Dq(s.idle, o)[n..]
  {
    var q := Dq(s.idle, o);
    assert q == q[..n] + q[n..];
    assert c in q[n..] ==> c in s.idle[o];
  }

  function TailClosed(conns: map<Connection, ConnState>, q: seq<Connection>, n: nat): map<Connection, ConnState>
    requires n <= |q|
  {
    map c | c in conns :: if c in q[n..] then conns[c].(open := false) else conns[c]
  }

  /** The table and the states after the scan has popped all but `n`. */
  function Scanned(s: PoolState, o: Origin, n: nat): PoolState
    requires n <= |Dq(s.idle, o)|
  {
    var q := Dq(s.idle, o);
    s.(idle := s.idle[o := q[..n]], conns := TailClosed(s.conns, q, n))
  }

  predicate NoneUsableFrom(cfg: PoolConfig, now: int, s: PoolState, o: Origin, n: nat)
    requires Covered(s)
  {
    var q := Dq(s.idle, o);
    forall j :: n <= j < |q| ==> !Usable(s.conns[q[j]], now, cfg.keepAlive)
  }

  lemma TailStates(now: int, s: PoolState, o: Origin, n: nat)
    requires DequesOk(now, s) && n <= |Dq(s.idle, o)|
    ensures var q := Dq(s.idle, o);
            CloseGone(s.conns, s.idle, s.idle[o := q[..n]]) == TailClosed(s.conns, q, n)
  {
    var q := Dq(s.idle, o);
    forall c | c in s.conns
      ensures IsIdle(s.idle, c) && !IsIdle(s.idle[o := q[..n]], c) <==> c in q[n..]
    {
      TailGone(now, s, o, n, c);
    }
  }

  lemma ScanStart(s: PoolState, o: Origin)
    requires Covered(s)
    ensures Scanned(s, o, |Dq(s.idle, o)|) == s.(idle := s.idle[o := Dq(s.idle, o)])
  {
    var q := Dq(s.idle, o);
    assert q[..|q|] == q && q[|q|..] == [];
  }

  lemma ScanClose(now: int, s: PoolState, o: Origin, n: nat)
    requires DequesOk(now, s) && n < |Dq(s.idle, o)| && Covered(s)
    ensures var c := Dq(s.idle, o)[n]; var mid := Scanned(s, o, n + 1);
            && c in s.conns && c.origin == o && mid.idle[o] != [] && mid.idle[o][|mid.idle[o]| - 1] == c
            && mid.conns[c] == s.conns[c]
            && mid.idle[o := mid.idle[o][..n]] == Scanned(s, o, n).idle
            && mid.conns[c := s.conns[c].(open := false)] == Scanned(s, o, n).conns
  {
    var q := Dq(s.idle, o);
    assert q[n] in s.idle[o];
    assert q[n..] == [q[n]] + q[n + 1..];
    assert q[..n + 1][..n] == q[..n];
    assert q[n] !in q[n + 1..];
  }

  lemma ScanFound(cfg: PoolConfig, now: int, s: PoolState, o: Origin, n: nat)
    requires DequesOk(now, s) && n < |Dq(s.idle, o)| && Covered(s)
    requires NoneUsableFrom(cfg, now, s, o, n + 1) && Usable(s.conns[Dq(s.idle, o)[n]], now, cfg.keepAlive)
    ensures LastUsable(Dq(s.idle, o), s.conns, now, cfg.keepAlive) == n
  {
    LastUsablePrefix(Dq(s.idle, o), s.conns, now, cfg.keepAlive, n + 1);
  }

  lemma ScanTake(cfg: PoolConfig, now: int, s: PoolState, o: Origin, n: nat)
    requires DequesOk(now, s) && n < |Dq(s.idle, o)| && Covered(s)
    requires LastUsable(Dq(s.idle, o), s.conns, now, cfg.keepAlive) == n
    ensures var c := Dq(s.idle, o)[n];
            && AcquireResult(cfg, now, s, o) == Some(c)
            && AcquireState(cfg, now, s, o)
            == Scanned(s, o, n).(conns := Scanned(s, o, n + 1).conns[c := s.conns[c].(busy := true)])
  {
    var q := Dq(s.idle, o);
    TailStates(now, s, o, n);
    TailTaken(s.conns, q, n, s.conns[q[n]].(busy := true));
  }

  /** What the connection at `n` decides, once none behind it was usable. */
  lemma ScanJudged(cfg: PoolConfig, now: int, s: PoolState, o: Origin, n: nat)
    requires DequesOk(now, s) && n < |Dq(s.idle, o)| && Covered(s) && NoneUsableFrom(cfg, now, s, o, n + 1)
    ensures var c := Dq(s.idle, o)[n];
            if Usable(s.conns[c], now, cfg.keepAlive) then
              && AcquireResult(cfg, now, s, o) == Some(c)
              && AcquireState(cfg, now, s, o)
              == Scanned(s, o, n).(conns := Scanned(s, o, n + 1).conns[c := s.conns[c].(busy := true)])
            else NoneUsableFrom(cfg, now, s, o, n)
  {
    if Usable(s.conns[Dq(s.idle, o)[n]], now, cfg.keepAlive) {
      ScanFound(cfg, now, s, o, n);
      ScanTake(cfg, now, s, o, n);
    }
  }

  lemma TailTaken(conns: map<Connection, ConnState>, q: seq<Connection>, n: nat, taken: ConnState)
    requires n < |q|
    ensures TailClosed(conns, q, n)[q[n] := taken] == TailClosed(conns, q, n + 1)[q[n] := taken]
  {
    assert q[n..] == [q[n]] + q[n + 1..];
  }

  lemma ScanEnd(cfg: PoolConfig, now: int, s: PoolState, o: Origin)
    requires DequesOk(now, s) && Covered(s) && NoneUsableFrom(cfg, now, s, o, 0)
    ensures AcquireResult(cfg, now, s, o) == None && AcquireState(cfg, now, s, o) == Scanned(s, o, 0)
  {
    LastUsablePrefix(Dq(s.idle, o), s.conns, now, cfg.keepAlive, 0);
    TailStates(now, s, o, 0);
  }

  lemma LastUsablePrefix(q: seq<Connection>, conns: map<Connection, ConnState>, now: int, keepAlive: int, n: nat)
    requires n <= |q| && forall c :: c in q ==> c in conns
    requires forall j :: n <= j < |q| ==> !Usable(conns[q[j]], now, keepAlive)
    ensures LastUsable(q, conns, now, keepAlive) < n
  {
  }

  lemma {:induction false} KeepSnoc(q: seq<Connection>, c: Connection, conns: map<Connection, ConnState>, now: int, keepAlive: int)
    requires c in conns && forall d :: d in q ==> d in conns
    ensures Keep(q + [c], conns, now, keepAlive)
         == Keep(q, conns, now, keepAlive) + if Usable(conns[c], now, keepAlive) then [c] else []
  {
    if q == [] {
      assert q + [c] == [c];
    } else {
      assert (q + [c])[1..] == q[1..] + [c];
      KeepSnoc(q[1..], c, conns, now, keepAlive);
    }
  }

  function WithoutFront(idle: IdleMap, o: Origin): IdleMap
    requires o in idle && idle[o] != []
  {
    if |idle[o]| == 1 then idle - {o} else idle[o := idle[o][1..]]
  }

  /** What repeated drops from the largest deque keep: fronts only, emptied
      deques gone, and whoever lost something is at most one short of any. */
  ghost predicate Shrinking(start: IdleMap, now: IdleMap) {
    && (forall o :: o in now <==> o in start && (start[o] == [] || Dq(now, o) != []))
    && (forall o :: o in start ==> IsSuffix(Dq(now, o), start[o]))
    && (forall o, p :: o in start && p in start && |Dq(now, o)| < |start[o]| ==> |Dq(now, p)| <= |Dq(now, o)| + 1)
    && Total(now) <= Total(start)
    && (Total(now) == Total(start) ==> now == start)
  }

  lemma WithoutFrontDeques(idle: IdleMap, o: Origin)
    requires o in idle && idle[o] != []
    ensures forall p :: Dq(WithoutFront(idle, o), p) == if p == o then idle[o][1..] else Dq(idle, p)
    ensures Total(WithoutFront(idle, o)) == Total(idle) - 1
  {
    if |idle[o]| == 1 {
      TotalRemove(idle, o);
    } else {
      TotalUpdate(idle, o, idle[o][1..]);
    }
  }

  lemma SuffixShorter(r: seq<Connection>, q: seq<Connection>)
    requires IsSuffix(r, q) && r != []
    ensures IsSuffix(r[1..], q)
  {
    assert r[1..] == q[|q| - |r[1..]|..];
  }

  lemma ShrinkStep(start: IdleMap, idle: IdleMap, o: Origin)
    requires Shrinking(start, idle) && o in idle && idle[o] != []
    requires forall p :: p in idle ==> |idle[p]| <= |idle[o]|
    ensures Shrinking(start, WithoutFront(idle, o)) && Total(WithoutFront(idle, o)) == Total(idle) - 1
  {
    var idle' := WithoutFront(idle, o);
    WithoutFrontDeques(idle, o);
    forall p | p in start ensures IsSuffix(Dq(idle', p), start[p]) {
      assert IsSuffix(Dq(idle, p), start[p]);
      if p == o {
        SuffixShorter(idle[o], start[o]);
      }
    }
    ShrinkKeys(start, idle, o);
    ShrinkFair(start, idle, o);
  }

  lemma ShrinkFair(start: IdleMap, idle: IdleMap, o: Origin)
    requires o in idle && idle[o] != []
    requires forall p :: p in idle ==> |idle[p]| <= |idle[o]|
    requires forall p, w :: p in start && w in start && |Dq(idle, p)| < |start[p]| ==> |Dq(idle, w)| <= |Dq(idle, p)| + 1
    ensures var idle' := WithoutFront(idle, o);
            forall p, w :: p in start && w in start && |Dq(idle', p)| < |start[p]| ==> |Dq(idle', w)| <= |Dq(idle', p)| + 1
  {
    var idle' := WithoutFront(idle, o);
    WithoutFrontDeques(idle, o);
    forall p, w | p in start && w in start && |Dq(idle', p)| < |start[p]|
      ensures |Dq(idle', w)| <= |Dq(idle', p)| + 1
    {
      assert |Dq(idle', w)| <= |Dq(idle, w)| <= |idle[o]|;
      if p != o {
        assert Dq(idle', p) == Dq(idle, p);
      }
    }
  }

  lemma ShrinkKeys(start: IdleMap, idle: IdleMap, o: Origin)
    requires forall p :: p in idle <==> p in start && (start[p] == [] || Dq(idle, p) != [])
    requires o in idle && idle[o] != [] && start[o] != []
    ensures forall p :: p in WithoutFront(idle, o) <==> p in start && (start[p] == [] || Dq(WithoutFront(idle, o), p) != [])
  {
    WithoutFrontDeques(idle, o);
    var idle' := WithoutFront(idle, o);
    forall p ensures p in idle' <==> p in start && (start[p] == [] || Dq(idle', p) != []) {
      if p != o {
        assert p in idle' <==> p in idle;
        assert Dq(idle', p) == Dq(idle, p);
      }
    }
  }

  /** The popped front is what the table lost; closing it brings the states
      back in line with what is gone. */
  lemma FrontGone(start: IdleMap, idle: IdleMap, o: Origin, conns: map<Connection, ConnState>)
    requires o in idle && idle[o] != [] && o in start && IsSuffix(idle[o], start[o])
    requires Distinct(idle[o]) && forall c :: c in idle[o] ==> c in conns && c.origin == o
    ensures var c := idle[o][0]; var mid := CloseGone(conns, start, idle);
            CloseGone(conns, start, WithoutFront(idle, o)) == mid[c := mid[c].(open := false)]
  {
    var c := idle[o][0];
    var idle' := WithoutFront(idle, o);
    WithoutFrontDeques(idle, o);
    assert c in idle[o] && idle[o] == [c] + idle[o][1..];
    assert c in start[o];
    assert c !in idle[o][1..];
    assert forall d: Connection :: IsIdle(idle', d) <==> IsIdle(idle, d) && d != c;
  }

  /** What the table offers once `c` is appended: the old front may go. */
  function Offered(s: PoolState, c: Connection): IdleMap {
    s.idle[c.origin := Dq(s.idle, c.origin) + [c]]
  }

  lemma PushedIdle(cfg: PoolConfig, now: int, s: PoolState, c: Connection, d: Connection)
    requires cfg.maxIdlePerOrigin >= 1 && DequesOk(now, s) && !IsIdle(s.idle, c)
    ensures IsIdle(Offered(s, c), d) <==> d == c || IsIdle(s.idle, d)
    ensures var q := Dq(s.idle, c.origin);
            IsIdle(PushIdle(cfg, s.idle, c), d) <==>
            IsIdle(Offered(s, c), d) && !(|q| >= cfg.maxIdlePerOrigin && d == q[0])
  {
    var q := Dq(s.idle, c.origin);
    if |q| >= cfg.maxIdlePerOrigin {
      assert q == [q[0]] + q[1..];
      assert q[0] in s.idle[c.origin];
      assert q[0] !in q[1..];
    }
  }

  /** Closing the displaced front is closing what the push took out. */
  lemma PushedStates(cfg: PoolConfig, now: int, s: PoolState, c: Connection, stamped: map<Connection, ConnState>, conns: map<Connection, ConnState>)
    requires cfg.maxIdlePerOrigin >= 1 && DequesOk(now, s) && !IsIdle(s.idle, c)
    requires forall d :: d in s.conns ==> d in stamped
    requires var q := Dq(s.idle, c.origin);
             conns == if |q| >= cfg.maxIdlePerOrigin && q[0] in stamped then stamped[q[0] := stamped[q[0]].(open := false)] else stamped
    ensures conns == CloseGone(stamped, Offered(s, c), PushIdle(cfg, s.idle, c))
  {
    var q := Dq(s.idle, c.origin);
    if |q| >= cfg.maxIdlePerOrigin {
      assert q[0] in s.idle[c.origin];
    }
    forall d | d in stamped
      ensures conns[d] == CloseGone(stamped, Offered(s, c), PushIdle(cfg, s.idle, c))[d]
    {
      PushedIdle(cfg, now, s, c, d);
    }
  }

  /** Closing in two rounds closes everything that went in either. */
  lemma CloseTwice(conns: map<Connection, ConnState>, a: IdleMap, b: IdleMap, c: IdleMap)
    requires forall d :: d in conns && IsIdle(b, d) ==> IsIdle(a, d)
    requires forall d :: d in conns && IsIdle(c, d) ==> IsIdle(b, d)
    ensures CloseGone(CloseGone(conns, a, b), b, c) == CloseGone(conns, a, c)
  {
  }

  lemma ShrunkPushed(cfg: PoolConfig, now: int, s: PoolState, c: Connection, stamped: map<Connection, ConnState>, after: IdleMap)
    requires cfg.maxIdlePerOrigin >= 1 && DequesOk(now, s) && !IsIdle(s.idle, c)
    requires Shrunk(cfg.maxTotalIdle, PushIdle(cfg, s.idle, c), after)
    ensures var pushed := PushIdle(cfg, s.idle, c);
            CloseGone(CloseGone(stamped, Offered(s, c), pushed), pushed, after) == CloseGone(stamped, Offered(s, c), after)
  {
    var pushed := PushIdle(cfg, s.idle, c);
    ShrunkSizes(cfg.maxTotalIdle, pushed, after);
    forall d | d in stamped && IsIdle(after, d) ensures IsIdle(pushed, d) {
      assert IsSuffix(Dq(after, d.origin), Dq(pushed, d.origin));
    }
    forall d | d in stamped && IsIdle(pushed, d) ensures IsIdle(Offered(s, c), d) {
      PushedIdle(cfg, now, s, c, d);
    }
    CloseTwice(stamped, Offered(s, c), pushed, after);
  }

  /** The states once what is in `q` but not in `r` has been closed. */
  function PrunedStates(conns: map<Connection, ConnState>, q: seq<Connection>, r: seq<Connection>): map<Connection, ConnState> {
    map c | c in conns :: if c in q && c !in r then conns[c].(open := false) else conns[c]
  }

  lemma PruneBegin(known: map<Connection, ConnState>, q: seq<Connection>, conns: map<Connection, ConnState>, now: int, keepAlive: int)
    ensures q[..0] == [] && Keep([], conns, now, keepAlive) + q[0..] == q
    ensures PrunedStates(known, [], []) == known
  {
  }

  /** One look at the next connection of a deque being swept: what is kept... */
  lemma PruneRoundKeep(q: seq<Connection>, conns: map<Connection, ConnState>, now: int, keepAlive: int, k: nat)
    requires k < |q| && forall c :: c in q ==> c in conns
    ensures var c := q[k]; var keep := Keep(q[..k], conns, now, keepAlive); var keep' := Keep(q[..k + 1], conns, now, keepAlive);
            var cur := keep + q[k..];
            && cur[|keep|] == c
            && keep' == (if Usable(conns[c], now, keepAlive) then keep + [c] else keep)
            && keep' + q[k + 1..] == (if Usable(conns[c], now, keepAlive) then cur else cur[..|keep|] + cur[|keep| + 1..])
  {
    assert q[..k + 1] == q[..k] + [q[k]];
    assert q[k..] == [q[k]] + q[k + 1..];
    KeepSnoc(q[..k], q[k], conns, now, keepAlive);
  }

  /** ... and what is closed. */
  lemma PruneRoundStates(known: map<Connection, ConnState>, q: seq<Connection>, keep: seq<Connection>, k: nat, kept: bool)
    requires Distinct(q) && k < |q| && q[k] in known && forall c :: c in keep ==> c in q[..k]
    ensures var c := q[k]; var mid := PrunedStates(known, q[..k], keep);
            && mid[c] == known[c]
            && PrunedStates(known, q[..k + 1], if kept then keep + [c] else keep)
            == (if kept then mid else mid[c := mid[c].(open := false)])
  {
    assert q[k] !in q[..k];
    assert q[..k + 1] == q[..k] + [q[k]];
  }

  /** The table when the reaper has yet to visit the origins in `left`. */
  function PartPruned(s: PoolState, now: int, keepAlive: int, left: set<Origin>): IdleMap
    requires Covered(s)
  {
    map o | o in s.idle && (o in left || Keep(s.idle[o], s.conns, now, keepAlive) != []) ::
      if o in left then s.idle[o] else Keep(s.idle[o], s.conns, now, keepAlive)
  }

  lemma PruneOneIdle(now: int, keepAlive: int, s: PoolState, left: set<Origin>, o: Origin)
    requires Covered(s) && o in left && left <= s.idle.Keys
    ensures var kept := Keep(s.idle[o], s.conns, now, keepAlive);
            var idle' := PartPruned(s, now, keepAlive, left)[o := kept];
            PartPruned(s, now, keepAlive, left - {o}) == if kept == [] then idle' - {o} else idle'
  {
  }

  /** Until its origin is visited, an idle connection is where it was. */
  lemma PruneOneMember(now: int, keepAlive: int, s: PoolState, left: set<Origin>, o: Origin, c: Connection)
    requires DequesOk(now, s) && Covered(s) && o in left && left <= s.idle.Keys
    ensures var kept := Keep(s.idle[o], s.conns, now, keepAlive);
            IsIdle(PartPruned(s, now, keepAlive, left - {o}), c) <==>
            IsIdle(PartPruned(s, now, keepAlive, left), c) && !(c in s.idle[o] && c !in kept)
  {
    var kept := Keep(s.idle[o], s.conns, now, keepAlive);
    var a, b := PartPruned(s, now, keepAlive, left), PartPruned(s, now, keepAlive, left - {o});
    assert Dq(a, o) == s.idle[o] && Dq(b, o) == kept;
    if c.origin != o {
      assert Dq(b, c.origin) == Dq(a, c.origin);
      assert c !in s.idle[o];
    }
  }

  lemma PruneOne(now: int, keepAlive: int, s: PoolState, left: set<Origin>, o: Origin)
    requires DequesOk(now, s) && Covered(s) && o in left && left <= s.idle.Keys
    ensures var a := PartPruned(s, now, keepAlive, left);
            && o in a && a[o] == s.idle[o]
            && (forall c :: c in s.idle[o] ==> CloseGone(s.conns, s.idle, a)[c] == s.conns[c])
  {
    var a := PartPruned(s, now, keepAlive, left);
    assert Dq(a, o) == s.idle[o];
  }

  lemma PruneOneStates(now: int, keepAlive: int, s: PoolState, left: set<Origin>, o: Origin)
    requires DequesOk(now, s) && Covered(s) && o in left && left <= s.idle.Keys
    ensures PrunedStates(CloseGone(s.conns, s.idle, PartPruned(s, now, keepAlive, left)),
                         s.idle[o], Keep(s.idle[o], s.conns, now, keepAlive))
         == CloseGone(s.conns, s.idle, PartPruned(s, now, keepAlive, left - {o}))
  {
    var a, b := PartPruned(s, now, keepAlive, left), PartPruned(s, now, keepAlive, left - {o});
    forall c | c in s.conns
      ensures IsIdle(b, c) <==> IsIdle(a, c) && !(c in s.idle[o] && c !in Keep(s.idle[o], s.conns, now, keepAlive))
    {
      PruneOneMember(now, keepAlive, s, left, o, c);
    }
    CloseMore(s.conns, s.idle, a, b, s.idle[o], Keep(s.idle[o], s.conns, now, keepAlive));
  }

  lemma CloseMore(conns: map<Connection, ConnState>, start: IdleMap, a: IdleMap, b: IdleMap, q: seq<Connection>, kept: seq<Connection>)
    requires forall c :: c in conns ==> (IsIdle(b, c) <==> IsIdle(a, c) && !(c in q && c !in kept))
    requires forall c :: c in q ==> IsIdle(start, c)
    ensures PrunedStates(CloseGone(conns, start, a), q, kept) == CloseGone(conns, start, b)
  {
  }

  lemma PruneStart(now: int, keepAlive: int, s: PoolState)
    requires Covered(s)
    ensures PartPruned(s, now, keepAlive, s.idle.Keys) == s.idle
    ensures CloseGone(s.conns, s.idle, s.idle) == s.conns
    ensures PartPruned(s, now, keepAlive, {}) == Pruned(s, now, keepAlive)
  {
  }

  lemma PrunedShrunk(cfg: PoolConfig, now: int, s: PoolState, after: IdleMap)
    requires PoolOk(cfg, now, s) && Covered(s) && Shrunk(cfg.maxTotalIdle, Pruned(s, now, cfg.keepAlive), after)
    ensures var mid := Pruned(s, now, cfg.keepAlive);
            CloseGone(CloseGone(s.conns, s.idle, mid), mid, after) == CloseGone(s.conns, s.idle, after)
  {
    var mid := Pruned(s, now, cfg.keepAlive);
    PrunedOk(cfg, now, s);
    ShrunkDeques(now, s.conns, cfg.maxTotalIdle, mid, after);
    CloseTwice(s.conns, s.idle, mid, after);
  }

  class Pool {
    const cfg: PoolConfig
    var idle: IdleMap
    var reaperArmed: bool
    var waits: seq<int>
    /** Every connection this pool has created, with its state. */
    ghost var known: map<Connection, ConnState>

    ghost predicate Tied()
      reads this, known.Keys
    {
      forall c :: c in known ==> known[c] == c.State()
    }

    ghost function View(): PoolState
      reads this
    {
      PoolState(idle, known, reaperArmed, waits)
    }

    ghost predicate Valid(now: int)
      reads this, known.Keys
    {
      cfg.maxIdlePerOrigin >= 1 && Tied() && PoolOk(cfg, now, View())
    }

    constructor (cfg: PoolConfig)
      requires cfg.maxIdlePerOrigin >= 1
      ensures this.cfg == cfg && View() == EMPTY
      ensures forall now :: Valid(now)
    {
      this.cfg := cfg;
      idle, reaperArmed, waits := map[], false, [];
      known := map[];
    }

    /** Closing or stamping a connection of this pool. */
    method CloseOne(c: Connection)
      requires Tied() && c in known
      modifies this`known, c
      ensures Tied() && known == old(known)[c := old(known)[c].(open := false)]
    {
      c.Close();
      known := known[c := c.State()];
    }

    method MarkOne(c: Connection, busy: bool, now: int)
      requires Tied() && c in known
      modifies this`known, c
      ensures Tied()
      ensures var st := old(known)[c];
              known == old(known)[c := st.(busy := busy, lastUsed := if busy then st.lastUsed else now)]
    {
      c.SetBusy(busy, now);
      known := known[c := c.State()];
    }

    /** The number of idle connections. */
    method CountIdle() returns (total: nat)
      ensures total == Total(idle)
    {
      total := 0;
      var left := idle;
      while left != map[]
        invariant total + Total(left) == Total(idle)
        decreases |left|
      {
        var o :| o in left;
        TotalRemove(left, o);
        total := total + |left[o]|;
        left := left - {o};
      }
    }

    /** An origin with a longest deque; with anything idle it is not empty, so
        the early exit of the shrink loop is never taken. */
    method LargestDeque() returns (best: Origin)
      requires Total(idle) > 0
      ensures best in idle && idle[best] != [] && forall o :: o in idle ==> |idle[o]| <= |idle[best]|
    {
      if idle == map[] {
        TotalZero(idle);
        assert false;
      }
      best :| best in idle;
      var left := idle.Keys - {best};
      while left != {}
        invariant best in idle && left <= idle.Keys
        invariant forall o :: o in idle && o !in left ==> |idle[o]| <= |idle[best]|
      {
        var o :| o in left;
        if |idle[best]| < |idle[o]| {
          best := o;
        }
        left := left - {o};
      }
      if idle[best] == [] {
        TotalZero(idle);
        assert false;
      }
    }

    /** Idle deques hold distinct known connections of their own origin. */
    ghost predicate Filed()
      reads this
    {
      forall o :: o in idle ==> Distinct(idle[o]) && forall c :: c in idle[o] ==> c in known && c.origin == o
    }

    /** Close and drop the front of a deque; an emptied deque leaves the table. */
    method DropOldest(o: Origin)
      requires Tied() && Filed() && o in idle && idle[o] != []
      modifies this`idle, this`known, known.Keys
      ensures Tied() && Filed() && idle == WithoutFront(old(idle), o)
      ensures known == var c := old(idle)[o][0]; old(known)[c := old(known)[c].(open := false)]
    {
      var c := idle[o][0];
      idle := idle[o := idle[o][1..]];
      CloseOne(c);
      if idle[o] == [] {
        idle := idle - {o};
      }
    }

    /** One round of the shrink loop; `start` and `conns` are the table and the
        states before the first round. */
    method DropFromLargest(ghost start: IdleMap, ghost conns: map<Connection, ConnState>)
      requires Tied() && Filed() && Total(idle) > 0 && known.Keys == conns.Keys
      requires Shrinking(start, idle) && known == CloseGone(conns, start, idle)
      modifies this`idle, this`known, known.Keys
      ensures Tied() && Filed() && Total(idle) == Total(old(idle)) - 1 && known.Keys == conns.Keys
      ensures Shrinking(start, idle) && known == CloseGone(conns, start, idle)
    {
      var o := LargestDeque();
      ShrinkStep(start, idle, o);
      FrontGone(start, idle, o, conns);
      DropOldest(o);
    }

    /** Drop oldest connections from the largest deques until the cap holds. */
    method ShrinkGlobalIfNeeded()
      requires Tied() && Filed()
      modifies this`idle, this`known, known.Keys
      ensures Tied() && Shrunk(cfg.maxTotalIdle, old(idle), idle)
      ensures known == CloseGone(old(known), old(idle), idle)
    {
      ghost var start, conns := idle, known;
      var total := CountIdle();
      assert known == CloseGone(conns, start, idle);
      while total > cfg.maxTotalIdle
        invariant Tied() && Filed() && total == Total(idle) && known.Keys == conns.Keys
        invariant Shrinking(start, idle)
        invariant total < Total(start) ==> total >= cfg.maxTotalIdle
        invariant known == CloseGone(conns, start, idle)
      {
        DropFromLargest(start, conns);
        total := total - 1;
      }
    }

    method ScheduleReap(now: int)
      modifies this`reaperArmed, this`waits
      ensures if cfg.reapInterval > 0 then reaperArmed == old(reaperArmed) && waits == Rearm(old(waits), now, cfg.reapInterval)
              else !reaperArmed && waits == old(waits)
    {
      if cfg.reapInterval <= 0 {
        reaperArmed := false;
        return;
      }
      waits := Rearm(waits, now, cfg.reapInterval);
    }

    method ArmReapIfNeeded(now: int)
      modifies this`reaperArmed, this`waits
      ensures if cfg.reapInterval > 0 && !old(reaperArmed) && Total(idle) > 0 then
                reaperArmed && waits == Rearm(old(waits), now, cfg.reapInterval)
              else
                reaperArmed == old(reaperArmed) && waits == old(waits)
    {
      if cfg.reapInterval <= 0 || reaperArmed {
        return;
      }
      var total := CountIdle();
      if total == 0 {
        return;
      }
      reaperArmed := true;
      ScheduleReap(now);
    }

    /** Take the last connection of a deque out and close it unless usable; `s`
        is the pool before the scan. */
    method PopLast(ghost s: PoolState, o: Origin, ghost n: nat, now: int) returns (c: Connection, usable: bool)
      requires Tied() && DequesOk(now, s) && Covered(s) && known.Keys == s.conns.Keys
      requires 0 < n <= |Dq(s.idle, o)| && View() == Scanned(s, o, n)
      modifies this`idle, this`known, known.Keys
      ensures Tied() && known.Keys == s.conns.Keys
      ensures && c == Dq(s.idle, o)[n - 1] && c in s.conns && usable == Usable(s.conns[c], now, cfg.keepAlive)
              && View() == if usable then Scanned(s, o, n - 1).(conns := Scanned(s, o, n).conns[c := s.conns[c].(busy := true)])
                           else Scanned(s, o, n - 1)
    {
      ScanClose(now, s, o, n - 1);
      c := idle[o][|idle[o]| - 1];
      idle := idle[o := idle[o][..|idle[o]| - 1]];
      usable := c.open && now - c.lastUsed <= cfg.keepAlive;
      if usable {
        MarkOne(c, true, now);
      } else {
        CloseOne(c);
      }
    }

    /** The scan of `acquire`: pop from the back, close what is dead or
        expired, stop at the first usable connection. */
    method PopUsable(o: Origin, now: int) returns (c: Connection?)
      requires Valid(now)
      modifies this`idle, this`known, known.Keys
      ensures Tied() && Covered(old(View())) && View() == AcquireState(cfg, now, old(View()), o)
      ensures AcquireResult(cfg, now, old(View()), o) == if c == null then None else Some(c)
    {
      ghost var s := View();
      CoveredByInvariant(now, s);
      if o !in idle {
        idle := idle[o := []];
      }
      ScanStart(s, o);
      ghost var n: nat := |Dq(s.idle, o)|;
      while idle[o] != []
        invariant Tied() && known.Keys == s.conns.Keys
        invariant n <= |Dq(s.idle, o)| && View() == Scanned(s, o, n)
        invariant NoneUsableFrom(cfg, now, s, o, n)
        decreases n
      {
        var last, usable := PopLast(s, o, n, now);
        n := n - 1;
        ScanJudged(cfg, now, s, o, n);
        if usable {
          return last;
        }
      }
      ScanEnd(cfg, now, s, o);
      c := null;
    }

    /** Reuse the most recently used connection that is alive and unexpired,
        else create one, to be connected by the caller. */
    method Acquire(o: Origin, now: int) returns (c: Connection, reused: bool)
      requires Valid(now)
      modifies this, known.Keys
      ensures Valid(now) && Covered(old(View()))
      ensures reused == AcquireResult(cfg, now, old(View()), o).Some?
      ensures reused ==> AcquireResult(cfg, now, old(View()), o) == Some(c)
                         && View() == AcquireState(cfg, now, old(View()), o)
      ensures !reused ==> fresh(c) && c.origin == o
                          && var s := AcquireState(cfg, now, old(View()), o);
                             View() == s.(conns := s.conns[c := ConnState(false, now, false)])
    {
      AcquireKeeps(cfg, now, View(), o);
      var popped := PopUsable(o, now);
      if popped != null {
        return popped, true;
      }
      ghost var mid := View();
      c := new Connection(o, now);
      reused := false;
      known := known[c := c.State()];
      CoveredByInvariant(now, mid);
      OutsideKeeps(cfg, now, now, mid, View());
    }

    /** Append a connection to its deque, closing the oldest at the cap. */
    method PushWithCap(c: Connection, ghost s: PoolState, now: int)
      requires cfg.maxIdlePerOrigin >= 1 && Tied() && PoolOk(cfg, now, s) && idle == s.idle
      requires c in s.conns && !IsIdle(s.idle, c) && known == s.conns[c := ConnState(false, now, true)]
      modifies this`idle, this`known, known.Keys
      ensures Tied() && Filed() && idle == PushIdle(cfg, s.idle, c)
      ensures known == CloseGone(s.conns[c := ConnState(false, now, true)], Offered(s, c), idle)
    {
      ghost var stamped := known;
      PushIdleOk(cfg, now, s, c, stamped);
      var dq := Dq(idle, c.origin);
      if |dq| >= cfg.maxIdlePerOrigin {
        assert dq[0] in s.idle[c.origin];
        CloseOne(dq[0]);
        dq := dq[1..];
      }
      idle := idle[c.origin := dq + [c]];
      PushedStates(cfg, now, s, c, stamped, known);
    }

    /** Stamp a connection, file it, and bring the table under both caps. */
    method Refile(c: Connection, now: int)
      requires Valid(now) && c in known && !IsIdle(idle, c) && c.open
      modifies this`idle, this`known, known.Keys
      ensures Tied() && Shrunk(cfg.maxTotalIdle, PushIdle(cfg, old(idle), c), idle)
      ensures known == CloseGone(old(known)[c := ConnState(false, now, true)], Offered(old(View()), c), idle)
    {
      ghost var s := View();
      MarkOne(c, false, now);
      PushWithCap(c, s, now);
      ShrinkGlobalIfNeeded();
      ShrunkPushed(cfg, now, s, c, s.conns[c := ConnState(false, now, true)], idle);
    }

    /** A connection comes back: close it unless it is to be reused and still
        alive; else file it last under its origin, within both caps. */
    method Release(c: Connection?, canReuse: bool, now: int)
      requires Valid(now)
      requires c != null ==> c in known && !IsIdle(idle, c)
      modifies this, known.Keys
      ensures Valid(now)
      ensures c == null ==> View() == old(View())
      ensures c != null ==> Released(cfg, now, old(View()), c, canReuse, View())
    {
      if c == null {
        return;
      }
      var conn: Connection := c;
      ghost var s := View();
      if canReuse && conn.open {
        Refile(conn, now);
        ArmReapIfNeeded(now);
      } else {
        CloseOne(conn);
      }
      ReleasedKeeps(cfg, now, s, conn, canReuse, View());
    }

    method CloseIfUseless(c: Connection, now: int) returns (stays: bool)
      requires Tied() && c in known
      modifies this`known, c
      ensures Tied() && unchanged(`idle) && stays == Usable(old(known)[c], now, cfg.keepAlive)
      ensures known == if stays then old(known) else old(known)[c := old(known)[c].(open := false)]
    {
      stays := c.open && now - c.lastUsed <= cfg.keepAlive;
      if !stays {
        CloseOne(c);
      }
    }

    /** One round of the erase loop over a deque `q`, at its element `k`, with
        `known0` and `conns` the states before the loop. */
    method PruneRound(dq: seq<Connection>, i: nat, now: int, ghost known0: map<Connection, ConnState>,
                      ghost q: seq<Connection>, ghost conns: map<Connection, ConnState>, ghost k: nat)
      returns (dq': seq<Connection>, i': nat)
      requires Tied() && Distinct(q) && k < |q|
      requires forall c :: c in q ==> c in conns && c in known0 && known0[c] == conns[c]
      requires var keep := Keep(q[..k], conns, now, cfg.keepAlive);
               i == |keep| && dq == keep + q[k..] && known == PrunedStates(known0, q[..k], keep)
      modifies this`known, known.Keys
      ensures Tied() && unchanged(`idle) && known.Keys == known0.Keys
      ensures var keep := Keep(q[..k + 1], conns, now, cfg.keepAlive);
              i' == |keep| && dq' == keep + q[k + 1..] && known == PrunedStates(known0, q[..k + 1], keep)
    {
      PruneRoundKeep(q, conns, now, cfg.keepAlive, k);
      PruneRoundStates(known0, q, Keep(q[..k], conns, now, cfg.keepAlive), k, Usable(conns[q[k]], now, cfg.keepAlive));
      var stays := CloseIfUseless(dq[i], now);
      if stays {
        return dq, i + 1;
      } else {
        return dq[..i] + dq[i + 1..], i;
      }
    }

    /** Erase what is dead or expired from one deque, front to back; `q` is the
        deque, `conns` the states, before the sweep. */
    method PruneDeque(o: Origin, now: int, ghost q: seq<Connection>, ghost conns: map<Connection, ConnState>)
      requires Tied() && o in idle && idle[o] == q && Distinct(q)
      requires forall c :: c in q ==> c in conns && c in known && known[c] == conns[c]
      modifies this`idle, this`known, known.Keys
      ensures Tied() && idle == old(idle)[o := Keep(q, conns, now, cfg.keepAlive)]
      ensures known == PrunedStates(old(known), q, Keep(q, conns, now, cfg.keepAlive))
    {
      var dq := idle[o];
      ghost var k: nat := 0;
      var i := 0;
      PruneBegin(known, q, conns, now, cfg.keepAlive);
      while i < |dq|
        invariant Tied() && known.Keys == old(known).Keys && idle == old(idle)
        invariant k <= |q| && i == |Keep(q[..k], conns, now, cfg.keepAlive)|
        invariant dq == Keep(q[..k], conns, now, cfg.keepAlive) + q[k..]
        invariant known == PrunedStates(old(known), q[..k], Keep(q[..k], conns, now, cfg.keepAlive))
        decreases |q| - k
      {
        dq, i := PruneRound(dq, i, now, old(known), q, conns, k);
        k := k + 1;
      }
      assert q[..k] == q && dq == Keep(q[..k], conns, now, cfg.keepAlive);
      idle := idle[o := dq];
    }

    /** One entry of the table: its deque, then the entry if that is empty. */
    method PruneEntry(ghost s: PoolState, now: int, ghost left: set<Origin>, o: Origin)
      requires Tied() && PoolOk(cfg, now, s) && Covered(s) && known.Keys == s.conns.Keys
      requires o in left && left <= s.idle.Keys && idle == PartPruned(s, now, cfg.keepAlive, left)
      requires known == CloseGone(s.conns, s.idle, idle)
      modifies this`idle, this`known, known.Keys
      ensures Tied() && known.Keys == s.conns.Keys
      ensures idle == PartPruned(s, now, cfg.keepAlive, left - {o})
      ensures known == CloseGone(s.conns, s.idle, idle)
    {
      PruneOne(now, cfg.keepAlive, s, left, o);
      PruneOneIdle(now, cfg.keepAlive, s, left, o);
      PruneOneStates(now, cfg.keepAlive, s, left, o);
      PruneDeque(o, now, s.idle[o], s.conns);
      if idle[o] == [] {
        idle := idle - {o};
      }
    }

    /** The reaper's sweep over the whole table. */
    method PruneAll(ghost s: PoolState, now: int)
      requires Tied() && PoolOk(cfg, now, s) && Covered(s) && idle == s.idle && known == s.conns
      modifies this`idle, this`known, known.Keys
      ensures Tied() && Filed() && known.Keys == s.conns.Keys
      ensures idle == Pruned(s, now, cfg.keepAlive)
      ensures known == CloseGone(s.conns, s.idle, idle)
    {
      PruneStart(now, cfg.keepAlive, s);
      var left := idle.Keys;
      while left != {}
        invariant Tied() && known.Keys == s.conns.Keys && left <= s.idle.Keys
        invariant idle == PartPruned(s, now, cfg.keepAlive, left)
        invariant known == CloseGone(s.conns, s.idle, idle)
      {
        var o :| o in left;
        PruneEntry(s, now, left, o);
        left := left - {o};
      }
      PrunedOk(cfg, now, s);
    }

    method Sweep(ghost s: PoolState, now: int)
      requires Tied() && PoolOk(cfg, now, s) && Covered(s) && idle == s.idle && known == s.conns
      modifies this`idle, this`known, known.Keys
      ensures Tied() && Shrunk(cfg.maxTotalIdle, Pruned(s, now, cfg.keepAlive), idle)
      ensures known == CloseGone(s.conns, s.idle, idle)
    {
      PruneAll(s, now);
      ShrinkGlobalIfNeeded();
      PrunedShrunk(cfg, now, s, idle);
    }

    method RearmOrDisarm(now: int)
      modifies this`reaperArmed, this`waits
      ensures if Total(idle) > 0 && cfg.reapInterval > 0 then
                reaperArmed == old(reaperArmed) && waits == Rearm(old(waits), now, cfg.reapInterval)
              else
                !reaperArmed && waits == old(waits)
    {
      var total := CountIdle();
      if total > 0 && cfg.reapInterval > 0 {
        ScheduleReap(now);
      } else {
        reaperArmed := false;
      }
    }

    /** The handler of the reap timer; it ignores the error code. */
    method Reap(w: nat, now: int)
      requires Tied() && PoolOk(cfg, now, View()) && Covered(View()) && w < |waits|
      modifies this, known.Keys
      ensures Tied() && Reaped(cfg, now, old(View()), w, View())
    {
      ghost var s := View();
      waits := waits[..w] + waits[w + 1..];
      Sweep(s, now);
      RearmOrDisarm(now);
    }

    /** A wait of the reap timer ends. */
    method TimerFires(w: nat, now: int)
      requires Valid(now) && w < |waits|
      modifies this, known.Keys
      ensures Valid(now) && Covered(old(View()))
      ensures Reaped(cfg, now, old(View()), w, View())
    {
      CoveredByInvariant(now, View());
      ghost var s := View();
      Reap(w, now);
      ReapedKeeps(cfg, now, s, w, View());
    }
  }
}
