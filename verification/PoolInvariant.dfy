/** Every strand step of the pool keeps the pool invariant; what leaves the
    idle table is handed out or closed; and drops are always of the least
    recently used connection of a largest deque. */
module PoolInvariant {
  import opened Common
  import opened ConnectionPool

  // ------------------------------------------------- deques under editing

  lemma SliceOk(now: int, conns: map<Connection, ConnState>, o: Origin, q: seq<Connection>, a: nat, b: nat)
    requires a <= b <= |q| && DequeOk(now, conns, o, q)
    ensures DequeOk(now, conns, o, q[a..b])
  {
  }

  lemma SuffixOk(now: int, conns: map<Connection, ConnState>, o: Origin, q: seq<Connection>, r: seq<Connection>)
    requires IsSuffix(r, q) && DequeOk(now, conns, o, q)
    ensures DequeOk(now, conns, o, r)
  {
    SliceOk(now, conns, o, q, |q| - |r|, |q|);
  }

  lemma AppendOk(now: int, conns: map<Connection, ConnState>, o: Origin, q: seq<Connection>, c: Connection)
    requires DequeOk(now, conns, o, q) && c !in q && c.origin == o
    requires c in conns && !conns[c].busy && conns[c].lastUsed == now
    ensures DequeOk(now, conns, o, q + [c])
  {
  }

  lemma PrependOk(now: int, conns: map<Connection, ConnState>, o: Origin, d: Connection, r: seq<Connection>)
    requires DequeOk(now, conns, o, r) && DequeOk(now, conns, o, [d])
    requires forall c :: c in r ==> c != d && conns[d].lastUsed <= conns[c].lastUsed
    ensures DequeOk(now, conns, o, [d] + r)
  {
    assert d in [d];
    var q := [d] + r;
    assert forall c :: c in q ==> c == d || c in r;
    forall i, j | 0 <= i < j < |q| ensures q[i] != q[j] && conns[q[i]].lastUsed <= conns[q[j]].lastUsed {
      assert q[j] == r[j - 1] && r[j - 1] in r;
      assert i > 0 ==> q[i] == r[i - 1];
    }
  }

  lemma {:induction false} KeepOk(now: int, conns: map<Connection, ConnState>, o: Origin, q: seq<Connection>, keepAlive: int)
    requires DequeOk(now, conns, o, q)
    ensures DequeOk(now, conns, o, Keep(q, conns, now, keepAlive))
  {
    if q != [] {
      SliceOk(now, conns, o, q, 1, |q|);
      KeepOk(now, conns, o, q[1..], keepAlive);
      var r := Keep(q[1..], conns, now, keepAlive);
      forall c | c in r ensures c != q[0] && conns[q[0]].lastUsed <= conns[c].lastUsed {
        var i :| 0 <= i < |q[1..]| && q[1..][i] == c;
        assert q[i + 1] == c;
      }
      SliceOk(now, conns, o, q, 0, 1);
      PrependOk(now, conns, o, q[0], r);
    }
  }

  /** A deque stays in order when its own connections keep their stamps. */
  lemma FrameOk(now: int, now': int, a: map<Connection, ConnState>, b: map<Connection, ConnState>, o: Origin, q: seq<Connection>)
    requires DequeOk(now, a, o, q) && now <= now'
    requires forall c :: c in q ==> c in b && b[c].busy == a[c].busy && b[c].lastUsed == a[c].lastUsed
    ensures DequeOk(now', b, o, q)
  {
  }

  lemma CoveredByInvariant(now: int, s: PoolState)
    requires DequesOk(now, s)
    ensures Covered(s)
  {
  }

  /** Idle in the filed sense is idle in the plain sense. */
  lemma IdleSomewhere(now: int, s: PoolState, o: Origin, c: Connection)
    requires DequesOk(now, s) && o in s.idle && c in s.idle[o]
    ensures c.origin == o && IsIdle(s.idle, c)
  {
  }

  /** No connection occurs at two positions of the table. */
  lemma NeverTwice(now: int, s: PoolState, o: Origin, i: nat, p: Origin, j: nat)
    requires DequesOk(now, s)
    requires o in s.idle && i < |s.idle[o]| && p in s.idle && j < |s.idle[p]|
    requires s.idle[o][i] == s.idle[p][j]
    ensures o == p && i == j
  {
    assert s.idle[o][i] in s.idle[o] && s.idle[p][j] in s.idle[p];
  }

  // --------------------------------------------------------- the global cap

  lemma ShrunkSizes(cap: nat, before: IdleMap, after: IdleMap)
    requires Shrunk(cap, before, after)
    ensures Total(after) <= cap && Total(after) <= Total(before)
    ensures forall o :: o in after ==> o in before && IsSuffix(after[o], before[o])
    ensures forall o :: IsSuffix(Dq(after, o), Dq(before, o))
  {
  }

  lemma ShrunkDeques(now: int, conns: map<Connection, ConnState>, cap: nat, before: IdleMap, after: IdleMap)
    requires Shrunk(cap, before, after)
    requires forall o :: o in before ==> DequeOk(now, conns, o, before[o])
    ensures forall o :: o in after ==> DequeOk(now, conns, o, after[o])
    ensures forall c :: IsIdle(after, c) ==> IsIdle(before, c)
  {
    ShrunkSizes(cap, before, after);
    forall o | o in after ensures DequeOk(now, conns, o, after[o]) {
      SuffixOk(now, conns, o, before[o], after[o]);
    }
    forall c | IsIdle(after, c) ensures IsIdle(before, c) {
      assert IsSuffix(Dq(after, c.origin), Dq(before, c.origin));
    }
  }

  lemma SuffixIsNewer(now: int, conns: map<Connection, ConnState>, o: Origin, q: seq<Connection>, r: seq<Connection>, lost: Connection, kept: Connection)
    requires DequeOk(now, conns, o, q) && IsSuffix(r, q)
    requires lost in q && lost !in r && kept in r
    ensures kept in q && |r| < |q| && conns[lost].lastUsed <= conns[kept].lastUsed
  {
    var d := |q| - |r|;
    assert q == q[..d] + r;
    var i :| 0 <= i < d && q[i] == lost;
    var j :| 0 <= j < |r| && r[j] == kept;
    assert kept == q[d + j];
  }

  /** If the cap cost an origin a connection, no origin is left with two more
      than it has, and what it lost is no newer than all it kept. */
  lemma ShrinkIsFair(now: int, s: PoolState, cap: nat, after: IdleMap, o: Origin, p: Origin, lost: Connection)
    requires DequesOk(now, s) && Shrunk(cap, s.idle, after)
    requires o in s.idle && p in s.idle
    requires lost in s.idle[o] && lost !in Dq(after, o)
    ensures |Dq(after, p)| <= |Dq(after, o)| + 1
    ensures forall kept :: kept in Dq(after, o) ==>
                             kept in s.idle[o] && s.conns[lost].lastUsed <= s.conns[kept].lastUsed
  {
    var q, r := s.idle[o], Dq(after, o);
    assert after != s.idle;
    assert IsSuffix(r, q);
    assert |r| < |q|;
    forall kept | kept in r ensures kept in q && s.conns[lost].lastUsed <= s.conns[kept].lastUsed {
      SuffixIsNewer(now, s.conns, o, q, r, lost, kept);
    }
  }

  // ------------------------------------------------- preservation, by step

  lemma StampsKept(now: int, now': int, conns: map<Connection, ConnState>, conns': map<Connection, ConnState>, idle: IdleMap)
    requires now <= now'
    requires forall o :: o in idle ==> DequeOk(now, conns, o, idle[o])
    requires forall c :: c in conns && IsIdle(idle, c) ==>
                           c in conns' && conns'[c].busy == conns[c].busy && conns'[c].lastUsed == conns[c].lastUsed
    ensures forall o :: o in idle ==> DequeOk(now', conns', o, idle[o])
  {
    forall o | o in idle ensures DequeOk(now', conns', o, idle[o]) {
      forall c | c in idle[o]
        ensures c in conns' && conns'[c].busy == conns[c].busy && conns'[c].lastUsed == conns[c].lastUsed
      {
        assert IsIdle(idle, c);
      }
      FrameOk(now, now', conns, conns', o, idle[o]);
    }
  }

  lemma AcquireDeques(cfg: PoolConfig, now: int, s: PoolState, o: Origin)
    requires DequesOk(now, s) && Covered(s)
    ensures DequesOk(now, AcquireState(cfg, now, s, o))
    ensures forall c :: IsIdle(AcquireState(cfg, now, s, o).idle, c) ==>
                          IsIdle(s.idle, c) && AcquireState(cfg, now, s, o).conns[c] == s.conns[c]
  {
    var q := Dq(s.idle, o);
    var i := LastUsable(q, s.conns, now, cfg.keepAlive);
    var s' := AcquireState(cfg, now, s, o);
    forall p | p in s'.idle ensures DequeOk(now, s.conns, p, s'.idle[p]) {
      if p == o && o in s.idle && 0 <= i {
        SliceOk(now, s.conns, o, q, 0, i);
        assert q[0..i] == s'.idle[o];
      }
    }
    if 0 <= i {
      assert q[i] in q && q[i] !in s'.idle[o];
    }
    forall c: Connection | IsIdle(s'.idle, c) ensures IsIdle(s.idle, c) && s'.conns[c] == s.conns[c] {
      assert c in q || c.origin != o;
    }
    StampsKept(now, now, s.conns, s'.conns, s'.idle);
  }

  lemma AcquireKeeps(cfg: PoolConfig, now: int, s: PoolState, o: Origin)
    requires PoolOk(cfg, now, s)
    ensures Covered(s) && PoolOk(cfg, now, AcquireState(cfg, now, s, o))
  {
    CoveredByInvariant(now, s);
    AcquireDeques(cfg, now, s, o);
    var s' := AcquireState(cfg, now, s, o);
    TotalUpdate(s.idle, o, s'.idle[o]);
    if cfg.keepAlive >= 0 {
      AgesKept(cfg, now, s, s');
    }
  }

  /** A step that only removes from the table and keeps the waits. */
  lemma AgesKept(cfg: PoolConfig, now: int, s: PoolState, s': PoolState)
    requires AgesOk(cfg, now, s) && DequesOk(now, s) && DequesOk(now, s') && s'.waits == s.waits
    requires forall c :: IsIdle(s'.idle, c) ==>
                           IsIdle(s.idle, c) && c in s.conns && c in s'.conns && s'.conns[c].lastUsed == s.conns[c].lastUsed
    ensures AgesOk(cfg, now, s')
  {
    forall w, o, c | w in s'.waits && o in s'.idle && c in s'.idle[o] && c in s'.conns
      ensures w <= s'.conns[c].lastUsed + cfg.keepAlive + cfg.reapInterval
    {
      assert IsIdle(s'.idle, c);
    }
  }

  /** What `acquire` removes is handed out alive and unexpired, or closed. */
  lemma AcquireLeaves(cfg: PoolConfig, now: int, s: PoolState, o: Origin, c: Connection)
    requires DequesOk(now, s) && IsIdle(s.idle, c) && Covered(s)
    ensures var s' := AcquireState(cfg, now, s, o);
            !IsIdle(s'.idle, c) ==>
              if AcquireResult(cfg, now, s, o) == Some(c) then
                Usable(s.conns[c], now, cfg.keepAlive) && s'.conns[c] == s.conns[c].(busy := true)
              else !s'.conns[c].open
  {
  }

  /** The connection handed out was idle under that origin, is no longer, and
      is at least as recently used as every one left behind; none is handed
      out only if none was usable. */
  lemma AcquireMostRecent(cfg: PoolConfig, now: int, s: PoolState, o: Origin)
    requires DequesOk(now, s) && Covered(s)
    ensures var s' := AcquireState(cfg, now, s, o);
            match AcquireResult(cfg, now, s, o)
            case None => Dq(s'.idle, o) == [] &&
                         forall c :: c in Dq(s.idle, o) ==> !Usable(s.conns[c], now, cfg.keepAlive)
            case Some(c) => c in Dq(s.idle, o) && !IsIdle(s'.idle, c) && c.origin == o &&
                            (forall d :: d in Dq(s'.idle, o) ==> s.conns[d].lastUsed <= s.conns[c].lastUsed) &&
                            (forall d :: d in Dq(s.idle, o) && Usable(s.conns[d], now, cfg.keepAlive) ==>
                                           s.conns[d].lastUsed <= s.conns[c].lastUsed)
    ensures forall p :: p != o ==> Dq(AcquireState(cfg, now, s, o).idle, p) == Dq(s.idle, p)
  {
    var q := Dq(s.idle, o);
    var i := LastUsable(q, s.conns, now, cfg.keepAlive);
    if 0 <= i {
      assert q[i] in q;
      assert q[i] !in q[..i];
    }
  }

  /** `release` reads the front of a deque only if there is one. */
  predicate FrontThere(cfg: PoolConfig, idle: IdleMap, c: Connection) {
    |Dq(idle, c.origin)| >= cfg.maxIdlePerOrigin ==> Dq(idle, c.origin) != []
  }

  /** It is safe in every pool exactly when the cap per origin is at least one. */
  lemma FrontThereExactly(cfg: PoolConfig, c: Connection)
    ensures (forall idle :: FrontThere(cfg, idle, c)) <==> cfg.maxIdlePerOrigin >= 1
  {
    assert Dq(map[], c.origin) == [];
    assert FrontThere(cfg, map[], c) <==> cfg.maxIdlePerOrigin >= 1;
  }

  lemma PushIdleOk(cfg: PoolConfig, now: int, s: PoolState, c: Connection, conns': map<Connection, ConnState>)
    requires cfg.maxIdlePerOrigin >= 1 && PoolOk(cfg, now, s) && c in s.conns && !IsIdle(s.idle, c)
    requires conns' == s.conns[c := ConnState(false, now, true)]
    ensures forall o :: o in PushIdle(cfg, s.idle, c) ==>
                          && DequeOk(now, conns', o, PushIdle(cfg, s.idle, c)[o])
                          && |PushIdle(cfg, s.idle, c)[o]| <= cfg.maxIdlePerOrigin
    ensures forall d :: IsIdle(PushIdle(cfg, s.idle, c), d) ==> d == c || IsIdle(s.idle, d)
  {
    var idle1 := PushIdle(cfg, s.idle, c);
    var q := Dq(s.idle, c.origin);
    StampsKept(now, now, s.conns, conns', s.idle);
    var cut := if |q| >= cfg.maxIdlePerOrigin then 1 else 0;
    assert idle1[c.origin] == q[cut..|q|] + [c];
    SliceOk(now, conns', c.origin, q, cut, |q|);
    AppendOk(now, conns', c.origin, q[cut..|q|], c);
  }

  lemma ReleasedKeeps(cfg: PoolConfig, now: int, s: PoolState, c: Connection, canReuse: bool, s': PoolState)
    requires cfg.maxIdlePerOrigin >= 1 && PoolOk(cfg, now, s) && c in s.conns && !IsIdle(s.idle, c)
    requires Released(cfg, now, s, c, canReuse, s')
    ensures PoolOk(cfg, now, s')
  {
    if !canReuse || !s.conns[c].open {
      StampsKept(now, now, s.conns, s'.conns, s.idle);
      forall w, o, d | w in s'.waits && o in s'.idle && d in s'.idle[o]
        ensures d in s'.conns && s'.conns[d].lastUsed == s.conns[d].lastUsed
      {
        assert IsIdle(s.idle, d);
      }
    } else {
      var stamped := s.conns[c := ConnState(false, now, true)];
      var idle1 := PushIdle(cfg, s.idle, c);
      PushIdleOk(cfg, now, s, c, stamped);
      ShrunkSizes(cfg.maxTotalIdle, idle1, s'.idle);
      ShrunkDeques(now, stamped, cfg.maxTotalIdle, idle1, s'.idle);
      StampsKept(now, now, stamped, s'.conns, s'.idle);
      if cfg.keepAlive >= 0 {
        ReleasedAges(cfg, now, s, c, s');
      }
    }
  }

  lemma ReleasedAges(cfg: PoolConfig, now: int, s: PoolState, c: Connection, s': PoolState)
    requires cfg.maxIdlePerOrigin >= 1 && PoolOk(cfg, now, s) && c in s.conns && !IsIdle(s.idle, c)
    requires s.conns[c].open && Released(cfg, now, s, c, true, s') && cfg.keepAlive >= 0
    ensures AgesOk(cfg, now, s')
  {
    var stamped := s.conns[c := ConnState(false, now, true)];
    PushIdleOk(cfg, now, s, c, stamped);
    ShrunkDeques(now, stamped, cfg.maxTotalIdle, PushIdle(cfg, s.idle, c), s'.idle);
    forall w | w in s'.waits
      ensures w <= now + cfg.reapInterval
    {
    }
    forall w, o, d | w in s'.waits && o in s'.idle && d in s'.idle[o] && d in s'.conns
      ensures w <= s'.conns[d].lastUsed + cfg.keepAlive + cfg.reapInterval
    {
      assert IsIdle(s'.idle, d) && d.origin == o;
      if d != c {
        assert IsIdle(s.idle, d) && o in s.idle;
        if w !in s.waits {
          AnyIdle(cfg, s, d);
          assert false;
        }
      }
    }
  }

  /** Something idle means the reaper is armed, provided it is enabled. */
  lemma AnyIdle(cfg: PoolConfig, s: PoolState, d: Connection)
    requires ReaperOk(cfg, s) && IsIdle(s.idle, d) && cfg.reapInterval > 0
    ensures s.armed
  {
    TotalPositive(s.idle, d.origin);
  }

  /** What `release` pushes out is closed, and so is a connection given back
      that does not end up idle; one that is kept is open and stamped now. */
  lemma ReleasedLeaves(cfg: PoolConfig, now: int, s: PoolState, c: Connection, canReuse: bool, s': PoolState, d: Connection)
    requires cfg.maxIdlePerOrigin >= 1 && c in s.conns && Covered(s)
    requires Released(cfg, now, s, c, canReuse, s')
    requires IsIdle(s.idle, d) || d == c
    ensures d in s'.conns
    ensures !IsIdle(s'.idle, d) ==> !s'.conns[d].open
    ensures !IsIdle(s.idle, c) && IsIdle(s'.idle, c) ==> canReuse && s'.conns[c] == ConnState(false, now, true)
  {
  }

  lemma PrunedOk(cfg: PoolConfig, now: int, s: PoolState)
    requires PoolOk(cfg, now, s) && Covered(s)
    ensures forall o :: o in Pruned(s, now, cfg.keepAlive) ==>
                          && DequeOk(now, s.conns, o, Pruned(s, now, cfg.keepAlive)[o])
                          && |Pruned(s, now, cfg.keepAlive)[o]| <= cfg.maxIdlePerOrigin
    ensures forall d :: IsIdle(Pruned(s, now, cfg.keepAlive), d) ==>
                          IsIdle(s.idle, d) && Usable(s.conns[d], now, cfg.keepAlive)
  {
    forall o | o in s.idle ensures DequeOk(now, s.conns, o, Keep(s.idle[o], s.conns, now, cfg.keepAlive)) {
      KeepOk(now, s.conns, o, s.idle[o], cfg.keepAlive);
    }
  }

  lemma ReapedDeques(cfg: PoolConfig, now: int, s: PoolState, w: nat, s': PoolState)
    requires PoolOk(cfg, now, s) && w < |s.waits| && Covered(s)
    requires Reaped(cfg, now, s, w, s')
    ensures DequesOk(now, s') && CapsOk(cfg, s')
    ensures forall d :: IsIdle(s'.idle, d) ==>
                          IsIdle(s.idle, d) && s'.conns[d] == s.conns[d] && Usable(s.conns[d], now, cfg.keepAlive)
  {
    var idle1 := Pruned(s, now, cfg.keepAlive);
    PrunedOk(cfg, now, s);
    ShrunkSizes(cfg.maxTotalIdle, idle1, s'.idle);
    ShrunkDeques(now, s.conns, cfg.maxTotalIdle, idle1, s'.idle);
    StampsKept(now, now, s.conns, s'.conns, s'.idle);
  }

  lemma ReapedReaper(cfg: PoolConfig, now: int, s: PoolState, w: nat, s': PoolState)
    requires ReaperOk(cfg, s) && w < |s.waits| && Covered(s)
    requires Reaped(cfg, now, s, w, s')
    ensures ReaperOk(cfg, s') && forall v :: v in s'.waits ==> v == now + cfg.reapInterval
  {
    assert s.waits[..w] + s.waits[w + 1..] == [];
  }

  lemma ReapedAges(cfg: PoolConfig, now: int, s: PoolState, w: nat, s': PoolState)
    requires PoolOk(cfg, now, s) && w < |s.waits| && Covered(s) && cfg.keepAlive >= 0
    requires Reaped(cfg, now, s, w, s')
    ensures AgesOk(cfg, now, s')
  {
    ReapedDeques(cfg, now, s, w, s');
    ReapedReaper(cfg, now, s, w, s');
    forall o, d: Connection | o in s'.idle && d in s'.idle[o] && d in s'.conns
      ensures now + cfg.reapInterval <= s'.conns[d].lastUsed + cfg.keepAlive + cfg.reapInterval
    {
      assert IsIdle(s'.idle, d);
    }
  }

  lemma ReapedKeeps(cfg: PoolConfig, now: int, s: PoolState, w: nat, s': PoolState)
    requires PoolOk(cfg, now, s) && w < |s.waits| && Covered(s)
    requires Reaped(cfg, now, s, w, s')
    ensures PoolOk(cfg, now, s')
  {
    ReapedDeques(cfg, now, s, w, s');
    ReapedReaper(cfg, now, s, w, s');
    if cfg.keepAlive >= 0 {
      ReapedAges(cfg, now, s, w, s');
    }
  }

  /** What the reaper removes is closed, and everything dead or expired goes. */
  lemma ReapedLeaves(cfg: PoolConfig, now: int, s: PoolState, w: nat, s': PoolState, d: Connection)
    requires PoolOk(cfg, now, s) && w < |s.waits| && Covered(s)
    requires Reaped(cfg, now, s, w, s') && IsIdle(s.idle, d)
    ensures d in s'.conns
    ensures !IsIdle(s'.idle, d) ==> !s'.conns[d].open
    ensures !Usable(s.conns[d], now, cfg.keepAlive) ==> !IsIdle(s'.idle, d)
    ensures Usable(s.conns[d], now, cfg.keepAlive) && !IsIdle(s'.idle, d) ==> Total(s'.idle) == cfg.maxTotalIdle
  {
    PrunedOk(cfg, now, s);
    ShrunkDeques(now, s.conns, cfg.maxTotalIdle, Pruned(s, now, cfg.keepAlive), s'.idle);
  }

  /** Nothing but a step of the pool touches the table: time passing and a
      connection that is not idle changing keep the invariant. */
  lemma OutsideKeeps(cfg: PoolConfig, now: int, now': int, s: PoolState, s': PoolState)
    requires PoolOk(cfg, now, s) && now <= now'
    requires s' == s.(conns := s'.conns)
    requires forall c :: c in s.conns && IsIdle(s.idle, c) ==>
                           c in s'.conns && s'.conns[c].busy == s.conns[c].busy && s'.conns[c].lastUsed == s.conns[c].lastUsed
    ensures PoolOk(cfg, now', s')
  {
    StampsKept(now, now', s.conns, s'.conns, s.idle);
    if cfg.keepAlive >= 0 {
      forall w, o, c | w in s'.waits && o in s'.idle && c in s'.idle[o] && c in s'.conns
        ensures w <= s'.conns[c].lastUsed + cfg.keepAlive + cfg.reapInterval
      {
        assert IsIdle(s.idle, c);
      }
    }
  }
}
