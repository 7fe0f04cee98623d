/** What `acquire`, `release` and the reaper do to every single connection, said
    in terms of who is idle before and after. */
module PoolLaws {
  import opened Common
  import opened ConnectionPool
  import opened PoolInvariant

  // --------------------------------------------------------------- acquire

  /** A connection is handed out if and only if some idle one of the origin is
      open and no longer idle than the keep-alive. */
  lemma AcquireReuses(cfg: PoolConfig, now: int, s: PoolState, o: Origin)
    requires Covered(s)
    ensures AcquireResult(cfg, now, s, o).Some? <==>
            exists c :: c in Dq(s.idle, o) && s.conns[c].open && now - s.conns[c].lastUsed <= cfg.keepAlive
  {
    var q := Dq(s.idle, o);
    var i := LastUsable(q, s.conns, now, cfg.keepAlive);
    if 0 <= i {
      assert q[i] in q;
    }
  }

  /** The deque is cut at the connection handed out: what is before it stays as
      it was, itself is busy, and what is behind it was of no use and is closed. */
  lemma AcquireCuts(cfg: PoolConfig, now: int, s: PoolState, o: Origin, n: nat)
    requires DequesOk(now, s) && Covered(s)
    requires n < |Dq(s.idle, o)| && AcquireResult(cfg, now, s, o) == Some(Dq(s.idle, o)[n])
    ensures var q, s' := Dq(s.idle, o), AcquireState(cfg, now, s, o);
            && Dq(s'.idle, o) == q[..n] && s'.conns.Keys == s.conns.Keys
            && s'.conns[q[n]] == s.conns[q[n]].(busy := true)
            && (forall i :: n < i < |q| ==>
                              && !(s.conns[q[i]].open && now - s.conns[q[i]].lastUsed <= cfg.keepAlive)
                              && s'.conns[q[i]] == s.conns[q[i]].(open := false))
            && (forall d :: d in s.conns && d !in q[n..] ==> s'.conns[d] == s.conns[d])
  {
    var q, s' := Dq(s.idle, o), AcquireState(cfg, now, s, o);
    CutAt(cfg, now, s, o, n);
    forall d: Connection | d in s.conns ensures IsIdle(s.idle, d) && !IsIdle(s'.idle, d) <==> d in q[n..] {
      CutGone(now, s, o, n, d);
    }
    forall i | n < i < |q| ensures q[i] in q[n..] && q[i] != q[n] {
      assert q[n..][i - n] == q[i];
    }
    assert q[n..][0] == q[n];
  }

  lemma CutAt(cfg: PoolConfig, now: int, s: PoolState, o: Origin, n: nat)
    requires DequesOk(now, s) && Covered(s)
    requires n < |Dq(s.idle, o)| && AcquireResult(cfg, now, s, o) == Some(Dq(s.idle, o)[n])
    ensures var q := Dq(s.idle, o);
            && LastUsable(q, s.conns, now, cfg.keepAlive) == n
            && AcquireState(cfg, now, s, o)
            == s.(idle := s.idle[o := q[..n]],
                  conns := CloseGone(s.conns, s.idle, s.idle[o := q[..n]])[q[n] := s.conns[q[n]].(busy := true)])
            && Dq(AcquireState(cfg, now, s, o).idle, o) == q[..n] && q[n] in s.conns
  {
    var q := Dq(s.idle, o);
    assert q[n] in q && q[LastUsable(q, s.conns, now, cfg.keepAlive)] == q[n];
  }

  lemma CutGone(now: int, s: PoolState, o: Origin, n: nat, d: Connection)
    requires DequesOk(now, s) && n <= |Dq(s.idle, o)|
    ensures IsIdle(s.idle, d) && !IsIdle(s.idle[o := Dq(s.idle, o)[..n]], d) <==> d in Dq(s.idle, o)[n..]
  {
    var q := Dq(s.idle, o);
    assert q == q[..n] + q[n..];
    if d in q[n..] {
      assert d in s.idle[o];
      var j :| 0 <= j < |q[n..]| && q[n..][j] == d;
      assert q[n + j] == d;
    }
  }

  /** Without one the whole deque was of no use: it is closed and emptied. */
  lemma AcquireEmpties(cfg: PoolConfig, now: int, s: PoolState, o: Origin)
    requires DequesOk(now, s) && Covered(s) && AcquireResult(cfg, now, s, o).None?
    ensures var s' := AcquireState(cfg, now, s, o);
            && Dq(s'.idle, o) == [] && s'.conns.Keys == s.conns.Keys
            && forall d :: d in s.conns ==>
                             s'.conns[d] == if d in Dq(s.idle, o) then s.conns[d].(open := false) else s.conns[d]
  {
    var q, s' := Dq(s.idle, o), AcquireState(cfg, now, s, o);
    forall d: Connection | d in s.conns ensures IsIdle(s.idle, d) && !IsIdle(s'.idle, d) <==> d in q {
      CutGone(now, s, o, 0, d);
      assert q[0..] == q && q[..0] == [];
    }
  }

  // --------------------------------------------------------------- release

  lemma PushTotal(cfg: PoolConfig, idle: IdleMap, c: Connection)
    requires cfg.maxIdlePerOrigin >= 1
    ensures Total(PushIdle(cfg, idle, c)) == Total(idle) + if |Dq(idle, c.origin)| >= cfg.maxIdlePerOrigin then 0 else 1
  {
    TotalUpdate(idle, c.origin, PushIdle(cfg, idle, c)[c.origin]);
  }

  /** A connection that may be reused and is alive is filed, last in its deque:
      the deque takes it whole, or gives up its front at the cap per origin.
      That is all, unless the global cap is exceeded. */
  lemma ReleasedFiled(cfg: PoolConfig, now: int, s: PoolState, c: Connection, s': PoolState)
    requires cfg.maxIdlePerOrigin >= 1 && c in s.conns && s.conns[c].open && Released(cfg, now, s, c, true, s')
    requires var full := |Dq(s.idle, c.origin)| >= cfg.maxIdlePerOrigin;
             Total(s.idle) + (if full then 0 else 1) <= cfg.maxTotalIdle
    ensures var q := Dq(s.idle, c.origin);
            && Dq(s'.idle, c.origin) == (if |q| < cfg.maxIdlePerOrigin then q else q[1..]) + [c]
            && forall o :: o != c.origin ==> Dq(s'.idle, o) == Dq(s.idle, o)
  {
    PushTotal(cfg, s.idle, c);
  }

  /** In every case it ends idle and last in its deque, unless the global cap
      emptied that deque. */
  lemma ReleasedLast(cfg: PoolConfig, now: int, s: PoolState, c: Connection, s': PoolState)
    requires cfg.maxIdlePerOrigin >= 1 && c in s.conns && s.conns[c].open && Released(cfg, now, s, c, true, s')
    ensures var q := Dq(s'.idle, c.origin);
            if q == [] then Total(s'.idle) == cfg.maxTotalIdle && Total(s.idle) >= cfg.maxTotalIdle
            else q[|q| - 1] == c && IsIdle(s'.idle, c) && s'.conns[c] == ConnState(false, now, true)
  {
    PushTotal(cfg, s.idle, c);
    var before := PushIdle(cfg, s.idle, c);
    ShrunkSizes(cfg.maxTotalIdle, before, s'.idle);
    var q, b := Dq(s'.idle, c.origin), before[c.origin];
    assert IsSuffix(q, b) && b[|b| - 1] == c;
    if q != [] {
      assert q[|q| - 1] == b[|b| - 1];
      assert c in q;
    }
  }

  /** Whoever was idle stays idle, but for the front of a deque at the cap per
      origin, and for what the global cap takes. */
  lemma ReleasedStay(cfg: PoolConfig, now: int, s: PoolState, c: Connection, s': PoolState, d: Connection)
    requires cfg.maxIdlePerOrigin >= 1 && c in s.conns && s.conns[c].open && Released(cfg, now, s, c, true, s')
    requires IsIdle(s.idle, d) && !IsIdle(s'.idle, d)
    ensures || (|Dq(s.idle, c.origin)| >= cfg.maxIdlePerOrigin && d == Dq(s.idle, c.origin)[0])
            || (Total(s'.idle) == cfg.maxTotalIdle && Total(s.idle) >= cfg.maxTotalIdle)
  {
    PushTotal(cfg, s.idle, c);
    var q := Dq(s.idle, c.origin);
    var before := PushIdle(cfg, s.idle, c);
    if Total(before) <= cfg.maxTotalIdle {
      assert d.origin == c.origin && d in q && d !in before[c.origin];
      if |q| >= cfg.maxIdlePerOrigin {
        assert q == [q[0]] + q[1..];
      }
    }
  }

  /** Nobody else is touched: a connection that was not idle, or still is, is as
      it was. */
  lemma ReleasedOthers(cfg: PoolConfig, now: int, s: PoolState, c: Connection, canReuse: bool, s': PoolState, d: Connection)
    requires cfg.maxIdlePerOrigin >= 1 && c in s.conns && Released(cfg, now, s, c, canReuse, s')
    requires d in s.conns && d != c && (!IsIdle(s.idle, d) || IsIdle(s'.idle, d))
    ensures d in s'.conns && s'.conns[d] == s.conns[d]
  {
  }

  /** A connection that may not be reused, or is dead, is closed and that is all. */
  lemma ReleasedRefused(cfg: PoolConfig, now: int, s: PoolState, c: Connection, canReuse: bool, s': PoolState)
    requires cfg.maxIdlePerOrigin >= 1 && c in s.conns && Released(cfg, now, s, c, canReuse, s')
    requires !canReuse || !s.conns[c].open
    ensures s'.idle == s.idle && s'.armed == s.armed && s'.waits == s.waits
    ensures c in s'.conns && !s'.conns[c].open && s'.conns.Keys == s.conns.Keys
  {
  }

  /** The reaper is armed by the release that leaves something idle, and its
      wait ends one interval later; an armed one is left alone. */
  lemma ReleasedArms(cfg: PoolConfig, now: int, s: PoolState, c: Connection, s': PoolState)
    requires cfg.maxIdlePerOrigin >= 1 && cfg.reapInterval > 0 && ReaperOk(cfg, s)
    requires c in s.conns && s.conns[c].open && Released(cfg, now, s, c, true, s')
    ensures if s.armed then s'.armed && s'.waits == s.waits
            else if Dq(s'.idle, c.origin) != [] then s'.armed && s'.waits == [now + cfg.reapInterval]
            else s'.armed <==> Total(s'.idle) > 0
  {
    if Dq(s'.idle, c.origin) != [] {
      TotalPositive(s'.idle, c.origin);
    }
  }

  // ---------------------------------------------------------------- reaper

  lemma {:induction false} TotalMonotone(a: IdleMap, b: IdleMap)
    requires forall o :: o in a ==> |a[o]| <= |Dq(b, o)|
    ensures Total(a) <= Total(b)
    decreases |a|
  {
    if a != map[] {
      var o :| o in a;
      TotalRemove(a, o);
      if o in b {
        TotalRemove(b, o);
        TotalMonotone(a - {o}, b - {o});
      } else {
        TotalMonotone(a - {o}, b);
      }
    }
  }

  /** The rest of `a` after leaving out some elements, in order. */
  predicate Subsequence(a: seq<Connection>, b: seq<Connection>)
    decreases |b|
  {
    if a == [] then true
    else if b == [] then false
    else if a[0] == b[0] then Subsequence(a[1..], b[1..])
    else Subsequence(a, b[1..])
  }

  lemma {:induction false} KeepOrder(q: seq<Connection>, conns: map<Connection, ConnState>, now: int, keepAlive: int)
    requires Distinct(q) && forall c :: c in q ==> c in conns
    ensures Subsequence(Keep(q, conns, now, keepAlive), q)
  {
    if q != [] {
      KeepOrder(q[1..], conns, now, keepAlive);
      var r := Keep(q[1..], conns, now, keepAlive);
      if r != [] {
        assert r[0] in q[1..];
        var j :| 0 <= j < |q[1..]| && q[1..][j] == r[0];
        assert q[j + 1] == r[0];
      }
    }
  }

  /** The reaper keeps exactly the idle connections that are open and not idle
      for longer than the keep-alive, each deque in its order. The global cap
      takes none, since the table was within it. */
  lemma ReapedExactly(cfg: PoolConfig, now: int, s: PoolState, w: nat, s': PoolState)
    requires PoolOk(cfg, now, s) && w < |s.waits| && Covered(s) && Reaped(cfg, now, s, w, s')
    ensures forall d :: IsIdle(s'.idle, d) <==>
                        IsIdle(s.idle, d) && s.conns[d].open && now - s.conns[d].lastUsed <= cfg.keepAlive
    ensures forall o :: Subsequence(Dq(s'.idle, o), Dq(s.idle, o))
    ensures forall d :: d in s.conns ==>
                          d in s'.conns
                          && s'.conns[d] == if IsIdle(s.idle, d) && !IsIdle(s'.idle, d) then s.conns[d].(open := false) else s.conns[d]
  {
    var kept := Pruned(s, now, cfg.keepAlive);
    TotalMonotone(kept, s.idle);
    assert s'.idle == kept;
    forall o ensures Subsequence(Dq(kept, o), Dq(s.idle, o)) {
      if o in s.idle {
        KeepOrder(s.idle[o], s.conns, now, cfg.keepAlive);
      }
    }
  }

  lemma FrontIdle(now: int, s: PoolState)
    requires DequesOk(now, s)
    ensures forall o :: o in s.idle && s.idle[o] != [] ==> IsIdle(s.idle, s.idle[o][0])
  {
    forall o | o in s.idle && s.idle[o] != [] ensures IsIdle(s.idle, s.idle[o][0]) {
      IdleSomewhere(now, s, o, s.idle[o][0]);
    }
  }

  lemma AnyIdleTotal(now: int, s: PoolState)
    requires DequesOk(now, s)
    ensures (exists d :: IsIdle(s.idle, d)) <==> Total(s.idle) > 0
  {
    FrontIdle(now, s);
    if d :| IsIdle(s.idle, d) {
      TotalPositive(s.idle, d.origin);
    } else {
      TotalZero(s.idle);
    }
  }

  /** It goes on, with a wait of one interval, exactly while something is idle. */
  lemma ReapedGoesOn(cfg: PoolConfig, now: int, s: PoolState, w: nat, s': PoolState)
    requires PoolOk(cfg, now, s) && w < |s.waits| && Covered(s) && Reaped(cfg, now, s, w, s')
    ensures if exists d :: IsIdle(s'.idle, d) then s'.armed && s'.waits == [now + cfg.reapInterval]
            else !s'.armed && s'.waits == []
  {
    ReapedDeques(cfg, now, s, w, s');
    AnyIdleTotal(now, s');
    ReapedWaits(cfg, now, s, w, s');
  }

  lemma ReapedWaits(cfg: PoolConfig, now: int, s: PoolState, w: nat, s': PoolState)
    requires ReaperOk(cfg, s) && w < |s.waits| && Covered(s) && Reaped(cfg, now, s, w, s')
    ensures if Total(s'.idle) > 0 then s'.armed && s'.waits == [now + cfg.reapInterval] else !s'.armed && s'.waits == []
  {
    assert s.waits[..w] + s.waits[w + 1..] == [];
  }
}
