/** What holds in every run of the pool with its sessions. */
module PooledRuns {
  import opened Common
  import opened ConnectionPool
  import opened PoolInvariant
  import opened PooledSessions

  // ------------------------------------------------------ the release log

  lemma StoryAppend(log: seq<Event>, e: Event, sid: nat)
    ensures Story(log + [e], sid) == if e.sid == sid then Story(log, sid) + [e] else Story(log, sid)
  {
    assert (log + [e])[..|log|] == log;
  }

  /** A grant answered. */
  lemma Answered(story: seq<Event>, r: Event)
    requires story != [] && story[|story| - 1].Granted? && Balanced(story[..|story| - 1])
    requires r.Returned? && r.conn == story[|story| - 1].conn && (r.reuse ==> r.code == 0)
    ensures Balanced(story + [r])
  {
    var after := story + [r];
    assert after[..|after| - 2] == story[..|story| - 1];
    assert after[|after| - 2] == story[|story| - 1] && after[|after| - 1] == r;
  }

  /** A new grant. */
  lemma Opened(story: seq<Event>, g: Event, phase: Phase)
    requires Balanced(story) && g.Granted? && phase.Using? && phase.conn == g.conn
    ensures OneRelease(story + [g], phase)
  {
    assert (story + [g])[..|story|] == story;
  }

  /** The other sessions' stories go on unchanged. */
  lemma OneMore(s: System, s': System, sid: nat, e: Event)
    requires ReleasedOnce(s) && sid in s.sessions && sid in s'.sessions && e.sid == sid
    requires s'.log == s.log + [e] && s'.sessions == s.sessions[sid := s'.sessions[sid]]
    requires OneRelease(Story(s.log, sid) + [e], s'.sessions[sid].phase)
    ensures ReleasedOnce(s')
  {
    forall a | a in s'.sessions ensures OneRelease(Story(s'.log, a), s'.sessions[a].phase) {
      StoryAppend(s.log, e, a);
      assert OneRelease(Story(s.log, a), s.sessions[a].phase);
    }
  }

  lemma FinishLog(s: System, sid: nat, c: Connection, reusable: bool, code: nat)
    requires ReleasedOnce(s) && sid in s.sessions && s.sessions[sid].phase.Using? && s.sessions[sid].phase.conn == c
    requires c in s.pool.conns && (reusable ==> code == 0)
    ensures ReleasedOnce(Finish(s, sid, c, reusable, code))
  {
    assert OneRelease(Story(s.log, sid), s.sessions[sid].phase);
    Answered(Story(s.log, sid), Returned(sid, c, reusable, code));
    OneMore(s, Finish(s, sid, c, reusable, code), sid, Returned(sid, c, reusable, code));
  }

  lemma GrantLog(s: System, sid: nat, c: Connection)
    requires ReleasedOnce(s) && sid in s.sessions && !s.sessions[sid].phase.Using?
    ensures ReleasedOnce(Granting(s, sid, c))
  {
    assert OneRelease(Story(s.log, sid), s.sessions[sid].phase);
    Opened(Story(s.log, sid), Granted(sid, c), Granting(s, sid, c).sessions[sid].phase);
    OneMore(s, Granting(s, sid, c), sid, Granted(sid, c));
  }

  // ------------------------------------------------------------ ownership

  /** A pool step that only takes connections out of the table. */
  lemma StillExclusive(s: System, s': System)
    requires Exclusive(s) && s'.sessions == s.sessions
    requires s'.posted == s.posted
    requires forall c :: c in s.pool.conns ==> c in s'.pool.conns
    requires forall c :: IsIdle(s'.pool.idle, c) ==> IsIdle(s.pool.idle, c)
    ensures Exclusive(s')
  {
  }

  lemma FinishExclusive(s: System, sid: nat, c: Connection, reusable: bool, code: nat)
    requires Exclusive(s) && Holds(s, sid, c) && c in s.pool.conns
    ensures Exclusive(Finish(s, sid, c, reusable, code))
  {
    var s' := Finish(s, sid, c, reusable, code);
    forall a | a in s'.sessions && a != sid ensures s'.sessions[a] == s.sessions[a] {
    }
    assert ConnOf(s'.sessions[sid].phase) == None;
  }

  /** A session without a connection takes one nobody owns. */
  lemma TakeExclusive(s: System, sid: nat, c: Connection, s': System)
    requires Exclusive(s) && sid in s.sessions && sid in s'.sessions
    requires s'.sessions == s.sessions[sid := s'.sessions[sid]] && s'.posted == s.posted
    requires ConnOf(s'.sessions[sid].phase) == Some(c) && c in s'.pool.conns && !IsIdle(s'.pool.idle, c)
    requires c !in s.pool.conns || IsIdle(s.pool.idle, c)
    requires forall d :: d in s.pool.conns ==> d in s'.pool.conns
    requires forall d :: d in s.pool.conns && IsIdle(s'.pool.idle, d) ==> IsIdle(s.pool.idle, d)
    ensures Exclusive(s')
  {
  }

  lemma AcquireExclusive(cfg: PoolConfig, s: System, step: Step, s': System)
    requires cfg.maxIdlePerOrigin >= 1 && DequesOk(s.now, s.pool) && Exclusive(s)
    requires step.StrandAcquire? && Next(cfg, s, step, s')
    ensures Exclusive(s')
  {
    var o := s.sessions[step.sid].client.AcquireOrigin();
    AcquireDeques(cfg, s.now, s.pool, o);
    AcquireMostRecent(cfg, s.now, s.pool, o);
    match AcquireResult(cfg, s.now, s.pool, o)
    case Some(c) =>
      TakeExclusive(s, step.sid, c, s');
    case None =>
      var mid := AcquireState(cfg, s.now, s.pool, o);
      CoveredByInvariant(s.now, mid);
      assert !IsIdle(mid.idle, step.created);
      TakeExclusive(s, step.sid, step.created, s');
  }

  lemma ReleaseExclusive(cfg: PoolConfig, s: System, i: nat, s': System)
    requires cfg.maxIdlePerOrigin >= 1 && PoolOk(cfg, s.now, s.pool) && Exclusive(s)
    requires Next(cfg, s, StrandRelease(i), s')
    ensures Exclusive(s')
  {
    var c := s.posted[i].conn;
    ReleasedIdle(cfg, s.now, s.pool, c, s.posted[i].reuse, s'.pool);
    forall j | 0 <= j < |s'.posted|
      ensures s'.posted[j] == s.posted[if j < i then j else j + 1]
    {
    }
  }

  /** `release` adds nothing but the released connection to the table. */
  lemma PushedIdle(cfg: PoolConfig, now: int, s: PoolState, c: Connection, stamped: map<Connection, ConnState>, after: IdleMap)
    requires cfg.maxIdlePerOrigin >= 1 && PoolOk(cfg, now, s) && c in s.conns && !IsIdle(s.idle, c)
    requires stamped == s.conns[c := ConnState(false, now, true)]
    requires Shrunk(cfg.maxTotalIdle, PushIdle(cfg, s.idle, c), after)
    ensures forall d :: IsIdle(after, d) ==> d == c || IsIdle(s.idle, d)
  {
    PushIdleOk(cfg, now, s, c, stamped);
    ShrunkDeques(now, stamped, cfg.maxTotalIdle, PushIdle(cfg, s.idle, c), after);
  }

  lemma ReleasedKeys(cfg: PoolConfig, now: int, s: PoolState, c: Connection, canReuse: bool, s': PoolState)
    requires cfg.maxIdlePerOrigin >= 1 && c in s.conns
    requires Released(cfg, now, s, c, canReuse, s')
    ensures s'.conns.Keys == s.conns.Keys
  {
    var stamped := s.conns[c := ConnState(false, now, true)];
    assert stamped.Keys == s.conns.Keys;
  }

  lemma ReleasedIdle(cfg: PoolConfig, now: int, s: PoolState, c: Connection, canReuse: bool, s': PoolState)
    requires cfg.maxIdlePerOrigin >= 1 && PoolOk(cfg, now, s) && c in s.conns && !IsIdle(s.idle, c)
    requires Released(cfg, now, s, c, canReuse, s')
    ensures forall d :: IsIdle(s'.idle, d) ==> d == c || IsIdle(s.idle, d)
    ensures s'.conns.Keys == s.conns.Keys
  {
    ReleasedKeys(cfg, now, s, c, canReuse, s');
    if canReuse && s.conns[c].open {
      PushedIdle(cfg, now, s, c, s.conns[c := ConnState(false, now, true)], s'.idle);
    }
  }

  lemma ReleasedOpens(cfg: PoolConfig, now: int, s: PoolState, c: Connection, canReuse: bool, s': PoolState, d: Connection)
    requires cfg.maxIdlePerOrigin >= 1 && c in s.conns
    requires Released(cfg, now, s, c, canReuse, s')
    requires d in s'.conns && d != c && s'.conns[d].open
    ensures d in s.conns && s.conns[d].open
  {
  }

  // -------------------------------------------------------------- no leaks

  /** Ownership carries over when the session changed keeps its connection. */
  lemma OwnerKept(s: System, s': System, c: Connection, sid: nat)
    requires Owned(s, c) && sid in s.sessions && sid in s'.sessions
    requires s'.sessions == s.sessions[sid := s'.sessions[sid]]
    requires ConnOf(s'.sessions[sid].phase) == ConnOf(s.sessions[sid].phase) || ConnOf(s.sessions[sid].phase) != Some(c)
    requires s.posted <= s'.posted
    requires IsIdle(s.pool.idle, c) ==> IsIdle(s'.pool.idle, c)
    ensures Owned(s', c)
  {
    if a :| Holds(s, a, c) {
      assert Holds(s', a, c);
    } else if i :| Queued(s, i, c) {
      assert Queued(s', i, c);
    }
  }

  lemma FinishOwner(s: System, sid: nat, c: Connection, reusable: bool, code: nat, d: Connection)
    requires Owned(s, d) && sid in s.sessions && s.sessions[sid].phase.Using? && s.sessions[sid].phase.conn == c
    requires c in s.pool.conns
    ensures Owned(Finish(s, sid, c, reusable, code), d)
  {
    var s' := Finish(s, sid, c, reusable, code);
    if d == c {
      assert Queued(s', |s.posted|, d);
    } else {
      OwnerKept(s, s', d, sid);
    }
  }

  lemma ReleaseOwner(cfg: PoolConfig, s: System, i: nat, s': System, d: Connection)
    requires cfg.maxIdlePerOrigin >= 1 && PoolOk(cfg, s.now, s.pool) && Exclusive(s)
    requires Next(cfg, s, StrandRelease(i), s')
    requires d in s'.pool.conns && s'.pool.conns[d].open && (d in s.pool.conns && s.pool.conns[d].open ==> Owned(s, d))
    ensures Owned(s', d)
  {
    var c := s.posted[i].conn;
    ReleasedIdle(cfg, s.now, s.pool, c, s.posted[i].reuse, s'.pool);
    if d == c || IsIdle(s.pool.idle, d) {
      CoveredByInvariant(s.now, s.pool);
      ReleasedLeaves(cfg, s.now, s.pool, c, s.posted[i].reuse, s'.pool, d);
    } else {
      ReleasedOpens(cfg, s.now, s.pool, c, s.posted[i].reuse, s'.pool, d);
      QueueOwner(s, i, s', d);
    }
  }

  lemma QueueOwner(s: System, i: nat, s': System, d: Connection)
    requires i < |s.posted| && s.posted[i].conn != d && Owned(s, d) && !IsIdle(s.pool.idle, d)
    requires s'.posted == s.posted[..i] + s.posted[i + 1..] && s'.sessions == s.sessions
    ensures Owned(s', d)
  {
    if a :| Holds(s, a, d) {
      assert Holds(s', a, d);
    } else {
      var j: nat :| Queued(s, j, d);
      assert Queued(s', if j < i then j else j - 1, d);
    }
  }

  lemma AcquireOwner(cfg: PoolConfig, s: System, step: Step, s': System, d: Connection)
    requires cfg.maxIdlePerOrigin >= 1 && DequesOk(s.now, s.pool) && Exclusive(s)
    requires step.StrandAcquire? && Next(cfg, s, step, s')
    requires d in s'.pool.conns && s'.pool.conns[d].open && (d in s.pool.conns && s.pool.conns[d].open ==> Owned(s, d))
    ensures Owned(s', d)
  {
    var sid := step.sid;
    var o := s.sessions[sid].client.AcquireOrigin();
    if IsIdle(s.pool.idle, d) && !IsIdle(s'.pool.idle, d) {
      AcquireLeaves(cfg, s.now, s.pool, o, d);
      assert Holds(s', sid, d);
    } else {
      assert d in s.pool.conns && s.pool.conns[d].open;
      OwnerKept(s, s', d, sid);
    }
  }

  lemma TimerOwner(cfg: PoolConfig, s: System, w: nat, s': System, d: Connection)
    requires cfg.maxIdlePerOrigin >= 1 && PoolOk(cfg, s.now, s.pool)
    requires Next(cfg, s, TimerFires(w), s')
    requires d in s'.pool.conns && s'.pool.conns[d].open && (d in s.pool.conns && s.pool.conns[d].open ==> Owned(s, d))
    ensures Owned(s', d)
  {
    if IsIdle(s.pool.idle, d) {
      ReapedLeaves(cfg, s.now, s.pool, w, s'.pool, d);
    } else if a :| Holds(s, a, d) {
      assert Holds(s', a, d);
    } else {
      var i :| Queued(s, i, d);
      assert Queued(s', i, d);
    }
  }

  // ------------------------------------------------- every step keeps all

  lemma AcquirePool(cfg: PoolConfig, s: System, step: Step, s': System)
    requires cfg.maxIdlePerOrigin >= 1 && PoolOk(cfg, s.now, s.pool)
    requires step.StrandAcquire? && Next(cfg, s, step, s')
    ensures PoolOk(cfg, s'.now, s'.pool)
  {
    var o := s.sessions[step.sid].client.AcquireOrigin();
    AcquireKeeps(cfg, s.now, s.pool, o);
    var mid := AcquireState(cfg, s.now, s.pool, o);
    if AcquireResult(cfg, s.now, s.pool, o).None? {
      assert step.created !in mid.conns;
      OutsideKeeps(cfg, s.now, s.now, mid, s'.pool);
    }
  }

  predicate PoolStep(step: Step) {
    step.StrandAcquire? || step.StrandRelease? || step.TimerFires?
  }

  /** A session finishes with a connection at hand. */
  predicate Finishing(step: Step) {
    step.StageFailed? || step.Responded? || step.ConnectFailed?
  }

  /** Nothing but sockets opening and closing happened to the pool. */
  ghost predicate TableKept(s: System, s': System) {
    && s'.pool == s.pool.(conns := s'.pool.conns) && s.now <= s'.now
    && s'.pool.conns.Keys == s.pool.conns.Keys
    && forall c :: c in s.pool.conns && IsIdle(s.pool.idle, c) ==>
                     && s'.pool.conns[c].busy == s.pool.conns[c].busy
                     && s'.pool.conns[c].lastUsed == s.pool.conns[c].lastUsed
  }

  lemma FinishingStep(cfg: PoolConfig, s: System, step: Step, s': System)
    requires cfg.maxIdlePerOrigin >= 1 && Next(cfg, s, step, s') && Finishing(step)
    ensures TableKept(s, s')
  {
  }

  /** The other steps leave the table, the timer and all idle stamps alone. */
  lemma OtherStep(cfg: PoolConfig, s: System, step: Step, s': System)
    requires cfg.maxIdlePerOrigin >= 1 && Exclusive(s) && Next(cfg, s, step, s') && !PoolStep(step)
    ensures TableKept(s, s')
  {
    if Finishing(step) {
      FinishingStep(cfg, s, step, s');
    }
  }

  lemma ReleasePool(cfg: PoolConfig, s: System, i: nat, s': System)
    requires cfg.maxIdlePerOrigin >= 1 && PoolOk(cfg, s.now, s.pool) && Exclusive(s) && Next(cfg, s, StrandRelease(i), s')
    ensures PoolOk(cfg, s'.now, s'.pool)
  {
    ReleasedKeeps(cfg, s.now, s.pool, s.posted[i].conn, s.posted[i].reuse, s'.pool);
  }

  lemma TimerPool(cfg: PoolConfig, s: System, w: nat, s': System)
    requires cfg.maxIdlePerOrigin >= 1 && PoolOk(cfg, s.now, s.pool) && Next(cfg, s, TimerFires(w), s')
    ensures PoolOk(cfg, s'.now, s'.pool)
  {
    ReapedKeeps(cfg, s.now, s.pool, w, s'.pool);
  }

  lemma TablePool(cfg: PoolConfig, s: System, s': System)
    requires PoolOk(cfg, s.now, s.pool) && TableKept(s, s')
    ensures PoolOk(cfg, s'.now, s'.pool)
  {
    OutsideKeeps(cfg, s.now, s'.now, s.pool, s'.pool);
  }

  lemma PoolKept(cfg: PoolConfig, s: System, step: Step, s': System)
    requires cfg.maxIdlePerOrigin >= 1 && Inv(cfg, s) && Next(cfg, s, step, s')
    ensures PoolOk(cfg, s'.now, s'.pool)
  {
    if !PoolStep(step) {
      OtherStep(cfg, s, step, s');
      TablePool(cfg, s, s');
    } else {
      match step
      case StrandAcquire(_, _) => AcquirePool(cfg, s, step, s');
      case StrandRelease(i) => ReleasePool(cfg, s, i, s');
      case TimerFires(w) => TimerPool(cfg, s, w, s');
    }
  }

  lemma ExclusiveKept(cfg: PoolConfig, s: System, step: Step, s': System)
    requires cfg.maxIdlePerOrigin >= 1 && Inv(cfg, s) && Next(cfg, s, step, s') && !Reckless(s, step)
    ensures Exclusive(s')
  {
    match step
    case StrandAcquire(_, _) => AcquireExclusive(cfg, s, step, s');
    case StrandRelease(i) => ReleaseExclusive(cfg, s, i, s');
    case TimerFires(w) =>
      ReapedDeques(cfg, s.now, s.pool, w, s'.pool);
      StillExclusive(s, s');
    case StageFailed(sid, code) => FinishExclusive(s, sid, s.sessions[sid].phase.conn, false, code);
    case Responded(sid, keepAlive) => FinishExclusive(s, sid, s.sessions[sid].phase.conn, keepAlive, 0);
    case Dies(_) => StillExclusive(s, s');
    case Tick(_) =>
    case _ => PhaseExclusive(s, step.sid, s');
  }

  /** A session moving on without giving up or gaining a connection. */
  lemma PhaseExclusive(s: System, sid: nat, s': System)
    requires Exclusive(s) && sid in s.sessions && sid in s'.sessions
    requires s'.sessions == s.sessions[sid := s'.sessions[sid]]
    requires ConnOf(s'.sessions[sid].phase) in {None, ConnOf(s.sessions[sid].phase)}
    requires s'.posted == s.posted && s'.pool.idle == s.pool.idle && s.pool.conns.Keys <= s'.pool.conns.Keys
    ensures Exclusive(s')
  {
  }

  lemma PoolOwner(cfg: PoolConfig, s: System, step: Step, s': System, c: Connection)
    requires cfg.maxIdlePerOrigin >= 1 && Inv(cfg, s) && Next(cfg, s, step, s') && PoolStep(step)
    requires c in s'.pool.conns && s'.pool.conns[c].open
    ensures Owned(s', c)
  {
    assert c in s.pool.conns && s.pool.conns[c].open ==> Owned(s, c);
    match step
    case StrandAcquire(_, _) => AcquireOwner(cfg, s, step, s', c);
    case StrandRelease(i) => ReleaseOwner(cfg, s, i, s', c);
    case TimerFires(w) => TimerOwner(cfg, s, w, s', c);
  }

  lemma FinishingOwner(cfg: PoolConfig, s: System, step: Step, s': System, c: Connection)
    requires cfg.maxIdlePerOrigin >= 1 && Inv(cfg, s) && Next(cfg, s, step, s') && Finishing(step)
    requires c in s'.pool.conns && s'.pool.conns[c].open
    ensures Owned(s', c)
  {
    assert Owned(s, c);
    match step
    case StageFailed(sid, code) => FinishOwner(s, sid, s.sessions[sid].phase.conn, false, code, c);
    case Responded(sid, keepAlive) => FinishOwner(s, sid, s.sessions[sid].phase.conn, keepAlive, 0, c);
    case ConnectFailed(sid) => OwnerKept(s, s', c, sid);
  }

  lemma SessionOwner(cfg: PoolConfig, s: System, step: Step, s': System, c: Connection)
    requires cfg.maxIdlePerOrigin >= 1 && Inv(cfg, s) && Next(cfg, s, step, s') && !PoolStep(step) && !Finishing(step)
    requires c in s'.pool.conns && s'.pool.conns[c].open
    ensures Owned(s', c)
  {
    assert s.pool.conns[c].open ==> Owned(s, c);
    match step
    case ConnectDone(sid) =>
      if c == s.sessions[sid].phase.conn {
        assert Holds(s', sid, c);
      } else {
        OwnerKept(s, s', c, sid);
      }
    case Dies(_) => SameOwners(s, s', c);
    case Tick(_) => SameOwners(s, s', c);
    case Run(sid) => OwnerKept(s, s', c, sid);
    case StageDone(sid) => OwnerKept(s, s', c, sid);
  }

  lemma NoLeakKept(cfg: PoolConfig, s: System, step: Step, s': System)
    requires cfg.maxIdlePerOrigin >= 1 && Inv(cfg, s) && Next(cfg, s, step, s')
    ensures NoLeak(s')
  {
    forall c | c in s'.pool.conns && s'.pool.conns[c].open ensures Owned(s', c) {
      if PoolStep(step) {
        PoolOwner(cfg, s, step, s', c);
      } else if Finishing(step) {
        FinishingOwner(cfg, s, step, s', c);
      } else {
        SessionOwner(cfg, s, step, s', c);
      }
    }
  }

  lemma SameOwners(s: System, s': System, c: Connection)
    requires Owned(s, c) && s'.sessions == s.sessions && s'.posted == s.posted && s'.pool.idle == s.pool.idle
    ensures Owned(s', c)
  {
    if a :| Holds(s, a, c) {
      assert Holds(s', a, c);
    } else if i :| Queued(s, i, c) {
      assert Queued(s', i, c);
    }
  }

  /** A step that leaves the log alone and starts or ends no use. */
  lemma QuietLog(s: System, s': System)
    requires ReleasedOnce(s) && s'.log == s.log && s'.sessions.Keys == s.sessions.Keys
    requires forall sid :: sid in s.sessions ==>
                             var a, b := s.sessions[sid].phase, s'.sessions[sid].phase;
                             a.Using? == b.Using? && (a.Using? ==> a.conn == b.conn)
    ensures ReleasedOnce(s')
  {
    forall sid | sid in s'.sessions ensures OneRelease(Story(s.log, sid), s'.sessions[sid].phase) {
      assert OneRelease(Story(s.log, sid), s.sessions[sid].phase);
    }
  }

  lemma AcquireLog(cfg: PoolConfig, s: System, step: Step, s': System)
    requires cfg.maxIdlePerOrigin >= 1 && ReleasedOnce(s) && step.StrandAcquire? && Next(cfg, s, step, s')
    ensures ReleasedOnce(s')
  {
    var o := s.sessions[step.sid].client.AcquireOrigin();
    match AcquireResult(cfg, s.now, s.pool, o)
    case Some(c) => GrantLog(s.(pool := s'.pool), step.sid, c);
    case None => QuietLog(s, s');
  }

  lemma ReleasedOnceKept(cfg: PoolConfig, s: System, step: Step, s': System)
    requires cfg.maxIdlePerOrigin >= 1 && Inv(cfg, s) && Next(cfg, s, step, s') && !Reckless(s, step)
    ensures ReleasedOnce(s')
  {
    match step
    case StageFailed(sid, code) => FinishLog(s, sid, s.sessions[sid].phase.conn, false, code);
    case Responded(sid, keepAlive) => FinishLog(s, sid, s.sessions[sid].phase.conn, keepAlive, 0);
    case StrandAcquire(_, _) => AcquireLog(cfg, s, step, s');
    case ConnectDone(sid) => GrantLog(s.(pool := s'.pool), sid, s.sessions[sid].phase.conn);
    case _ => QuietLog(s, s');
  }

  lemma KeysGrow(cfg: PoolConfig, s: System, step: Step, s': System)
    requires cfg.maxIdlePerOrigin >= 1 && Next(cfg, s, step, s')
    ensures s.pool.conns.Keys <= s'.pool.conns.Keys
  {
    if step.StrandRelease? {
      ReleasedKeys(cfg, s.now, s.pool, s.posted[step.i].conn, s.posted[step.i].reuse, s'.pool);
    }
  }

  lemma LastKnownKept(cfg: PoolConfig, s: System, step: Step, s': System)
    requires cfg.maxIdlePerOrigin >= 1 && LastKnown(s) && Exclusive(s) && Next(cfg, s, step, s')
    requires Exclusive(s')
    ensures LastKnown(s')
  {
    KeysGrow(cfg, s, step, s');
    forall sid | sid in s'.sessions && s'.sessions[sid].last.Some? ensures s'.sessions[sid].last.value in s'.pool.conns {
      assert s'.sessions[sid].last == s.sessions[sid].last || ConnOf(s'.sessions[sid].phase) == s'.sessions[sid].last;
    }
  }

  lemma StepKeeps(cfg: PoolConfig, s: System, step: Step, s': System)
    requires cfg.maxIdlePerOrigin >= 1 && Inv(cfg, s) && Next(cfg, s, step, s') && !Reckless(s, step)
    ensures Inv(cfg, s')
  {
    PoolKept(cfg, s, step, s');
    ExclusiveKept(cfg, s, step, s');
    NoLeakKept(cfg, s, step, s');
    ReleasedOnceKept(cfg, s, step, s');
    LastKnownKept(cfg, s, step, s');
  }

  // -------------------------------------------------- what recklessness does

  lemma BalancedEnds(story: seq<Event>)
    requires Balanced(story) && story != []
    ensures story[|story| - 1].Returned?
  {
  }

  /** A failed acquire of a session that still has an earlier connection always
      posts a release that answers no grant. */
  lemma RecklessBreaks(cfg: PoolConfig, s: System, step: Step, s': System)
    requires cfg.maxIdlePerOrigin >= 1 && ReleasedOnce(s) && Next(cfg, s, step, s') && Reckless(s, step)
    ensures !ReleasedOnce(s')
  {
    var sid, d := step.sid, s.sessions[step.sid].last.value;
    var before, after := Story(s.log, sid), Story(s'.log, sid);
    StoryAppend(s.log, Returned(sid, d, false, 1), sid);
    assert OneRelease(before, s.sessions[sid].phase);
    if before != [] {
      BalancedEnds(before);
      assert after[|after| - 2] == before[|before| - 1];
    }
    assert !OneRelease(after, s'.sessions[sid].phase);
  }

  /** It closes that connection, whoever has it now, and queues its release,
      which makes two owners exactly when somebody has it. */
  lemma RecklessHarms(cfg: PoolConfig, s: System, step: Step, s': System)
    requires cfg.maxIdlePerOrigin >= 1 && Exclusive(s) && LastKnown(s) && Next(cfg, s, step, s') && Reckless(s, step)
    ensures var d := s.sessions[step.sid].last.value;
            && d in s'.pool.conns && !s'.pool.conns[d].open && Queued(s', |s.posted|, d)
            && (Exclusive(s') <==> !Owned(s, d))
  {
    SecondRelease(s, step.sid, s.sessions[step.sid].last.value, s');
  }

  lemma SecondRelease(s: System, sid: nat, d: Connection, s': System)
    requires Exclusive(s) && sid in s.sessions && sid in s'.sessions && d in s.pool.conns
    requires s'.sessions == s.sessions[sid := s'.sessions[sid]] && ConnOf(s'.sessions[sid].phase) == None
    requires ConnOf(s.sessions[sid].phase) != Some(d)
    requires |s'.posted| == |s.posted| + 1 && s.posted <= s'.posted && s'.posted[|s.posted|].conn == d
    requires s'.pool.idle == s.pool.idle && s'.pool.conns.Keys == s.pool.conns.Keys
    ensures Exclusive(s') <==> !Owned(s, d)
  {
    if IsIdle(s.pool.idle, d) {
      assert s'.posted[|s.posted|].conn == d;
    } else if a :| Holds(s, a, d) {
      assert ConnOf(s'.sessions[a].phase) == Some(s'.posted[|s.posted|].conn);
    } else if i: nat :| Queued(s, i, d) {
      assert s'.posted[i].conn == s'.posted[|s.posted|].conn;
    } else {
      UnownedQueued(s, sid, d, s');
    }
  }

  lemma UnownedQueued(s: System, sid: nat, d: Connection, s': System)
    requires Exclusive(s) && sid in s.sessions && sid in s'.sessions && !Owned(s, d) && d in s.pool.conns
    requires s'.sessions == s.sessions[sid := s'.sessions[sid]] && ConnOf(s'.sessions[sid].phase) == None
    requires |s'.posted| == |s.posted| + 1 && s.posted <= s'.posted && s'.posted[|s.posted|].conn == d
    requires s'.pool.idle == s.pool.idle && s'.pool.conns.Keys == s.pool.conns.Keys
    ensures Exclusive(s')
  {
    forall a | a in s'.sessions ensures ConnOf(s'.sessions[a].phase) != Some(d) {
      assert !Holds(s, a, d);
    }
    forall i: nat | i < |s.posted| ensures s'.posted[i] == s.posted[i] && s.posted[i].conn != d {
      assert !Queued(s, i, d);
    }
  }

  // ------------------------------------------------------------ all runs

  /** `states[0]` is initial and `steps[i]` leads from `states[i]` to `states[i + 1]`. */
  ghost predicate IsRun(cfg: PoolConfig, states: seq<System>, steps: seq<Step>)
    requires cfg.maxIdlePerOrigin >= 1
  {
    && |states| == |steps| + 1
    && Init(states[0])
    && forall i :: 0 <= i < |steps| ==> Next(cfg, states[i], steps[i], states[i + 1])
  }

  lemma InitInv(cfg: PoolConfig, s: System)
    requires Init(s)
    ensures Inv(cfg, s)
  {
    assert forall sid :: sid in s.sessions ==> Story(s.log, sid) == [];
  }

  /** No session that has had a connection is run again, or if it is, its
      acquire succeeds. */
  ghost predicate Careful(states: seq<System>, steps: seq<Step>, k: nat)
    requires k <= |steps| <= |states|
  {
    forall i :: 0 <= i < k ==> !Reckless(states[i], steps[i])
  }

  lemma {:induction false} RunKeeps(cfg: PoolConfig, states: seq<System>, steps: seq<Step>, k: nat)
    requires cfg.maxIdlePerOrigin >= 1 && IsRun(cfg, states, steps) && k < |states| && Careful(states, steps, k)
    ensures Inv(cfg, states[k])
  {
    if k == 0 {
      InitInv(cfg, states[0]);
    } else {
      RunKeeps(cfg, states, steps, k - 1);
      StepKeeps(cfg, states[k - 1], steps[k - 1], states[k]);
    }
  }

  /** The invariant holds throughout a run exactly when the run is careful. */
  lemma CarefulExactly(cfg: PoolConfig, states: seq<System>, steps: seq<Step>)
    requires cfg.maxIdlePerOrigin >= 1 && IsRun(cfg, states, steps)
    ensures (forall k :: 0 <= k < |states| ==> Inv(cfg, states[k])) <==> Careful(states, steps, |steps|)
  {
    if Careful(states, steps, |steps|) {
      forall k | 0 <= k < |states| ensures Inv(cfg, states[k]) {
        RunKeeps(cfg, states, steps, k);
      }
    } else {
      var i :| 0 <= i < |steps| && Reckless(states[i], steps[i]);
      if Inv(cfg, states[i]) {
        RecklessBreaks(cfg, states[i], steps[i], states[i + 1]);
      }
      assert !Inv(cfg, states[i]) || !Inv(cfg, states[i + 1]);
    }
  }

  /** Exclusive ownership, in plain terms, at every point of every run. */
  lemma RunExclusive(cfg: PoolConfig, states: seq<System>, steps: seq<Step>, k: nat, o: Origin, i: nat)
    requires cfg.maxIdlePerOrigin >= 1 && IsRun(cfg, states, steps) && k < |states| && Careful(states, steps, k)
    requires o in states[k].pool.idle && i < |states[k].pool.idle[o]|
    ensures var s := states[k]; var c := s.pool.idle[o][i];
            && c in s.pool.conns && !s.pool.conns[c].busy && c.origin == o
            && (forall p, j :: p in s.pool.idle && 0 <= j < |s.pool.idle[p]| && s.pool.idle[p][j] == c ==> p == o && j == i)
            && (forall sid :: !Holds(s, sid, c))
            && (forall j :: !Queued(s, j, c))
            && (forall j :: 0 <= j < i ==> var d := s.pool.idle[o][j];
                                           d in s.pool.conns && s.pool.conns[d].lastUsed <= s.pool.conns[c].lastUsed)
  {
    RunKeeps(cfg, states, steps, k);
    var s := states[k];
    var c := s.pool.idle[o][i];
    assert c in s.pool.idle[o];
    IdleSomewhere(s.now, s.pool, o, c);
    forall p, j | p in s.pool.idle && 0 <= j < |s.pool.idle[p]| && s.pool.idle[p][j] == c ensures p == o && j == i {
      NeverTwice(s.now, s.pool, o, i, p, j);
    }
  }

  lemma LeavingByAcquire(cfg: PoolConfig, s: System, step: Step, s': System, c: Connection)
    requires cfg.maxIdlePerOrigin >= 1 && DequesOk(s.now, s.pool)
    requires step.StrandAcquire? && Next(cfg, s, step, s')
    requires IsIdle(s.pool.idle, c) && !IsIdle(s'.pool.idle, c)
    ensures c in s.pool.conns && c in s'.pool.conns
    ensures || !s'.pool.conns[c].open
            || (Holds(s', step.sid, c) && s'.pool.conns[c].busy && Usable(s.pool.conns[c], s.now, cfg.keepAlive))
  {
    var o := s.sessions[step.sid].client.AcquireOrigin();
    AcquireLeaves(cfg, s.now, s.pool, o, c);
  }

  /** A connection that leaves the table was handed to a session, alive and
      unexpired, by that very step, or it is closed. */
  lemma LeavingTable(cfg: PoolConfig, s: System, step: Step, s': System, c: Connection)
    requires cfg.maxIdlePerOrigin >= 1 && Inv(cfg, s) && Next(cfg, s, step, s')
    requires IsIdle(s.pool.idle, c) && !IsIdle(s'.pool.idle, c)
    ensures c in s.pool.conns && c in s'.pool.conns
    ensures || !s'.pool.conns[c].open
            || (step.StrandAcquire? && Holds(s', step.sid, c) && s'.pool.conns[c].busy
                && Usable(s.pool.conns[c], s.now, cfg.keepAlive))
  {
    CoveredByInvariant(s.now, s.pool);
    match step
    case StrandAcquire(_, _) => LeavingByAcquire(cfg, s, step, s', c);
    case StrandRelease(i) => ReleasedLeaves(cfg, s.now, s.pool, s.posted[i].conn, s.posted[i].reuse, s'.pool, c);
    case TimerFires(w) => ReapedLeaves(cfg, s.now, s.pool, w, s'.pool, c);
    case _ => OtherStep(cfg, s, step, s');
  }

  // ---------------------------------------------------- age of idle conns

  /** Time never runs past the deadline of an outstanding wait. */
  predicate Punctual(s: System, step: Step) {
    step.Tick? ==> forall w :: w in s.pool.waits ==> step.to <= w
  }

  predicate WaitsAhead(s: System) {
    forall w :: w in s.pool.waits ==> s.now <= w
  }

  lemma PunctualStep(cfg: PoolConfig, s: System, step: Step, s': System)
    requires cfg.maxIdlePerOrigin >= 1 && Inv(cfg, s) && Next(cfg, s, step, s')
    requires Punctual(s, step) && WaitsAhead(s)
    ensures WaitsAhead(s')
  {
    if !PoolStep(step) {
      OtherStep(cfg, s, step, s');
    }
  }

  lemma AgeNow(cfg: PoolConfig, now: int, s: PoolState, c: Connection)
    requires PoolOk(cfg, now, s) && IsIdle(s.idle, c) && cfg.reapInterval > 0 && cfg.keepAlive >= 0
    requires forall w :: w in s.waits ==> now <= w
    ensures c in s.conns && now - s.conns[c].lastUsed <= cfg.keepAlive + cfg.reapInterval
  {
    AnyIdle(cfg, s, c);
    var w := s.waits[0];
    assert w in s.waits && c in s.idle[c.origin] && c in s.conns;
    assert w <= s.conns[c].lastUsed + cfg.keepAlive + cfg.reapInterval;
  }

  lemma {:induction false} WaitsStayAhead(cfg: PoolConfig, states: seq<System>, steps: seq<Step>, k: nat)
    requires cfg.maxIdlePerOrigin >= 1
    requires IsRun(cfg, states, steps) && k < |states| && Careful(states, steps, k)
    requires forall i :: 0 <= i < |steps| ==> Punctual(states[i], steps[i])
    ensures WaitsAhead(states[k])
  {
    if k > 0 {
      WaitsStayAhead(cfg, states, steps, k - 1);
      RunKeeps(cfg, states, steps, k - 1);
      PunctualStep(cfg, states[k - 1], steps[k - 1], states[k]);
    }
  }

  /** With the reaper enabled and punctual, nothing idle is ever older than
      keep-alive plus one reap interval. */
  lemma IdleAgeBound(cfg: PoolConfig, states: seq<System>, steps: seq<Step>, k: nat)
    requires cfg.maxIdlePerOrigin >= 1 && cfg.reapInterval > 0 && cfg.keepAlive >= 0
    requires IsRun(cfg, states, steps) && k < |states| && Careful(states, steps, k)
    requires forall i :: 0 <= i < |steps| ==> Punctual(states[i], steps[i])
    ensures forall c :: IsIdle(states[k].pool.idle, c) ==>
                          && c in states[k].pool.conns
                          && states[k].now - states[k].pool.conns[c].lastUsed <= cfg.keepAlive + cfg.reapInterval
  {
    RunKeeps(cfg, states, steps, k);
    WaitsStayAhead(cfg, states, steps, k);
    forall c: Connection | IsIdle(states[k].pool.idle, c)
      ensures c in states[k].pool.conns
      ensures states[k].now - states[k].pool.conns[c].lastUsed <= cfg.keepAlive + cfg.reapInterval
    {
      AgeNow(cfg, states[k].now, states[k].pool, c);
    }
  }
}
