/** What a pooled session does with its connection, from the outside: which host
    it talks to, in which order it goes through its stages, how it ends, and
    when its connection may be used again. */
module SessionLaws {
  import opened Common
  import opened ConnectionPool
  import opened PoolInvariant
  import opened PoolLaws
  import opened PooledSessions
  import opened PooledRuns

  // --------------------------------------------------------------- releases

  /** A release is posted by every session that ends after it got a connection,
      for the connection it held. It is for reuse exactly after a response with
      keep-alive, and then the connection is left as it was; otherwise that
      connection is closed by then. */
  lemma PostMeans(cfg: PoolConfig, s: System, step: Step, s': System)
    requires cfg.maxIdlePerOrigin >= 1 && Next(cfg, s, step, s')
    ensures |s'.posted| <= |s.posted| + 1
    ensures step.StageFailed? || step.Responded? ==>
              |s'.posted| == |s.posted| + 1 && Holds(s, step.sid, s'.posted[|s.posted|].conn)
    ensures |s'.posted| == |s.posted| + 1 ==>
              var p := s'.posted[|s.posted|];
              && s'.posted[..|s.posted|] == s.posted && p.conn in s'.pool.conns
              && (p.reuse <==> step == Responded(p.sid, true))
              && (p.reuse ==> Holds(s, p.sid, p.conn) && s'.pool == s.pool)
              && (!p.reuse ==> !s'.pool.conns[p.conn].open)
  {
  }

  /** Step `i` was the response with keep-alive on `c`, and nobody has held `c`
      from then until state `k`. */
  ghost predicate KeptAliveAt(states: seq<System>, steps: seq<Step>, k: nat, c: Connection, i: nat)
    requires k < |states| == |steps| + 1
  {
    && i < k && steps[i].Responded? && steps[i].keepAlive && Holds(states[i], steps[i].sid, c)
    && forall j, a :: i < j <= k ==> !Holds(states[j], a, c)
  }

  /** Idle, or queued to become idle. */
  ghost predicate Reusable(s: System, c: Connection) {
    IsIdle(s.pool.idle, c) || exists j :: 0 <= j < |s.posted| && s.posted[j].conn == c && s.posted[j].reuse
  }

  lemma ReusableBefore(cfg: PoolConfig, s: System, step: Step, s': System, c: Connection)
    requires cfg.maxIdlePerOrigin >= 1 && Inv(cfg, s) && Next(cfg, s, step, s') && Reusable(s', c)
    ensures Reusable(s, c) || (step.Responded? && step.keepAlive && Holds(s, step.sid, c))
  {
    if step.StrandRelease? {
      ReleaseReusable(cfg, s, step.i, s', c);
    } else if PoolStep(step) {
      TakingStep(cfg, s, step, s');
    } else {
      PostMeans(cfg, s, step, s');
      OtherStep(cfg, s, step, s');
      QueueGrows(cfg, s, step, s');
    }
  }

  lemma QueueGrows(cfg: PoolConfig, s: System, step: Step, s': System)
    requires cfg.maxIdlePerOrigin >= 1 && Next(cfg, s, step, s') && !PoolStep(step)
    ensures s.posted <= s'.posted
  {
  }

  lemma TakingStep(cfg: PoolConfig, s: System, step: Step, s': System)
    requires cfg.maxIdlePerOrigin >= 1 && Inv(cfg, s) && Next(cfg, s, step, s')
    requires step.StrandAcquire? || step.TimerFires?
    ensures s'.posted == s.posted && forall c :: IsIdle(s'.pool.idle, c) ==> IsIdle(s.pool.idle, c)
  {
    if step.TimerFires? {
      ReapedDeques(cfg, s.now, s.pool, step.w, s'.pool);
    } else {
      AcquireDeques(cfg, s.now, s.pool, s.sessions[step.sid].client.AcquireOrigin());
    }
  }

  lemma ReleaseReusable(cfg: PoolConfig, s: System, i: nat, s': System, c: Connection)
    requires cfg.maxIdlePerOrigin >= 1 && Inv(cfg, s) && Next(cfg, s, StrandRelease(i), s') && Reusable(s', c)
    ensures Reusable(s, c)
  {
    var p := s.posted[i];
    ReleasedIdle(cfg, s.now, s.pool, p.conn, p.reuse, s'.pool);
    CoveredByInvariant(s.now, s.pool);
    ReleasedLeaves(cfg, s.now, s.pool, p.conn, p.reuse, s'.pool, p.conn);
    if !IsIdle(s'.pool.idle, c) {
      var j :| 0 <= j < |s'.posted| && s'.posted[j].conn == c && s'.posted[j].reuse;
      assert s'.posted[j] == s.posted[if j < i then j else j + 1];
    }
  }

  /** Every idle connection last ended in a response with keep-alive: at every
      point of every careful run there is such a step, after which no session
      has held it. */
  lemma {:induction false} IdleKeptAlive(cfg: PoolConfig, states: seq<System>, steps: seq<Step>, k: nat, c: Connection)
    requires cfg.maxIdlePerOrigin >= 1 && IsRun(cfg, states, steps) && k < |states| && Careful(states, steps, k)
    requires Reusable(states[k], c)
    ensures exists i :: KeptAliveAt(states, steps, k, c, i)
  {
    if k > 0 {
      RunKeeps(cfg, states, steps, k - 1);
      RunKeeps(cfg, states, steps, k);
      ReusableBefore(cfg, states[k - 1], steps[k - 1], states[k], c);
      ReusableFree(cfg, states[k], c);
      if Reusable(states[k - 1], c) {
        IdleKeptAlive(cfg, states, steps, k - 1, c);
        var i: nat :| KeptAliveAt(states, steps, k - 1, c, i);
        assert KeptAliveAt(states, steps, k, c, i);
      } else {
        assert KeptAliveAt(states, steps, k, c, k - 1);
      }
    }
  }

  lemma ReusableFree(cfg: PoolConfig, s: System, c: Connection)
    requires Inv(cfg, s) && Reusable(s, c)
    ensures forall a :: !Holds(s, a, c)
  {
  }

  // ------------------------------------------------------------------ hosts

  /** A session with a proxy holds only plain connections to the proxy's host
      and port, one without only connections to its own origin. */
  predicate OwnHosts(s: System) {
    forall sid :: sid in s.sessions && ConnOf(s.sessions[sid].phase).Some? ==>
                    OwnHost(s.sessions[sid].client, ConnOf(s.sessions[sid].phase).value)
  }

  predicate OwnHost(client: Client, c: Connection) {
    match client.proxy
    case None => c.origin == client.origin
    case Some((host, port)) => c.origin == Origin("http", host, port)
  }

  lemma SameClients(cfg: PoolConfig, s: System, step: Step, s': System)
    requires cfg.maxIdlePerOrigin >= 1 && Next(cfg, s, step, s')
    ensures s'.sessions.Keys == s.sessions.Keys
    ensures forall sid :: sid in s.sessions ==> s'.sessions[sid].client == s.sessions[sid].client
  {
  }

  /** Only acquiring gives a session a connection it did not hold. */
  lemma HeldBefore(cfg: PoolConfig, s: System, step: Step, s': System, sid: nat, c: Connection)
    requires cfg.maxIdlePerOrigin >= 1 && Next(cfg, s, step, s') && Holds(s', sid, c)
    ensures Holds(s, sid, c) || (step.StrandAcquire? && step.sid == sid)
  {
  }

  lemma AcquiredHost(cfg: PoolConfig, s: System, step: Step, s': System, c: Connection)
    requires cfg.maxIdlePerOrigin >= 1 && DequesOk(s.now, s.pool) && Next(cfg, s, step, s')
    requires step.StrandAcquire? && Holds(s', step.sid, c)
    ensures OwnHost(s.sessions[step.sid].client, c)
  {
    AcquireMostRecent(cfg, s.now, s.pool, s.sessions[step.sid].client.AcquireOrigin());
  }

  lemma HostsKept(cfg: PoolConfig, s: System, step: Step, s': System)
    requires cfg.maxIdlePerOrigin >= 1 && DequesOk(s.now, s.pool) && OwnHosts(s) && Next(cfg, s, step, s')
    ensures OwnHosts(s')
  {
    SameClients(cfg, s, step, s');
    forall sid | sid in s'.sessions && ConnOf(s'.sessions[sid].phase).Some?
      ensures OwnHost(s'.sessions[sid].client, ConnOf(s'.sessions[sid].phase).value)
    {
      var c := ConnOf(s'.sessions[sid].phase).value;
      HeldBefore(cfg, s, step, s', sid, c);
      if step.StrandAcquire? && step.sid == sid {
        AcquiredHost(cfg, s, step, s', c);
      }
    }
  }

  lemma {:induction false} RunHosts(cfg: PoolConfig, states: seq<System>, steps: seq<Step>, k: nat)
    requires cfg.maxIdlePerOrigin >= 1 && IsRun(cfg, states, steps) && k < |states| && Careful(states, steps, k)
    ensures OwnHosts(states[k])
  {
    if k > 0 {
      RunHosts(cfg, states, steps, k - 1);
      RunKeeps(cfg, states, steps, k - 1);
      HostsKept(cfg, states[k - 1], steps[k - 1], states[k]);
    }
  }

  // ----------------------------------------------------------------- stages

  predicate At(s: System, sid: nat, c: Connection, stage: Stage) {
    sid in s.sessions && s.sessions[sid].phase == Using(c, stage)
  }

  /** An https origin behind a proxy. */
  predicate Tunnelled(s: System, sid: nat) {
    sid in s.sessions && s.sessions[sid].client.proxy.Some? && s.sessions[sid].client.origin.scheme == "https"
  }

  /** How a session can come to a stage: the tunnel's stages one after the
      other, then writing, then reading; without a tunnel writing comes first. */
  lemma StageEntered(cfg: PoolConfig, s: System, step: Step, s': System, sid: nat, c: Connection, stage: Stage)
    requires cfg.maxIdlePerOrigin >= 1 && Next(cfg, s, step, s') && At(s', sid, c, stage) && !At(s, sid, c, stage)
    ensures match stage
            case ProxyWrite => Tunnelled(s, sid) && !s.sessions[sid].phase.Using?
            case ProxyRead => step == StageDone(sid) && At(s, sid, c, ProxyWrite)
            case Handshake => step == StageDone(sid) && At(s, sid, c, ProxyRead)
            case Write => if step == StageDone(sid) then At(s, sid, c, Handshake)
                          else sid in s.sessions && !Tunnelled(s, sid) && !s.sessions[sid].phase.Using?
            case Read => step == StageDone(sid) && At(s, sid, c, Write)
  {
  }

  /** The step at which a session came to the stage it is in. */
  lemma {:induction false} EnteredAt(cfg: PoolConfig, states: seq<System>, steps: seq<Step>, k: nat, sid: nat, c: Connection, stage: Stage)
    returns (g: nat)
    requires cfg.maxIdlePerOrigin >= 1 && IsRun(cfg, states, steps) && k < |states| && At(states[k], sid, c, stage)
    ensures g < k && !At(states[g], sid, c, stage) && forall j :: g < j <= k ==> At(states[j], sid, c, stage)
  {
    g := k - 1;
    while At(states[g], sid, c, stage)
      invariant g < k && forall j :: g < j <= k ==> At(states[j], sid, c, stage)
      decreases g
    {
      g := g - 1;
    }
  }

  lemma {:induction false} RunClients(cfg: PoolConfig, states: seq<System>, steps: seq<Step>, k: nat, sid: nat)
    requires cfg.maxIdlePerOrigin >= 1 && IsRun(cfg, states, steps) && k < |states|
    ensures Tunnelled(states[k], sid) <==> Tunnelled(states[0], sid)
  {
    if k > 0 {
      RunClients(cfg, states, steps, k - 1, sid);
      SameClients(cfg, states[k - 1], steps[k - 1], states[k]);
    }
  }

  /** Before a request goes out through a tunnel, on that same connection the
      CONNECT was written, its answer read, and the handshake done, in this
      order and without the session having given the connection up. */
  lemma TunnelBeforeRequest(cfg: PoolConfig, states: seq<System>, steps: seq<Step>, k: nat, sid: nat, c: Connection)
    returns (h0: nat, h1: nat, h2: nat)
    requires cfg.maxIdlePerOrigin >= 1 && IsRun(cfg, states, steps) && k < |states|
    requires Tunnelled(states[k], sid) && At(states[k], sid, c, Write)
    ensures h0 < h1 < h2 < k && steps[h0] == steps[h1] == steps[h2] == StageDone(sid)
    ensures At(states[h0], sid, c, ProxyWrite) && At(states[h1], sid, c, ProxyRead) && At(states[h2], sid, c, Handshake)
    ensures forall j :: h0 <= j <= k ==> Holds(states[j], sid, c)
  {
    h2 := EnteredAt(cfg, states, steps, k, sid, c, Write);
    RunClients(cfg, states, steps, k, sid);
    RunClients(cfg, states, steps, h2, sid);
    StageEntered(cfg, states[h2], steps[h2], states[h2 + 1], sid, c, Write);
    h1 := EnteredAt(cfg, states, steps, h2, sid, c, Handshake);
    StageEntered(cfg, states[h1], steps[h1], states[h1 + 1], sid, c, Handshake);
    h0 := EnteredAt(cfg, states, steps, h1, sid, c, ProxyRead);
    StageEntered(cfg, states[h0], steps[h0], states[h0 + 1], sid, c, ProxyRead);
  }

  /** Without a tunnel there is only writing and reading. */
  lemma {:induction false} NoTunnelStages(cfg: PoolConfig, states: seq<System>, steps: seq<Step>, k: nat, sid: nat, c: Connection, stage: Stage)
    requires cfg.maxIdlePerOrigin >= 1 && IsRun(cfg, states, steps) && k < |states|
    requires At(states[k], sid, c, stage) && !Tunnelled(states[k], sid)
    ensures stage == Write || stage == Read
    decreases k
  {
    var g := EnteredAt(cfg, states, steps, k, sid, c, stage);
    RunClients(cfg, states, steps, k, sid);
    RunClients(cfg, states, steps, g, sid);
    StageEntered(cfg, states[g], steps[g], states[g + 1], sid, c, stage);
    match stage
    case ProxyRead => NoTunnelStages(cfg, states, steps, g, sid, c, ProxyWrite);
    case Handshake => NoTunnelStages(cfg, states, steps, g, sid, c, ProxyRead);
    case _ =>
  }

  // ------------------------------------------------------------------- busy

  /** Whatever a session is using is marked busy. */
  predicate InUseIsBusy(s: System) {
    forall sid :: sid in s.sessions && s.sessions[sid].phase.Using? ==>
                    var c := s.sessions[sid].phase.conn; c in s.pool.conns && s.pool.conns[c].busy
  }

  lemma StaysBusy(cfg: PoolConfig, s: System, step: Step, s': System, c: Connection)
    requires cfg.maxIdlePerOrigin >= 1 && Inv(cfg, s) && Next(cfg, s, step, s')
    requires c in s.pool.conns && s.pool.conns[c].busy && !IsIdle(s.pool.idle, c)
    requires !step.StrandRelease? || s.posted[step.i].conn != c
    ensures c in s'.pool.conns && s'.pool.conns[c].busy
  {
    match step
    case StrandRelease(i) => ReleasedOthers(cfg, s.now, s.pool, s.posted[i].conn, s.posted[i].reuse, s'.pool, c);
    case StrandAcquire(_, _) => AcquireSparesBusy(cfg, s, step, s', c);
    case TimerFires(w) =>
    case _ => SessionSparesBusy(cfg, s, step, s', c);
  }

  lemma AcquireSparesBusy(cfg: PoolConfig, s: System, step: Step, s': System, c: Connection)
    requires cfg.maxIdlePerOrigin >= 1 && step.StrandAcquire? && Next(cfg, s, step, s')
    requires c in s.pool.conns && s.pool.conns[c].busy && !IsIdle(s.pool.idle, c)
    ensures c in s'.pool.conns && s'.pool.conns[c].busy
  {
  }

  lemma SessionSparesBusy(cfg: PoolConfig, s: System, step: Step, s': System, c: Connection)
    requires cfg.maxIdlePerOrigin >= 1 && !PoolStep(step) && Next(cfg, s, step, s')
    requires c in s.pool.conns && s.pool.conns[c].busy
    ensures c in s'.pool.conns && s'.pool.conns[c].busy
  {
  }

  lemma BusyKept(cfg: PoolConfig, s: System, step: Step, s': System)
    requires cfg.maxIdlePerOrigin >= 1 && Inv(cfg, s) && InUseIsBusy(s) && Next(cfg, s, step, s')
    ensures InUseIsBusy(s')
  {
    forall sid | sid in s'.sessions && s'.sessions[sid].phase.Using?
      ensures var c := s'.sessions[sid].phase.conn; c in s'.pool.conns && s'.pool.conns[c].busy
    {
      var c := s'.sessions[sid].phase.conn;
      if s.sessions[sid].phase.Using? {
        assert Holds(s, sid, c);
        StaysBusy(cfg, s, step, s', c);
      } else if step.StrandAcquire? {
        AcquireMostRecent(cfg, s.now, s.pool, s.sessions[sid].client.AcquireOrigin());
      }
    }
  }

  lemma {:induction false} RunBusy(cfg: PoolConfig, states: seq<System>, steps: seq<Step>, k: nat)
    requires cfg.maxIdlePerOrigin >= 1 && IsRun(cfg, states, steps) && k < |states| && Careful(states, steps, k)
    ensures InUseIsBusy(states[k])
  {
    if k > 0 {
      RunBusy(cfg, states, steps, k - 1);
      RunKeeps(cfg, states, steps, k - 1);
      BusyKept(cfg, states[k - 1], steps[k - 1], states[k]);
    }
  }

  // ------------------------------------------------------------------- ends

  /** The codes a session ends with: 0 for a response; 1 when it got no
      connection; 2 and 3 to 5 for the two halves of the CONNECT, 6 for the
      handshake, 7 for the request and 8 for its response. */
  lemma EndsWith(cfg: PoolConfig, s: System, step: Step, s': System, sid: nat)
    requires cfg.maxIdlePerOrigin >= 1 && Next(cfg, s, step, s')
    requires sid in s.sessions && !s.sessions[sid].phase.Done? && sid in s'.sessions && s'.sessions[sid].phase.Done?
    ensures var phase, code := s.sessions[sid].phase, s'.sessions[sid].phase.code;
            if code == 0 then step.Responded? && phase.Using? && phase.stage == Read
            else if code == 1 then phase.Connecting?
            else
              && phase.Using? && 2 <= code <= 8
              && (code == 2 <==> phase.stage == ProxyWrite) && (3 <= code <= 5 <==> phase.stage == ProxyRead)
              && (code == 6 <==> phase.stage == Handshake) && (code == 7 <==> phase.stage == Write)
              && (code == 8 <==> phase.stage == Read)
  {
  }

  /** And all of that can happen: a session using a connection can go on to the
      next stage or get its response, with either keep-alive, and it can fail
      with each of the codes. */
  lemma CanGoOn(cfg: PoolConfig, s: System, sid: nat, c: Connection, stage: Stage) returns (s': System)
    requires cfg.maxIdlePerOrigin >= 1 && At(s, sid, c, stage) && stage != Read
    ensures Next(cfg, s, StageDone(sid), s')
  {
    s' := s.(sessions := WithPhase(s, sid, Using(c, After(stage))));
  }

  lemma CanRespond(cfg: PoolConfig, s: System, sid: nat, c: Connection, keepAlive: bool) returns (s': System)
    requires cfg.maxIdlePerOrigin >= 1 && At(s, sid, c, Read) && c in s.pool.conns
    ensures Next(cfg, s, Responded(sid, keepAlive), s')
  {
    s' := Finish(s, sid, c, keepAlive, 0);
  }

  lemma CanFail(cfg: PoolConfig, s: System, sid: nat, c: Connection, stage: Stage, code: nat) returns (s': System)
    requires cfg.maxIdlePerOrigin >= 1 && At(s, sid, c, stage) && c in s.pool.conns
    requires match stage
             case ProxyWrite => code == 2
             case ProxyRead => 3 <= code <= 5
             case Handshake => code == 6
             case Write => code == 7
             case Read => code == 8
    ensures Next(cfg, s, StageFailed(sid, code), s')
  {
    s' := Finish(s, sid, c, false, code);
  }
}
