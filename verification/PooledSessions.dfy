/** Any number of sessions sharing one pool, as a transition system: strand
    steps, I/O completions, reap timer, connections dying, and time interleave
    in any order. A session may be run again when it is done; `async_request`
    is a session without a tunnel that is run once. */
module PooledSessions {
  import opened Common
  import opened ConnectionPool
  import opened PoolInvariant

  datatype Client = Client(origin: Origin, proxy: Option<(string, nat)>) {
    /** The proxy hop is plain TCP. */
    function AcquireOrigin(): Origin {
      match proxy
      case Some((host, port)) => Origin("http", host, port)
      case None => origin
    }

    predicate Tunnels() {
      proxy.Some? && origin.scheme == "https"
    }
  }

  datatype Stage = ProxyWrite | ProxyRead | Handshake | Write | Read

  datatype Phase =
    | Fresh
    | Acquiring
    | Connecting(conn: Connection)
    | Using(conn: Connection, stage: Stage)
    | Done(code: nat, used: Option<Connection>)

  /** `last` is the connection of the latest acquire that succeeded. It is kept
      when the session is done, and when it is run again. */
  datatype Session = Session(client: Client, phase: Phase, last: Option<Connection>)

  /** A `release` posted to the strand by session `sid`. */
  datatype Post = Post(sid: nat, conn: Connection, reuse: bool)

  /** A session got a connection, or posted a release on finishing with `code`. */
  datatype Event =
    | Granted(sid: nat, conn: Connection)
    | Returned(sid: nat, conn: Connection, reuse: bool, code: nat)

  /** `posted` are the releases not yet run by the strand. */
  datatype System = System(
    pool: PoolState,
    now: int,
    sessions: map<nat, Session>,
    posted: seq<Post>,
    log: seq<Event>)

  datatype Step =
    | Run(sid: nat)
    | StrandAcquire(sid: nat, created: Connection)
    | ConnectDone(sid: nat)
    | ConnectFailed(sid: nat)
    | StageDone(sid: nat)
    | StageFailed(sid: nat, code: nat)
    | Responded(sid: nat, keepAlive: bool)
    | StrandRelease(i: nat)
    | TimerFires(w: nat)
    | Dies(conn: Connection)
    | Tick(to: int)

  function FailCodes(stage: Stage): set<nat> {
    match stage
    case ProxyWrite => {2}
    case ProxyRead => {3, 4, 5}
    case Handshake => {6}
    case Write => {7}
    case Read => {8}
  }

  /** The stage after a successful one; reading is the last. */
  function After(stage: Stage): Stage
    requires stage != Read
  {
    match stage
    case ProxyWrite => ProxyRead
    case ProxyRead => Handshake
    case Handshake => Write
    case Write => Read
  }

  function FirstStage(client: Client): Stage {
    if client.Tunnels() then ProxyWrite else Write
  }

  function WithPhase(s: System, sid: nat, phase: Phase): map<nat, Session>
    requires sid in s.sessions
  {
    s.sessions[sid := s.sessions[sid].(phase := phase)]
  }

  function Closed(s: System, c: Connection): System
    requires c in s.pool.conns
  {
    s.(pool := s.pool.(conns := s.pool.conns[c := s.pool.conns[c].(open := false)]))
  }

  /** `finish` with a connection at hand: close it unless it is to be reused,
      then post its release. */
  function Finish(s: System, sid: nat, c: Connection, reusable: bool, code: nat): System
    requires sid in s.sessions && c in s.pool.conns
  {
    (if reusable then s else Closed(s, c)).(
       sessions := WithPhase(s, sid, Done(code, Some(c))),
       posted := s.posted + [Post(sid, c, reusable)],
       log := s.log + [Returned(sid, c, reusable, code)])
  }

  /** The handler of a successful acquire. */
  function Granting(s: System, sid: nat, c: Connection): System
    requires sid in s.sessions
  {
    var was := s.sessions[sid];
    s.(sessions := s.sessions[sid := Session(was.client, Using(c, FirstStage(was.client)), Some(c))],
       log := s.log + [Granted(sid, c)])
  }

  ghost predicate Next(cfg: PoolConfig, s: System, step: Step, s': System)
    requires cfg.maxIdlePerOrigin >= 1
  {
    match step
    case Run(sid) =>
      sid in s.sessions && (s.sessions[sid].phase == Fresh || s.sessions[sid].phase.Done?) &&
      s' == s.(sessions := WithPhase(s, sid, Acquiring))
    case StrandAcquire(sid, created) =>
      sid in s.sessions && s.sessions[sid].phase == Acquiring && Covered(s.pool) &&
      var o := s.sessions[sid].client.AcquireOrigin();
      var pool' := AcquireState(cfg, s.now, s.pool, o);
      (match AcquireResult(cfg, s.now, s.pool, o)
       case Some(c) =>
         s' == Granting(s.(pool := pool'), sid, c)
       case None =>
         created !in s.pool.conns && created.origin == o &&
         s' == s.(pool := pool'.(conns := pool'.conns[created := ConnState(false, s.now, false)]),
                  sessions := WithPhase(s, sid, Connecting(created))))
    case ConnectDone(sid) =>
      sid in s.sessions && s.sessions[sid].phase.Connecting? &&
      var c := s.sessions[sid].phase.conn;
      c in s.pool.conns &&
      s' == Granting(s.(pool := s.pool.(conns := s.pool.conns[c := s.pool.conns[c].(busy := true, open := true)])), sid, c)
    case ConnectFailed(sid) =>
      // the last reference to the connection goes, and its socket with it;
      // `finish` then works on whatever connection the session still has
      sid in s.sessions && s.sessions[sid].phase.Connecting? && s.sessions[sid].phase.conn in s.pool.conns &&
      var dropped := Closed(s, s.sessions[sid].phase.conn);
      (match s.sessions[sid].last
       case None => s' == dropped.(sessions := WithPhase(s, sid, Done(1, None)))
       case Some(d) => d in s.pool.conns && s' == Finish(dropped, sid, d, false, 1))
    case StageDone(sid) =>
      sid in s.sessions && s.sessions[sid].phase.Using? && s.sessions[sid].phase.stage != Read &&
      s' == s.(sessions := WithPhase(s, sid, Using(s.sessions[sid].phase.conn, After(s.sessions[sid].phase.stage))))
    case StageFailed(sid, code) =>
      sid in s.sessions && s.sessions[sid].phase.Using? && s.sessions[sid].phase.conn in s.pool.conns &&
      code in FailCodes(s.sessions[sid].phase.stage) &&
      s' == Finish(s, sid, s.sessions[sid].phase.conn, false, code)
    case Responded(sid, keepAlive) =>
      sid in s.sessions && s.sessions[sid].phase.Using? && s.sessions[sid].phase.conn in s.pool.conns &&
      s.sessions[sid].phase.stage == Read &&
      s' == Finish(s, sid, s.sessions[sid].phase.conn, keepAlive, 0)
    case StrandRelease(i) =>
      i < |s.posted| && s.posted[i].conn in s.pool.conns &&
      Released(cfg, s.now, s.pool, s.posted[i].conn, s.posted[i].reuse, s'.pool) &&
      s' == s.(pool := s'.pool, posted := s.posted[..i] + s.posted[i + 1..])
    case TimerFires(w) =>
      w < |s.pool.waits| && s.pool.waits[w] <= s.now && Covered(s.pool) &&
      Reaped(cfg, s.now, s.pool, w, s'.pool) &&
      s' == s.(pool := s'.pool)
    case Dies(c) =>
      c in s.pool.conns &&
      s' == Closed(s, c)
    case Tick(to) =>
      s.now <= to && s' == s.(now := to)
  }

  predicate Init(s: System) {
    && s.pool == EMPTY && s.posted == [] && s.log == []
    && forall sid :: sid in s.sessions ==> s.sessions[sid].phase == Fresh && s.sessions[sid].last == None
  }

  // ------------------------------------------------------------- ownership

  function ConnOf(phase: Phase): Option<Connection> {
    match phase
    case Connecting(c) => Some(c)
    case Using(c, _) => Some(c)
    case _ => None
  }

  predicate Holds(s: System, sid: nat, c: Connection) {
    sid in s.sessions && ConnOf(s.sessions[sid].phase) == Some(c)
  }

  predicate Queued(s: System, i: nat, c: Connection) {
    i < |s.posted| && s.posted[i].conn == c
  }

  /** No connection has two owners among the table, the sessions and the
      release queue. */
  predicate Exclusive(s: System) {
    && (forall sid :: sid in s.sessions ==> match ConnOf(s.sessions[sid].phase)
                                            case None => true
                                            case Some(c) => c in s.pool.conns && !IsIdle(s.pool.idle, c))
    && (forall i :: 0 <= i < |s.posted| ==> s.posted[i].conn in s.pool.conns && !IsIdle(s.pool.idle, s.posted[i].conn))
    && (forall a, b :: a in s.sessions && b in s.sessions && a != b && ConnOf(s.sessions[a].phase).Some? ==>
                         ConnOf(s.sessions[a].phase) != ConnOf(s.sessions[b].phase))
    && (forall i, j :: 0 <= i < j < |s.posted| ==> s.posted[i].conn != s.posted[j].conn)
    && (forall sid, i :: sid in s.sessions && 0 <= i < |s.posted| ==>
                           ConnOf(s.sessions[sid].phase) != Some(s.posted[i].conn))
  }

  /** Idle, held, or on its way back. */
  ghost predicate Owned(s: System, c: Connection) {
    IsIdle(s.pool.idle, c) || (exists sid :: Holds(s, sid, c)) || (exists i :: Queued(s, i, c))
  }

  /** No open connection is lost. */
  ghost predicate NoLeak(s: System) {
    forall c :: c in s.pool.conns && s.pool.conns[c].open ==> Owned(s, c)
  }

  /** The events of one session. */
  function Story(log: seq<Event>, sid: nat): seq<Event> {
    if log == [] then []
    else
      var k := |log| - 1;
      Story(log[..k], sid) + if log[k].sid == sid then [log[k]] else []
  }

  /** Every grant is followed by exactly one release, of that connection, for
      reuse only after a success. */
  predicate Balanced(story: seq<Event>)
    decreases |story|
  {
    story == [] ||
    (|story| >= 2 &&
     var g, r := story[|story| - 2], story[|story| - 1];
     && g.Granted? && r.Returned? && r.conn == g.conn && (r.reuse ==> r.code == 0)
     && Balanced(story[..|story| - 2]))
  }

  /** What a session in `phase` may have done so far. */
  predicate OneRelease(story: seq<Event>, phase: Phase) {
    if phase.Using? then
      story != [] && story[|story| - 1].Granted? && story[|story| - 1].conn == phase.conn && Balanced(story[..|story| - 1])
    else Balanced(story)
  }

  predicate ReleasedOnce(s: System) {
    forall sid :: sid in s.sessions ==> OneRelease(Story(s.log, sid), s.sessions[sid].phase)
  }

  /** An earlier connection is not the one being connected. */
  predicate LastKnown(s: System) {
    forall sid :: sid in s.sessions && s.sessions[sid].last.Some? ==>
                    && s.sessions[sid].last.value in s.pool.conns
                    && s.sessions[sid].phase != Connecting(s.sessions[sid].last.value)
  }

  /** The acquire of a session that still has an earlier connection fails. */
  predicate Reckless(s: System, step: Step) {
    step.ConnectFailed? && step.sid in s.sessions && s.sessions[step.sid].last.Some?
  }

  ghost predicate Inv(cfg: PoolConfig, s: System) {
    && PoolOk(cfg, s.now, s.pool)
    && Exclusive(s)
    && NoLeak(s)
    && ReleasedOnce(s)
    && LastKnown(s)
  }
}
