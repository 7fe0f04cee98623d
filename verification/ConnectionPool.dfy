/** The idle-connection pool on values: what one strand step of `acquire`,
    `release` and the reaper does to the table of idle deques, to the state of
    every connection, and to the reap timer. The classes that carry the steps
    out in place are in PoolObjects.dfy; runs of the pool with its clients are
    in PooledSessions.dfy. */
module ConnectionPool {
  import opened Common

  datatype Origin = Origin(scheme: string, host: string, port: nat)

  /** Times and durations are in one common unit; the clock is `int`. */
  datatype PoolConfig = PoolConfig(
    reapInterval: int,
    keepAlive: int,
    maxIdlePerOrigin: nat,
    maxTotalIdle: nat)

  /** A pooled connection. The socket is reduced to whether it is open; the
      environment may close it at any time. */
  class Connection {
    const origin: Origin
    var busy: bool
    var lastUsed: int
    var open: bool

    constructor (origin: Origin, now: int)
      ensures this.origin == origin && !busy && lastUsed == now && !open
    {
      this.origin := origin;
      busy, lastUsed, open := false, now, false;
    }

    function State(): ConnState
      reads this
    {
      ConnState(busy, lastUsed, open)
    }

    /** Marking a connection idle stamps it with the current time. */
    method SetBusy(b: bool, now: int)
      modifies this
      ensures State() == old(State()).(busy := b, lastUsed := if b then old(lastUsed) else now)
    {
      busy := b;
      if !b {
        lastUsed := now;
      }
    }

    method Close()
      modifies this
      ensures State() == old(State()).(open := false)
    {
      open := false;
    }
  }

  datatype ConnState = ConnState(busy: bool, lastUsed: int, open: bool)

  type IdleMap = map<Origin, seq<Connection>>

  /** `waits` holds the deadline of every outstanding wait on the reap timer. */
  datatype PoolState = PoolState(
    idle: IdleMap,
    conns: map<Connection, ConnState>,
    armed: bool,
    waits: seq<int>)

  function Dq(idle: IdleMap, o: Origin): seq<Connection> {
    if o in idle then idle[o] else []
  }

  /** Filed in the deque of its own origin. */
  predicate IsIdle(idle: IdleMap, c: Connection) {
    c in Dq(idle, c.origin)
  }

  predicate Usable(st: ConnState, now: int, keepAlive: int) {
    st.open && now - st.lastUsed <= keepAlive
  }

  // ---------------------------------------------------------------- totals

  ghost function Total(idle: IdleMap): nat
    decreases |idle|
  {
    if idle == map[] then 0
    else
      var o :| o in idle;
      |idle[o]| + Total(idle - {o})
  }

  lemma {:induction false} TotalRemove(idle: IdleMap, o: Origin)
    requires o in idle
    ensures Total(idle) == |idle[o]| + Total(idle - {o})
    decreases |idle|
  {
    var p :| p in idle && Total(idle) == |idle[p]| + Total(idle - {p});
    if p != o {
      TotalRemove(idle - {p}, o);
      TotalRemove(idle - {o}, p);
      assert idle - {p} - {o} == idle - {o} - {p};
    }
  }

  lemma TotalUpdate(idle: IdleMap, o: Origin, q: seq<Connection>)
    ensures Total(idle[o := q]) == Total(idle) - |Dq(idle, o)| + |q|
  {
    TotalRemove(idle[o := q], o);
    assert idle[o := q] - {o} == idle - {o};
    if o in idle {
      TotalRemove(idle, o);
    } else {
      assert idle - {o} == idle;
    }
  }

  lemma TotalPositive(idle: IdleMap, o: Origin)
    requires o in idle && idle[o] != []
    ensures Total(idle) > 0
  {
    TotalRemove(idle, o);
  }

  lemma {:induction false} TotalZero(idle: IdleMap)
    requires forall o :: o in idle ==> idle[o] == []
    ensures Total(idle) == 0
    decreases |idle|
  {
    if idle != map[] {
      var o :| o in idle;
      TotalRemove(idle, o);
      TotalZero(idle - {o});
    }
  }

  // ------------------------------------------------------- the three steps

  /** Index of the last usable connection of a deque, -1 if there is none. */
  function LastUsable(q: seq<Connection>, conns: map<Connection, ConnState>, now: int, keepAlive: int): (i: int)
    requires forall c :: c in q ==> c in conns
    ensures -1 <= i < |q|
    ensures 0 <= i ==> Usable(conns[q[i]], now, keepAlive)
    ensures forall j :: i < j < |q| ==> !Usable(conns[q[j]], now, keepAlive)
  {
    if q == [] then -1
    else if Usable(conns[q[|q| - 1]], now, keepAlive) then |q| - 1
    else LastUsable(q[..|q| - 1], conns, now, keepAlive)
  }

  /** Every connection that was idle and no longer is has been closed. */
  function CloseGone(conns: map<Connection, ConnState>, before: IdleMap, after: IdleMap): map<Connection, ConnState> {
    map c | c in conns ::
      if IsIdle(before, c) && !IsIdle(after, c) then conns[c].(open := false) else conns[c]
  }

  predicate Covered(s: PoolState) {
    forall o, c :: o in s.idle && c in s.idle[o] ==> c in s.conns && c.origin == o
  }

  /** `acquire` on the strand: pop from the back until a usable connection
      turns up; everything popped before it is closed. */
  function AcquireState(cfg: PoolConfig, now: int, s: PoolState, o: Origin): PoolState
    requires Covered(s)
  {
    var q := Dq(s.idle, o);
    var i := LastUsable(q, s.conns, now, cfg.keepAlive);
    var idle' := s.idle[o := if i < 0 then [] else q[..i]];
    var closed := CloseGone(s.conns, s.idle, idle');
    if i < 0 then s.(idle := idle', conns := closed)
    else s.(idle := idle', conns := closed[q[i] := s.conns[q[i]].(busy := true)])
  }

  function AcquireResult(cfg: PoolConfig, now: int, s: PoolState, o: Origin): Option<Connection>
    requires Covered(s)
  {
    var q := Dq(s.idle, o);
    var i := LastUsable(q, s.conns, now, cfg.keepAlive);
    if i < 0 then None else Some(q[i])
  }

  predicate IsSuffix(small: seq<Connection>, big: seq<Connection>) {
    |small| <= |big| && small == big[|big| - |small|..]
  }

  /** The global cap. Only fronts are dropped, exactly as many as needed, from
      the largest deques; a deque emptied this way leaves the table. Which of
      several largest deques gives way is not determined. */
  ghost predicate Shrunk(cap: nat, before: IdleMap, after: IdleMap) {
    if Total(before) <= cap then after == before
    else
      && Total(after) == cap
      && (forall o :: o in after <==> o in before && (before[o] == [] || Dq(after, o) != []))
      && (forall o :: o in before ==> IsSuffix(Dq(after, o), before[o]))
      && (forall o, p :: o in before && p in before && |Dq(after, o)| < |before[o]| ==>
                           |Dq(after, p)| <= |Dq(after, o)| + 1)
  }

  /** Setting the timer's expiry makes every wait still outstanding complete at
      once; then the new wait is added. */
  function Rearm(waits: seq<int>, now: int, interval: int): seq<int> {
    seq(|waits|, i requires 0 <= i < |waits| => now) + [now + interval]
  }

  function PushIdle(cfg: PoolConfig, idle: IdleMap, c: Connection): IdleMap
    requires cfg.maxIdlePerOrigin >= 1
  {
    var q := Dq(idle, c.origin);
    idle[c.origin := (if |q| >= cfg.maxIdlePerOrigin then q[1..] else q) + [c]]
  }

  /** `release` on the strand. */
  ghost predicate Released(cfg: PoolConfig, now: int, s: PoolState, c: Connection, canReuse: bool, s': PoolState)
    requires cfg.maxIdlePerOrigin >= 1 && c in s.conns
  {
    if !canReuse || !s.conns[c].open then
      s' == s.(conns := s.conns[c := s.conns[c].(open := false)])
    else
      var stamped := s.conns[c := ConnState(false, now, true)];
      var offered := s.idle[c.origin := Dq(s.idle, c.origin) + [c]];
      && Shrunk(cfg.maxTotalIdle, PushIdle(cfg, s.idle, c), s'.idle)
      && s'.conns == CloseGone(stamped, offered, s'.idle)
      && (if cfg.reapInterval > 0 && !s.armed && Total(s'.idle) > 0 then
            s'.armed && s'.waits == Rearm(s.waits, now, cfg.reapInterval)
          else
            s'.armed == s.armed && s'.waits == s.waits)
  }

  /** The connections of a deque that survive the reaper, in order. */
  function Keep(q: seq<Connection>, conns: map<Connection, ConnState>, now: int, keepAlive: int): (r: seq<Connection>)
    requires forall c :: c in q ==> c in conns
    ensures forall c :: c in r ==> c in q && Usable(conns[c], now, keepAlive)
    ensures forall c :: c in q && Usable(conns[c], now, keepAlive) ==> c in r
    ensures |r| <= |q|
  {
    if q == [] then []
    else if Usable(conns[q[0]], now, keepAlive) then [q[0]] + Keep(q[1..], conns, now, keepAlive)
    else Keep(q[1..], conns, now, keepAlive)
  }

  function Pruned(s: PoolState, now: int, keepAlive: int): IdleMap
    requires Covered(s)
  {
    map o | o in s.idle && Keep(s.idle[o], s.conns, now, keepAlive) != [] :: Keep(s.idle[o], s.conns, now, keepAlive)
  }

  /** The wait number `w` of the reap timer completes. */
  ghost predicate Reaped(cfg: PoolConfig, now: int, s: PoolState, w: nat, s': PoolState)
    requires w < |s.waits| && Covered(s)
  {
    var rest := s.waits[..w] + s.waits[w + 1..];
    && Shrunk(cfg.maxTotalIdle, Pruned(s, now, cfg.keepAlive), s'.idle)
    && s'.conns == CloseGone(s.conns, s.idle, s'.idle)
    && (if Total(s'.idle) > 0 && cfg.reapInterval > 0 then
          s'.armed == s.armed && s'.waits == Rearm(rest, now, cfg.reapInterval)
        else
          !s'.armed && s'.waits == rest)
  }

  // --------------------------------------------------------- the invariant

  predicate Distinct(q: seq<Connection>) {
    forall i, j :: 0 <= i < j < |q| ==> q[i] != q[j]
  }

  predicate ByLastUse(q: seq<Connection>, conns: map<Connection, ConnState>)
    requires forall c :: c in q ==> c in conns
  {
    forall i, j :: 0 <= i < j < |q| ==> conns[q[i]].lastUsed <= conns[q[j]].lastUsed
  }

  /** One deque: no connection twice, all idle, filed under their origin, least
      recently used first. */
  predicate DequeOk(now: int, conns: map<Connection, ConnState>, o: Origin, q: seq<Connection>) {
    && (forall c :: c in q ==> c in conns && c.origin == o && !conns[c].busy && conns[c].lastUsed <= now)
    && Distinct(q)
    && ByLastUse(q, conns)
  }

  predicate DequesOk(now: int, s: PoolState) {
    forall o :: o in s.idle ==> DequeOk(now, s.conns, o, s.idle[o])
  }

  ghost predicate CapsOk(cfg: PoolConfig, s: PoolState) {
    && (forall o :: o in s.idle ==> |s.idle[o]| <= cfg.maxIdlePerOrigin)
    && Total(s.idle) <= cfg.maxTotalIdle
  }

  /** One outstanding wait exactly while the reaper is armed, and armed
      whenever anything is idle. */
  ghost predicate ReaperOk(cfg: PoolConfig, s: PoolState) {
    && |s.waits| == (if s.armed then 1 else 0)
    && (s.armed ==> cfg.reapInterval > 0)
    && (cfg.reapInterval > 0 && Total(s.idle) > 0 ==> s.armed)
  }

  /** What bounds the age of idle connections: the outstanding wait ends before
      any of them is older than keep-alive plus interval. */
  predicate AgesOk(cfg: PoolConfig, now: int, s: PoolState) {
    forall w :: w in s.waits ==>
                  && w <= now + cfg.reapInterval
                  && (forall o, c :: o in s.idle && c in s.idle[o] && c in s.conns ==>
                                       w <= s.conns[c].lastUsed + cfg.keepAlive + cfg.reapInterval)
  }

  ghost predicate PoolOk(cfg: PoolConfig, now: int, s: PoolState) {
    && DequesOk(now, s)
    && CapsOk(cfg, s)
    && ReaperOk(cfg, s)
    && (cfg.keepAlive >= 0 ==> AgesOk(cfg, now, s))
  }

  const EMPTY := PoolState(map[], map[], false, [])
}
