/** A run in which a session is run again and its second acquire fails: the
    connection of its first run, by then in use by another session, is closed
    and released a second time. */
module RecklessRun {
  import opened Common
  import opened ConnectionPool
  import opened PooledSessions
  import opened PooledRuns

  const CFG := PoolConfig(0, 60, 1, 1)
  const ORIGIN := Origin("http", "example.com", 80)
  const CLIENT := Client(ORIGIN, None)

  /** A state at time zero: the deque of the one origin, the connections, both
      sessions, and the release queue. */
  function At(idle: IdleMap, conns: map<Connection, ConnState>, first: Session, second: Session, posted: seq<Post>, log: seq<Event>): System {
    System(PoolState(idle, conns, false, []), 0, map[0 := first, 1 := second], posted, log)
  }

  function Sess(phase: Phase, last: Option<Connection>): Session {
    Session(CLIENT, phase, last)
  }

  const NEW := Sess(Fresh, None)

  const MADE := ConnState(false, 0, false)
  const BUSY := ConnState(true, 0, true)
  const IDLE := ConnState(false, 0, true)
  const SHUT := ConnState(true, 0, false)

  function State(c: Connection, d: Connection, i: nat): System {
    var g, r, h := Granted(0, c), Returned(0, c, true, 0), Granted(1, c);
    var none, one := map[ORIGIN := []], map[ORIGIN := [c]];
    var done, uses := Sess(Done(0, Some(c)), Some(c)), Sess(Using(c, Write), Some(c));
    match i
    case 0 => At(map[], map[], NEW, NEW, [], [])
    case 1 => At(map[], map[], Sess(Acquiring, None), NEW, [], [])
    case 2 => At(none, map[c := MADE], Sess(Connecting(c), None), NEW, [], [])
    case 3 => At(none, map[c := BUSY], uses, NEW, [], [g])
    case 4 => At(none, map[c := BUSY], Sess(Using(c, Read), Some(c)), NEW, [], [g])
    case 5 => At(none, map[c := BUSY], done, NEW, [Post(0, c, true)], [g, r])
    case 6 => At(one, map[c := IDLE], done, NEW, [], [g, r])
    case 7 => At(one, map[c := IDLE], done, Sess(Acquiring, None), [], [g, r])
    case 8 => At(none, map[c := BUSY], done, uses, [], [g, r, h])
    case 9 => At(none, map[c := BUSY], Sess(Acquiring, Some(c)), uses, [], [g, r, h])
    case 10 => At(none, map[c := BUSY, d := MADE], Sess(Connecting(d), Some(c)), uses, [], [g, r, h])
    case _ =>
      At(none, map[c := SHUT, d := MADE], Sess(Done(1, Some(c)), Some(c)), uses, [Post(0, c, false)],
         [g, r, h, Returned(0, c, false, 1)])
  }

  function StepNo(c: Connection, d: Connection, i: nat): Step {
    match i
    case 0 => Run(0)
    case 1 => StrandAcquire(0, c)
    case 2 => ConnectDone(0)
    case 3 => StageDone(0)
    case 4 => Responded(0, true)
    case 5 => StrandRelease(0)
    case 6 => Run(1)
    case 7 => StrandAcquire(1, d)
    case 8 => Run(0)
    case 9 => StrandAcquire(0, d)
    case _ => ConnectFailed(0)
  }

  function States(c: Connection, d: Connection): seq<System> {
    seq(12, i requires 0 <= i < 12 => State(c, d, i))
  }

  function Steps(c: Connection, d: Connection): seq<Step> {
    seq(11, i requires 0 <= i < 11 => StepNo(c, d, i))
  }

  /** Nothing idle: a connection is created. */
  lemma CreateStep(idle: IdleMap, conns: map<Connection, ConnState>, last: Option<Connection>, second: Session, log: seq<Event>, c: Connection)
    requires (idle == map[] || idle == map[ORIGIN := []]) && c !in conns && c.origin == ORIGIN
    ensures Next(CFG, At(idle, conns, Sess(Acquiring, last), second, [], log), StrandAcquire(0, c),
                 At(map[ORIGIN := []], conns[c := MADE], Sess(Connecting(c), last), second, [], log))
  {
    var s := At(idle, conns, Sess(Acquiring, last), second, [], log);
    assert Dq(idle, ORIGIN) == [] && idle[ORIGIN := []] == map[ORIGIN := []];
    assert CloseGone(conns, idle, map[ORIGIN := []]) == conns;
    assert s.sessions[0 := Sess(Connecting(c), last)] == map[0 := Sess(Connecting(c), last), 1 := second];
  }

  /** The idle connection is handed to the other session. */
  lemma ReuseStep(c: Connection, d: Connection, first: Session, log: seq<Event>)
    requires c.origin == ORIGIN
    ensures Next(CFG, At(map[ORIGIN := [c]], map[c := IDLE], first, Sess(Acquiring, None), [], log), StrandAcquire(1, d),
                 At(map[ORIGIN := []], map[c := BUSY], first, Sess(Using(c, Write), Some(c)), [], log + [Granted(1, c)]))
  {
    var s := At(map[ORIGIN := [c]], map[c := IDLE], first, Sess(Acquiring, None), [], log);
    assert LastUsable([c], map[c := IDLE], 0, 60) == 0;
    assert Dq(s.pool.idle, ORIGIN) == [c] && [c][..0] == [];
    var pool := AcquireState(CFG, 0, s.pool, ORIGIN);
    assert pool.idle == map[ORIGIN := []] && pool.conns == map[c := BUSY];
    assert s.sessions[1 := Sess(Using(c, Write), Some(c))] == map[0 := first, 1 := Sess(Using(c, Write), Some(c))];
  }

  lemma TotalOne(idle: IdleMap)
    requires ORIGIN in idle && idle.Keys == {ORIGIN}
    ensures Total(idle) == |idle[ORIGIN]|
  {
    TotalRemove(idle, ORIGIN);
    assert idle - {ORIGIN} == map[];
  }

  lemma ReleaseStep(c: Connection, first: Session, second: Session, log: seq<Event>)
    requires c.origin == ORIGIN
    ensures Next(CFG, At(map[ORIGIN := []], map[c := BUSY], first, second, [Post(0, c, true)], log), StrandRelease(0),
                 At(map[ORIGIN := [c]], map[c := IDLE], first, second, [], log))
  {
    var s := At(map[ORIGIN := []], map[c := BUSY], first, second, [Post(0, c, true)], log);
    var after := map[ORIGIN := [c]];
    assert Dq(s.pool.idle, ORIGIN) == [] && [] + [c] == [c];
    assert PushIdle(CFG, s.pool.idle, c) == after;
    TotalOne(after);
    var stamped := s.pool.conns[c := ConnState(false, 0, true)];
    assert CloseGone(stamped, after, after) == map[c := IDLE];
    assert s.pool.idle[c.origin := Dq(s.pool.idle, c.origin) + [c]] == after;
    assert s.posted[..0] + s.posted[1..] == [];
  }

  /** A step that only moves the first session on. */
  lemma MoveStep(idle: IdleMap, conns: map<Connection, ConnState>, first: Session, second: Session, log: seq<Event>, phase: Phase)
    requires (first.phase == Fresh || first.phase.Done?) && phase == Acquiring
    ensures Next(CFG, At(idle, conns, first, second, [], log), Run(0), At(idle, conns, first.(phase := phase), second, [], log))
  {
    assert map[0 := first, 1 := second][0 := first.(phase := phase)] == map[0 := first.(phase := phase), 1 := second];
  }

  lemma OtherRunsStep(idle: IdleMap, conns: map<Connection, ConnState>, first: Session, log: seq<Event>)
    ensures Next(CFG, At(idle, conns, first, NEW, [], log), Run(1), At(idle, conns, first, Sess(Acquiring, None), [], log))
  {
    assert map[0 := first, 1 := NEW][1 := Sess(Acquiring, None)] == map[0 := first, 1 := Sess(Acquiring, None)];
  }

  lemma ConnectStep(idle: IdleMap, second: Session, c: Connection)
    ensures Next(CFG, At(idle, map[c := MADE], Sess(Connecting(c), None), second, [], []), ConnectDone(0),
                 At(idle, map[c := BUSY], Sess(Using(c, Write), Some(c)), second, [], [Granted(0, c)]))
  {
    var used := Sess(Using(c, Write), Some(c));
    assert map[0 := Sess(Connecting(c), None), 1 := second][0 := used] == map[0 := used, 1 := second];
    assert map[c := MADE][c := BUSY] == map[c := BUSY];
  }

  lemma WrittenStep(idle: IdleMap, conns: map<Connection, ConnState>, second: Session, c: Connection, log: seq<Event>)
    ensures Next(CFG, At(idle, conns, Sess(Using(c, Write), Some(c)), second, [], log), StageDone(0),
                 At(idle, conns, Sess(Using(c, Read), Some(c)), second, [], log))
  {
    var read := Sess(Using(c, Read), Some(c));
    assert map[0 := Sess(Using(c, Write), Some(c)), 1 := second][0 := read] == map[0 := read, 1 := second];
  }

  lemma ReadStep(idle: IdleMap, second: Session, c: Connection)
    ensures Next(CFG, At(idle, map[c := BUSY], Sess(Using(c, Read), Some(c)), second, [], [Granted(0, c)]), Responded(0, true),
                 At(idle, map[c := BUSY], Sess(Done(0, Some(c)), Some(c)), second, [Post(0, c, true)], [Granted(0, c), Returned(0, c, true, 0)]))
  {
    var done := Sess(Done(0, Some(c)), Some(c));
    assert map[0 := Sess(Using(c, Read), Some(c)), 1 := second][0 := done] == map[0 := done, 1 := second];
    assert [Granted(0, c)] + [Returned(0, c, true, 0)] == [Granted(0, c), Returned(0, c, true, 0)];
  }

  lemma FailStep(idle: IdleMap, second: Session, c: Connection, d: Connection, log: seq<Event>)
    requires c != d
    ensures Next(CFG, At(idle, map[c := BUSY, d := MADE], Sess(Connecting(d), Some(c)), second, [], log), ConnectFailed(0),
                 At(idle, map[c := SHUT, d := MADE], Sess(Done(1, Some(c)), Some(c)), second, [Post(0, c, false)],
                    log + [Returned(0, c, false, 1)]))
  {
    var s := At(idle, map[c := BUSY, d := MADE], Sess(Connecting(d), Some(c)), second, [], log);
    var done := Sess(Done(1, Some(c)), Some(c));
    assert s.sessions[0 := done] == map[0 := done, 1 := second];
    assert Closed(s, d).pool.conns == s.pool.conns;
    assert Closed(s, d) == s;
    assert Closed(s, c).pool.conns == map[c := SHUT, d := MADE];
  }

  lemma StepIs(c: Connection, d: Connection, i: nat)
    requires c.origin == d.origin == ORIGIN && c != d && i < 11
    ensures Next(CFG, State(c, d, i), StepNo(c, d, i), State(c, d, i + 1))
  {
    if i < 3 {
      Connects(c, d, i);
    } else if i < 6 {
      Finishes(c, d, i);
    } else {
      RunsAgain(c, d, i);
    }
  }

  lemma Connects(c: Connection, d: Connection, i: nat)
    requires c.origin == ORIGIN && i < 3
    ensures Next(CFG, State(c, d, i), StepNo(c, d, i), State(c, d, i + 1))
  {
    match i
    case 0 => MoveStep(map[], map[], NEW, NEW, [], Acquiring);
    case 1 => CreateStep(map[], map[], None, NEW, [], c);
    case 2 => ConnectStep(map[ORIGIN := []], NEW, c);
  }

  lemma Finishes(c: Connection, d: Connection, i: nat)
    requires c.origin == ORIGIN && 3 <= i < 6
    ensures Next(CFG, State(c, d, i), StepNo(c, d, i), State(c, d, i + 1))
  {
    match i
    case 3 => WrittenStep(map[ORIGIN := []], map[c := BUSY], NEW, c, [Granted(0, c)]);
    case 4 => ReadStep(map[ORIGIN := []], NEW, c);
    case 5 => ReleaseStep(c, Sess(Done(0, Some(c)), Some(c)), NEW, [Granted(0, c), Returned(0, c, true, 0)]);
  }

  lemma RunsAgain(c: Connection, d: Connection, i: nat)
    requires c.origin == d.origin == ORIGIN && c != d && 6 <= i < 11
    ensures Next(CFG, State(c, d, i), StepNo(c, d, i), State(c, d, i + 1))
  {
    var none, first, second := map[ORIGIN := []], Sess(Done(0, Some(c)), Some(c)), Sess(Using(c, Write), Some(c));
    var log := [Granted(0, c), Returned(0, c, true, 0)];
    assert log + [Granted(1, c)] == [Granted(0, c), Returned(0, c, true, 0), Granted(1, c)];
    match i
    case 6 => OtherRunsStep(map[ORIGIN := [c]], map[c := IDLE], first, log);
    case 7 => ReuseStep(c, d, first, log);
    case 8 => MoveStep(none, map[c := BUSY], first, second, log + [Granted(1, c)], Acquiring);
    case 9 => CreateStep(none, map[c := BUSY], Some(c), second, log + [Granted(1, c)], d);
    case 10 =>
      FailStep(none, second, c, d, log + [Granted(1, c)]);
      assert log + [Granted(1, c)] + [Returned(0, c, false, 1)] == State(c, d, 11).log;
  }

  lemma StoryIs(c: Connection)
    ensures Story([Granted(0, c), Returned(0, c, true, 0), Granted(1, c), Returned(0, c, false, 1)], 0)
         == [Granted(0, c), Returned(0, c, true, 0), Returned(0, c, false, 1)]
  {
    var g, r, h, again := Granted(0, c), Returned(0, c, true, 0), Granted(1, c), Returned(0, c, false, 1);
    StoryAppend([], g, 0);
    StoryAppend([g], r, 0);
    StoryAppend([g, r], h, 0);
    StoryAppend([g, r, h], again, 0);
    assert [] + [g] == [g] && [g] + [r] == [g, r] && [g, r] + [h] == [g, r, h];
    assert [g, r, h] + [again] == [g, r, h, again] && [g, r] + [again] == [g, r, again];
  }

  /** It is a run, and in its last state the connection that the second session
      is using is closed and on its way back, its first session having released
      it twice for one grant. */
  lemma ReleasedTwice(c: Connection, d: Connection)
    requires c.origin == d.origin == ORIGIN && c != d
    ensures IsRun(CFG, States(c, d), Steps(c, d)) && !Careful(States(c, d), Steps(c, d), 11)
    ensures var s := States(c, d)[11];
            && Holds(s, 1, c) && Queued(s, 0, c) && !s.pool.conns[c].open
            && Story(s.log, 0) == [Granted(0, c), Returned(0, c, true, 0), Returned(0, c, false, 1)]
            && !Exclusive(s)
  {
    forall i: nat | i < 11 ensures Next(CFG, States(c, d)[i], Steps(c, d)[i], States(c, d)[i + 1]) {
      StepIs(c, d, i);
    }
    assert Reckless(States(c, d)[10], Steps(c, d)[10]);
    StoryIs(c);
    var s := State(c, d, 11);
    assert s.posted[0].conn == c && ConnOf(s.sessions[1].phase) == Some(c);
  }
}
