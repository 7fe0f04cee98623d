/** Whole runs of the bounded `collect_io_parallel`, for every bound: what it
    delivers and how much it keeps in flight. */
module BoundedRuns {
  import opened Common
  import opened Pieces
  import opened CollectParallel
  import opened CollectBounded

  // --------------------------------------------------------- one by one

  datatype Turn = Idle | Running | Back

  /** `collect_io`: item |out| runs until it calls back. */
  datatype Serial<T> = Serial(turns: seq<Turn>, out: seq<T>, delivered: seq<Result<seq<T>>>)

  /** The step function of the source: run the next item, or deliver. */
  function Advance<T>(s: Serial<T>): Serial<T> {
    if |s.out| >= |s.turns| then s.(delivered := s.delivered + [Ok(s.out)])
    else s.(turns := s.turns[|s.out| := Running])
  }

  function BeginSerial<T>(n: nat): Serial<T> {
    Advance(Serial(seq(n, _ => Idle), [], []))
  }

  function CallBack<T>(outcomes: seq<Result<T>>, s: Serial<T>, i: nat): Serial<T>
    requires i < |outcomes| == |s.turns|
  {
    var back := s.(turns := s.turns[i := Back]);
    match outcomes[i]
    case Err(e) => back.(delivered := s.delivered + [Err(e)])
    case Ok(v) => Advance(back.(out := s.out + [v]))
  }

  /** Any running item may call back next. */
  function SerialRun<T>(outcomes: seq<Result<T>>, calls: seq<nat>): Option<Serial<T>>
    decreases |calls|
  {
    if calls == [] then Some(BeginSerial(|outcomes|))
    else
      match SerialRun(outcomes, calls[..|calls| - 1])
      case None => None
      case Some(s) =>
        var i := calls[|calls| - 1];
        if i < |outcomes| == |s.turns| && s.turns[i] == Running then Some(CallBack(outcomes, s, i)) else None
  }

  ghost predicate SerialInv<T>(outcomes: seq<Result<T>>, s: Serial<T>) {
    && |s.turns| == |outcomes| && |s.out| <= |outcomes|
    && AllOk(outcomes[..|s.out|]) && s.out == Values(outcomes[..|s.out|])
    && (forall i :: 0 <= i < |s.turns| && i != |s.out| ==> s.turns[i] != Running)
    && (s.delivered == [] <==> |s.out| < |outcomes| && s.turns[|s.out|] == Running)
    && (s.delivered != [] ==>
          if |s.out| == |outcomes| then s.delivered == [Ok(s.out)]
          else outcomes[|s.out|].Err? && s.delivered == [Err(outcomes[|s.out|].error)])
  }

  lemma CallBackKeeps<T>(outcomes: seq<Result<T>>, s: Serial<T>, i: nat)
    requires SerialInv(outcomes, s) && i < |outcomes| && s.turns[i] == Running
    ensures SerialInv(outcomes, CallBack(outcomes, s, i))
  {
    assert i == |s.out|;
    assert outcomes[..i + 1] == outcomes[..i] + [outcomes[i]];
    assert outcomes[i].Ok? ==> Values(outcomes[..i + 1]) == s.out + [outcomes[i].value];
  }

  lemma {:induction false} SerialRunKeeps<T>(outcomes: seq<Result<T>>, calls: seq<nat>)
    requires SerialRun(outcomes, calls).Some?
    ensures SerialInv(outcomes, SerialRun(outcomes, calls).value)
    decreases |calls|
  {
    if calls != [] {
      SerialRunKeeps(outcomes, calls[..|calls| - 1]);
      CallBackKeeps(outcomes, SerialRun(outcomes, calls[..|calls| - 1]).value, calls[|calls| - 1]);
    }
  }

  /** What it delivers is the sequential outcome. */
  lemma SerialAgrees<T>(outcomes: seq<Result<T>>, s: Serial<T>)
    requires SerialInv(outcomes, s) && s.delivered != []
    ensures s.delivered == [Sequential(outcomes)]
  {
    if |s.out| == |outcomes| {
      assert outcomes[..|s.out|] == outcomes;
      SequentialMeaning(outcomes);
    } else {
      FirstError(outcomes, |s.out|);
    }
  }

  // ------------------------------------------------- the bounded overload

  datatype Bounded<T> = OneByOne(serial: Serial<T>) | AllAtOnce(par: Par<T>) | InChunks(chunked: Chunked<T>)

  /** The states the bounded overload can be in: up to one at a time it is
      `collect_io`, with room for all the unbounded overload, else chunks. */
  ghost predicate Reaches<T>(outcomes: seq<Result<T>>, concurrency: nat, s: Bounded<T>) {
    match s
    case OneByOne(serial) => concurrency <= 1 && exists calls :: SerialRun(outcomes, calls) == Some(serial)
    case AllAtOnce(par) =>
      concurrency > 1 && (outcomes == [] || concurrency >= |outcomes|) && exists steps :: Run(outcomes, steps) == Some(par)
    case InChunks(chunked) =>
      1 < concurrency < |outcomes| && exists steps :: ChunkRun(Chunks(outcomes, concurrency), steps) == Some(chunked)
  }

  function Delivered<T>(s: Bounded<T>): seq<Result<seq<T>>> {
    match s
    case OneByOne(serial) => serial.delivered
    case AllAtOnce(par) => par.delivered
    case InChunks(chunked) => chunked.delivered
  }

  /** Items started whose callback is not over, as pairs of chunk and place. */
  function InFlight<T>(s: Bounded<T>): set<(nat, nat)> {
    match s
    case OneByOne(serial) => set i: nat | i < |serial.turns| && serial.turns[i] == Running :: (0, i)
    case AllAtOnce(par) => Busy(par, 0)
    case InChunks(chunked) => AllBusy(chunked.pars)
  }

  function Busy<T>(par: Par<T>, h: nat): set<(nat, nat)> {
    set i: nat | i < |par.pc| && i < par.started && !par.pc[i].Over? :: (h, i)
  }

  function AllBusy<T>(pars: seq<Par<T>>): set<(nat, nat)> {
    if pars == [] then {} else AllBusy(pars[..|pars| - 1]) + Busy(pars[|pars| - 1], |pars| - 1)
  }

  /** Nothing can happen any more: all that was started is over. */
  predicate Finished<T>(s: Bounded<T>) {
    match s
    case OneByOne(serial) => forall i :: 0 <= i < |serial.turns| ==> serial.turns[i] != Running
    case AllAtOnce(par) => AllOver(par)
    case InChunks(chunked) => forall h :: 0 <= h < |chunked.pars| ==> AllOver(chunked.pars[h])
  }

  function Width(concurrency: nat): nat {
    if concurrency <= 1 then 1 else concurrency
  }

  lemma {:induction false} FlattenOk<T>(chunks: seq<seq<Result<T>>>, out: seq<seq<T>>)
    requires |out| == |chunks| && forall h :: 0 <= h < |chunks| ==> AllOk(chunks[h]) && out[h] == Values(chunks[h])
    ensures AllOk(Flatten(chunks)) && Flatten(out) == Values(Flatten(chunks))
  {
    if chunks == [] {
      assert Values(Flatten(chunks)) == [];
    } else {
      forall h | 0 <= h < |chunks[1..]| ensures AllOk(chunks[1..][h]) && out[1..][h] == Values(chunks[1..][h]) {
        assert chunks[1..][h] == chunks[h + 1];
      }
      FlattenOk(chunks[1..], out[1..]);
      ValuesConcat(chunks[0], Flatten(chunks[1..]));
    }
  }

  lemma ValuesConcat<T>(a: seq<Result<T>>, b: seq<Result<T>>)
    requires AllOk(a) && AllOk(b)
    ensures AllOk(a + b) && Values(a + b) == Values(a) + Values(b)
  {
  }

  lemma {:induction false} InFlatten<A>(chunks: seq<seq<A>>, j: nat, i: nat)
    requires j < |chunks| && i < |chunks[j]|
    ensures chunks[j][i] in Flatten(chunks)
  {
    if j > 0 {
      assert chunks[1..][j - 1] == chunks[j];
      InFlatten(chunks[1..], j - 1, i);
    }
  }

  lemma NotAllOk<T>(outcomes: seq<Result<T>>, e: Error)
    requires Err(e) in outcomes
    ensures !AllOk(outcomes)
  {
  }

  lemma {:induction false} Singletons<A>(items: seq<A>, j: nat)
    requires j < |items|
    ensures |Chunks(items, 1)| == |items| && Chunks(items, 1)[j] == [items[j]]
    decreases |items|
  {
    if |items| > 1 {
      Singletons(items[1..], if j > 0 then j - 1 else 0);
    }
  }

  /** For every bound: a success is delivered exactly when the sequential run
      succeeds, with the same values in the same order; an error comes from the
      first chunk that has a failure. */
  lemma BoundedAgrees<T>(outcomes: seq<Result<T>>, concurrency: nat, s: Bounded<T>, d: Result<seq<T>>)
    requires Reaches(outcomes, concurrency, s) && d in Delivered(s)
    ensures d.Ok? <==> Sequential(outcomes).Ok?
    ensures d.Ok? ==> d == Sequential(outcomes)
    ensures d.Err? ==> FromFirstBadChunk(Chunks(outcomes, Width(concurrency)), d.error)
  {
    SequentialMeaning(outcomes);
    match s
    case OneByOne(serial) =>
      var calls :| SerialRun(outcomes, calls) == Some(serial);
      SerialRunKeeps(outcomes, calls);
      SerialAgrees(outcomes, serial);
      if d.Err? {
        SequentialChunk(outcomes, |serial.out|);
      }
    case AllAtOnce(par) => UnchunkedAgrees(outcomes, concurrency, par, d);
    case InChunks(chunked) => ChunkedAgrees(outcomes, concurrency, chunked, d);
  }

  lemma UnchunkedAgrees<T>(outcomes: seq<Result<T>>, concurrency: nat, par: Par<T>, d: Result<seq<T>>)
    requires Reaches(outcomes, concurrency, AllAtOnce(par)) && d in par.delivered
    ensures d.Ok? ==> AllOk(outcomes) && d.value == Values(outcomes)
    ensures d.Err? ==> !AllOk(outcomes) && FromFirstBadChunk(Chunks(outcomes, concurrency), d.error)
  {
    var steps :| Run(outcomes, steps) == Some(par);
    ParallelDelivery(outcomes, steps);
    if d.Err? {
      var i :| 0 <= i < |outcomes| && outcomes[i] == Err(d.error);
      assert Chunks(outcomes, concurrency) == [outcomes];
      assert Chunks(outcomes, concurrency)[0][i] == Err(d.error);
    }
  }

  lemma SequentialChunk<T>(outcomes: seq<Result<T>>, f: nat)
    requires f < |outcomes| && AllOk(outcomes[..f]) && outcomes[f].Err?
    ensures FromFirstBadChunk(Chunks(outcomes, 1), outcomes[f].error)
  {
    var chunks := Chunks(outcomes, 1);
    Singletons(outcomes, f);
    forall h | 0 <= h < f ensures AllOk(chunks[h]) {
      Singletons(outcomes, h);
      assert outcomes[h] == outcomes[..f][h];
    }
    assert chunks[f][0] == Err(outcomes[f].error);
  }

  lemma BadChunkBad<T>(outcomes: seq<Result<T>>, chunks: seq<seq<Result<T>>>, error: Error)
    requires Flatten(chunks) == outcomes && FromFirstBadChunk(chunks, error)
    ensures !AllOk(outcomes)
  {
    var j: nat, i: nat :| j < |chunks| && (forall h :: 0 <= h < j ==> AllOk(chunks[h]))
                          && i < |chunks[j]| && chunks[j][i] == Err(error);
    InFlatten(chunks, j, i);
    NotAllOk(outcomes, error);
  }

  lemma ChunkedReaches<T>(outcomes: seq<Result<T>>, concurrency: nat, s: Chunked<T>)
    requires Reaches(outcomes, concurrency, InChunks(s))
    ensures ChunkInv(Chunks(outcomes, concurrency), s) && Flatten(Chunks(outcomes, concurrency)) == outcomes
    ensures forall h :: 0 <= h < |s.pars| ==> |s.pars[h].pc| <= concurrency
  {
    var chunks := Chunks(outcomes, concurrency);
    var steps :| ChunkRun(chunks, steps) == Some(s);
    ChunksMeaning(outcomes, concurrency);
    ChunkRunKeeps(chunks, steps);
  }

  lemma ChunkedAgrees<T>(outcomes: seq<Result<T>>, concurrency: nat, s: Chunked<T>, d: Result<seq<T>>)
    requires Reaches(outcomes, concurrency, InChunks(s)) && d in s.delivered
    ensures d.Ok? ==> AllOk(outcomes) && d.value == Values(outcomes)
    ensures d.Err? ==> !AllOk(outcomes) && FromFirstBadChunk(Chunks(outcomes, concurrency), d.error)
  {
    var chunks := Chunks(outcomes, concurrency);
    ChunkedReaches(outcomes, concurrency, s);
    if |s.out| == |chunks| {
      FlattenOk(chunks, s.out);
    } else {
      BadChunkBad(outcomes, chunks, d.error);
    }
  }

  /** For every bound: at most one delivery, and one when all is over. */
  lemma BoundedOnce<T>(outcomes: seq<Result<T>>, concurrency: nat, s: Bounded<T>)
    requires Reaches(outcomes, concurrency, s)
    ensures |Delivered(s)| <= 1 && (Finished(s) ==> |Delivered(s)| == 1)
  {
    match s
    case OneByOne(serial) =>
      var calls :| SerialRun(outcomes, calls) == Some(serial);
      SerialRunKeeps(outcomes, calls);
    case AllAtOnce(par) =>
      var steps :| Run(outcomes, steps) == Some(par);
      ParallelDelivery(outcomes, steps);
    case InChunks(chunked) =>
      ChunkedReaches(outcomes, concurrency, chunked);
      if |chunked.out| < |chunked.pars| {
        DeliveryMeaning(Chunks(outcomes, concurrency)[|chunked.out|], chunked.pars[|chunked.out|]);
      }
  }

  // --------------------------------------------------------- in flight

  lemma {:induction false} PairsBounded(s: set<(nat, nat)>, h: nat, n: nat)
    requires forall p :: p in s ==> p.0 == h && p.1 < n
    ensures |s| <= n
  {
    if n > 0 {
      PairsBounded(s - {(h, n - 1)}, h, n - 1);
    } else {
      assert s == {};
    }
  }

  /** Of all chunks ever started only the last has anything in flight. */
  lemma {:induction false} OnlyLastBusy<T>(pars: seq<Par<T>>)
    requires pars != [] && forall h :: 0 <= h < |pars| - 1 ==> AllOver(pars[h])
    ensures AllBusy(pars) == Busy(pars[|pars| - 1], |pars| - 1)
  {
    var k := |pars| - 1;
    if k > 0 {
      OnlyLastBusy(pars[..k]);
      assert Busy(pars[..k][k - 1], k - 1) == {};
    }
  }

  /** Never more in flight than the bound, or one for a bound of zero, in any
      state of any run, counting the items of every chunk. */
  lemma BoundedInFlight<T>(outcomes: seq<Result<T>>, concurrency: nat, s: Bounded<T>)
    requires Reaches(outcomes, concurrency, s)
    ensures |InFlight(s)| <= Width(concurrency)
  {
    match s
    case OneByOne(serial) =>
      var calls :| SerialRun(outcomes, calls) == Some(serial);
      SerialRunKeeps(outcomes, calls);
      assert InFlight(s) <= {(0, |serial.out|)};
      SubsetSize(InFlight(s), {(0, |serial.out|)});
    case AllAtOnce(par) =>
      var steps :| Run(outcomes, steps) == Some(par);
      RunKeeps(outcomes, steps);
      PairsBounded(InFlight(s), 0, concurrency);
    case InChunks(chunked) =>
      ChunkedReaches(outcomes, concurrency, chunked);
      var k := |chunked.pars| - 1;
      forall h | 0 <= h < k ensures AllOver(chunked.pars[h]) {
        EarlierOver(Chunks(outcomes, concurrency), chunked, h);
      }
      OnlyLastBusy(chunked.pars);
      PairsBounded(InFlight(s), k, concurrency);
  }

  lemma {:induction false} SubsetSize(a: set<(nat, nat)>, b: set<(nat, nat)>)
    requires a <= b
    ensures |a| <= |b|
    decreases a
  {
    if a != {} {
      var p :| p in a;
      SubsetSize(a - {p}, b - {p});
    }
  }
}
