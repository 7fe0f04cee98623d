/** Every run of the collecting protocols comes to an end, in a bounded number of
    steps, with exactly one delivery. */
module CollectProgress {
  import opened Common
  import opened Pieces
  import opened CollectParallel
  import opened CollectBounded
  import opened BoundedRuns
  import Res = CollectResults

  // ------------------------------------------------------- the parallel run

  /** The atomic steps a callback can still take. */
  function Left(pc: Pc): nat {
    match pc
    case Pending => 5
    case Entered => 4
    case Filled => 3
    case Last => 2
    case Completing => 1
    case Raising(_) => 1
    case Over(_) => 0
  }

  function LeftAll(pc: seq<Pc>): nat {
    if pc == [] then 0 else LeftAll(pc[..|pc| - 1]) + Left(pc[|pc| - 1])
  }

  function Measure<T>(s: Par<T>): int {
    |s.pc| - s.started + LeftAll(s.pc)
  }

  lemma {:induction false} LeftUpdate(pc: seq<Pc>, i: nat, p: Pc)
    requires i < |pc|
    ensures LeftAll(pc[i := p]) == LeftAll(pc) - Left(pc[i]) + Left(p)
  {
    var k := |pc| - 1;
    if i == k {
      assert pc[i := p][..k] == pc[..k];
    } else {
      LeftUpdate(pc[..k], i, p);
      assert pc[i := p][..k] == pc[..k][i := p];
    }
  }

  lemma {:induction false} LeftPending(n: nat, pc: seq<Pc>)
    requires |pc| == n && forall i :: 0 <= i < n ==> pc[i] == Pending
    ensures LeftAll(pc) == 5 * n
  {
    if n > 0 {
      LeftPending(n - 1, pc[..n - 1]);
    }
  }

  lemma CallbackFalls<T>(outcomes: seq<Result<T>>, s: Par<T>, i: nat)
    requires Sized(outcomes, s) && i < |s.pc| && !s.pc[i].Over?
    ensures var s' := CallbackStep(outcomes, s, i);
            s'.started == s.started && |s'.pc| == |s.pc| && s'.pc == s.pc[i := s'.pc[i]] && Left(s'.pc[i]) < Left(s.pc[i])
  {
  }

  /** Each step uses up at least one. */
  lemma StepFalls<T>(outcomes: seq<Result<T>>, s: Par<T>, step: Step)
    requires Sized(outcomes, s) && Enabled(s, step)
    ensures Measure(Apply(outcomes, s, step)) < Measure(s)
  {
    match step
    case Start =>
    case Callback(i) =>
      CallbackFalls(outcomes, s, i);
      LeftUpdate(s.pc, i, CallbackStep(outcomes, s, i).pc[i]);
  }

  lemma {:induction false} RunEnds<T>(outcomes: seq<Result<T>>, steps: seq<Step>)
    requires Run(outcomes, steps).Some?
    ensures |steps| + Measure(Run(outcomes, steps).value) <= 6 * |outcomes|
    decreases |steps|
  {
    if steps == [] {
      LeftPending(|outcomes|, Begin<T>(|outcomes|).pc);
    } else {
      var init := steps[..|steps| - 1];
      RunEnds(outcomes, init);
      StepFalls(outcomes, Run(outcomes, init).value, steps[|steps| - 1]);
    }
  }

  ghost predicate Stuck<T>(s: Par<T>) {
    forall step :: !Enabled(s, step)
  }

  lemma StuckOver<T>(outcomes: seq<Result<T>>, s: Par<T>)
    requires CollectParallel.Inv(outcomes, s) && Stuck(s)
    ensures AllOver(s)
  {
    assert !Enabled(s, Start);
    forall i: nat | i < |s.pc| ensures s.pc[i].Over? {
      assert !Enabled(s, Callback(i));
    }
  }

  /** No run is longer than six steps an item, and one that can go no further
      has delivered exactly once: the values if all items succeeded, and
      otherwise the error of one that failed. */
  lemma ParallelEnds<T>(outcomes: seq<Result<T>>, steps: seq<Step>)
    requires Run(outcomes, steps).Some?
    ensures |steps| <= 6 * |outcomes|
    ensures Stuck(Run(outcomes, steps).value) ==>
              var s := Run(outcomes, steps).value;
              && AllOver(s) && |s.delivered| == 1
              && if AllOk(outcomes) then s.delivered == [Ok(Values(outcomes))]
                 else s.delivered[0].Err? && Err(s.delivered[0].error) in outcomes
  {
    RunEnds(outcomes, steps);
    RunKeeps(outcomes, steps);
    LeftNatural(Run(outcomes, steps).value);
    var s := Run(outcomes, steps).value;
    if Stuck(s) {
      StuckOver(outcomes, s);
      ParallelDelivery(outcomes, steps);
    }
  }

  lemma LeftNatural<T>(s: Par<T>)
    requires s.started <= |s.pc|
    ensures Measure(s) >= 0
  {
  }

  // ------------------------------------------------------------- who delivers

  /** An error that was delivered is that of a callback that entered, raised the
      flag and is over without having counted down. */
  ghost predicate ErrorFrom<T>(outcomes: seq<Result<T>>, s: Par<T>) {
    s.delivered != [] && s.delivered[0].Err? ==>
      exists i :: 0 <= i < s.started && i < |s.pc| == |outcomes| && s.pc[i] == Over(false) && outcomes[i] == Err(s.delivered[0].error)
  }

  lemma ErrorKept<T>(outcomes: seq<Result<T>>, s: Par<T>, step: Step)
    requires CollectParallel.Inv(outcomes, s) && ErrorFrom(outcomes, s) && Enabled(s, step)
    ensures ErrorFrom(outcomes, Apply(outcomes, s, step))
  {
    var s' := Apply(outcomes, s, step);
    if s.delivered != [] && s.delivered[0].Err? {
      var i :| 0 <= i < s.started && i < |s.pc| && s.pc[i] == Over(false) && outcomes[i] == Err(s.delivered[0].error);
      DeliveryOnce(outcomes, s, step);
      assert s'.pc[i] == Over(false);
    } else if step.Callback? && s.pc[step.i].Raising? {
      assert s'.pc[step.i] == Over(false);
    }
  }

  lemma {:induction false} DeliveredBy<T>(outcomes: seq<Result<T>>, steps: seq<Step>)
    requires Run(outcomes, steps).Some?
    ensures ErrorFrom(outcomes, Run(outcomes, steps).value)
    decreases |steps|
  {
    if steps != [] {
      var init := steps[..|steps| - 1];
      DeliveredBy(outcomes, init);
      RunKeeps(outcomes, init);
      ErrorKept(outcomes, Run(outcomes, init).value, steps[|steps| - 1]);
    }
  }

  /** Once the flag is up, a callback that comes late is over at once: it stores
      nothing, counts nothing and delivers nothing. */
  lemma LateIsSilent<T>(outcomes: seq<Result<T>>, s: Par<T>, i: nat)
    requires Sized(outcomes, s) && i < |s.pc| && s.pc[i] == Pending && s.done
    ensures CallbackStep(outcomes, s, i) == s.(pc := s.pc[i := Over(false)])
  {
  }

  /** All items can be in flight at once. */
  lemma {:induction false} AllInFlight<T>(outcomes: seq<Result<T>>, n: nat)
    requires n <= |outcomes|
    ensures Run(outcomes, seq(n, _ => Start)) == Some(Begin<T>(|outcomes|).(started := n))
  {
    var steps := seq(n, _ => Start);
    if n > 0 {
      AllInFlight(outcomes, n - 1);
      assert steps[..n - 1] == seq(n - 1, _ => Start);
    }
  }

  // ---------------------------------------------------------- all the results

  function ResLeft(pc: Res.Pc): nat {
    match pc
    case Waiting => 3
    case Stored => 2
    case Finishing => 1
    case Finished => 0
  }

  function ResLeftAll(pc: seq<Res.Pc>): nat {
    if pc == [] then 0 else ResLeftAll(pc[..|pc| - 1]) + ResLeft(pc[|pc| - 1])
  }

  lemma {:induction false} ResUpdate(pc: seq<Res.Pc>, i: nat, p: Res.Pc)
    requires i < |pc|
    ensures ResLeftAll(pc[i := p]) == ResLeftAll(pc) - ResLeft(pc[i]) + ResLeft(p)
  {
    var k := |pc| - 1;
    if i == k {
      assert pc[i := p][..k] == pc[..k];
    } else {
      ResUpdate(pc[..k], i, p);
      assert pc[i := p][..k] == pc[..k][i := p];
    }
  }

  lemma {:induction false} ResWaiting(n: nat, pc: seq<Res.Pc>)
    requires |pc| == n && forall i :: 0 <= i < n ==> pc[i] == Res.Waiting
    ensures ResLeftAll(pc) == 3 * n
  {
    if n > 0 {
      ResWaiting(n - 1, pc[..n - 1]);
    }
  }

  lemma {:induction false} ResRunEnds<T>(outcomes: seq<Result<T>>, steps: seq<Step>)
    requires Res.Run(outcomes, steps).Some?
    ensures var s := Res.Run(outcomes, steps).value;
            |steps| + (|s.pc| - s.started) + ResLeftAll(s.pc) <= 4 * |outcomes|
    decreases |steps|
  {
    if steps == [] {
      ResWaiting(|outcomes|, Res.Begin<T>(|outcomes|).pc);
    } else {
      var init, last := steps[..|steps| - 1], steps[|steps| - 1];
      ResRunEnds(outcomes, init);
      var s := Res.Run(outcomes, init).value;
      match last
      case Start =>
      case Callback(i) => ResUpdate(s.pc, i, Res.CallbackStep(outcomes, s, i).pc[i]);
    }
  }

  /** No run is longer than four steps an item, and one that can go no further
      has delivered every item's result. */
  lemma ResultsEnd<T>(outcomes: seq<Result<T>>, steps: seq<Step>)
    requires Res.Run(outcomes, steps).Some?
    ensures |steps| <= 4 * |outcomes|
    ensures (forall step :: !Res.Enabled(Res.Run(outcomes, steps).value, step)) ==>
              Res.Run(outcomes, steps).value.delivered == [Ok(outcomes)]
  {
    ResRunEnds(outcomes, steps);
    Res.RunSimulated(outcomes, steps);
    Res.ResultsDelivery(outcomes, steps);
    var s := Res.Run(outcomes, steps).value;
    if forall step :: !Res.Enabled(s, step) {
      assert !Res.Enabled(s, Start);
      forall i: nat | i < |s.pc| ensures s.pc[i] == Res.Finished {
        assert !Res.Enabled(s, Callback(i));
      }
    }
  }

  // -------------------------------------------------------------- one by one

  /** `collect_io` takes at most one call back an item, and when nothing runs it
      has delivered the sequential outcome. */
  lemma SerialEnds<T>(outcomes: seq<Result<T>>, calls: seq<nat>)
    requires SerialRun(outcomes, calls).Some?
    ensures |calls| <= |outcomes|
    ensures var s := SerialRun(outcomes, calls).value;
            (forall i :: 0 <= i < |s.turns| ==> s.turns[i] != Running) ==> s.delivered == [Sequential(outcomes)]
  {
    SerialRunKeeps(outcomes, calls);
    SerialCalls(outcomes, calls);
    var s := SerialRun(outcomes, calls).value;
    if s.delivered != [] {
      SerialAgrees(outcomes, s);
    }
  }

  lemma {:induction false} SerialCalls<T>(outcomes: seq<Result<T>>, calls: seq<nat>)
    requires SerialRun(outcomes, calls).Some?
    ensures var s := SerialRun(outcomes, calls).value;
            |calls| == |s.out| + if s.delivered != [] && s.delivered[0].Err? then 1 else 0
    ensures SerialRun(outcomes, calls).value.delivered != [] ==> |calls| <= |outcomes|
    decreases |calls|
  {
    SerialRunKeeps(outcomes, calls);
    if calls != [] {
      var init := calls[..|calls| - 1];
      SerialCalls(outcomes, init);
      SerialRunKeeps(outcomes, init);
    }
  }

  // --------------------------------------------------------------- in chunks

  function Sizes<T>(chunks: seq<seq<Result<T>>>): nat {
    if chunks == [] then 0 else |chunks[0]| + Sizes(chunks[1..])
  }

  lemma {:induction false} SizesFlatten<T>(chunks: seq<seq<Result<T>>>)
    ensures Sizes(chunks) == |Flatten(chunks)|
  {
    if chunks != [] {
      SizesFlatten(chunks[1..]);
    }
  }

  function ParsLeft<T>(pars: seq<Par<T>>): int {
    if pars == [] then 0 else ParsLeft(pars[..|pars| - 1]) + Measure(pars[|pars| - 1])
  }

  lemma {:induction false} ParsUpdate<T>(pars: seq<Par<T>>, h: nat, p: Par<T>)
    requires h < |pars|
    ensures ParsLeft(pars[h := p]) == ParsLeft(pars) - Measure(pars[h]) + Measure(p)
  {
    var k := |pars| - 1;
    if h == k {
      assert pars[h := p][..k] == pars[..k];
    } else {
      ParsUpdate(pars[..k], h, p);
      assert pars[h := p][..k] == pars[..k][h := p];
    }
  }

  /** What is left of the chunks started, and six steps for every item of those
      not yet started. */
  function ChunkMeasure<T>(chunks: seq<seq<Result<T>>>, s: Chunked<T>): int
    requires |s.pars| <= |chunks|
  {
    ParsLeft(s.pars) + 6 * Sizes(chunks[|s.pars|..])
  }

  lemma MeasureBegin<T>(n: nat)
    ensures Measure(Begin<T>(n)) == 6 * n
  {
    LeftPending(n, Begin<T>(n).pc);
  }

  /** A step changes one run, and may start the next chunk. */
  lemma ApplyPars<T>(chunks: seq<seq<Result<T>>>, s: Chunked<T>, step: ChunkStep)
    requires ChunkInv(chunks, s) && ChunkEnabled(chunks, s, step) && step.h == |s.out| < |chunks|
    ensures var pars := s.pars[step.h := Apply(chunks[step.h], s.pars[step.h], step.step)];
            || ChunkApply(chunks, s, step).pars == pars
            || (|pars| < |chunks| && ChunkApply(chunks, s, step).pars == pars + [Begin(|chunks[|pars|]|)])
  {
  }

  lemma ChunkFalls<T>(chunks: seq<seq<Result<T>>>, s: Chunked<T>, step: ChunkStep)
    requires ChunkInv(chunks, s) && ChunkEnabled(chunks, s, step)
    ensures |ChunkApply(chunks, s, step).pars| <= |chunks|
    ensures ChunkMeasure(chunks, ChunkApply(chunks, s, step)) < ChunkMeasure(chunks, s)
  {
    OnlyCurrent(chunks, s, step);
    var cur := Apply(chunks[step.h], s.pars[step.h], step.step);
    StepFalls(chunks[step.h], s.pars[step.h], step.step);
    ParsUpdate(s.pars, step.h, cur);
    ApplyPars(chunks, s, step);
    var pars := s.pars[step.h := cur];
    if |pars| < |chunks| {
      NewChunk(chunks, pars);
    }
  }

  /** Starting a chunk moves its share of the measure. */
  lemma NewChunk<T>(chunks: seq<seq<Result<T>>>, pars: seq<Par<T>>)
    requires |pars| < |chunks|
    ensures var k := |pars|;
            ParsLeft(pars + [Begin(|chunks[k]|)]) + 6 * Sizes(chunks[k + 1..]) == ParsLeft(pars) + 6 * Sizes(chunks[k..])
  {
    var k := |pars|;
    var p := Begin<T>(|chunks[k]|);
    MeasureBegin<T>(|chunks[k]|);
    assert (pars + [p])[..k] == pars;
    assert chunks[k..][1..] == chunks[k + 1..];
  }

  lemma {:induction false} ChunkRunEnds<T>(chunks: seq<seq<Result<T>>>, steps: seq<ChunkStep>)
    requires chunks != [] && (forall c :: c in chunks ==> c != []) && ChunkRun(chunks, steps).Some?
    ensures ChunkInv(chunks, ChunkRun(chunks, steps).value)
    ensures |steps| + ChunkMeasure(chunks, ChunkRun(chunks, steps).value) <= 6 * Sizes(chunks)
    decreases |steps|
  {
    ChunkRunKeeps(chunks, steps);
    if steps == [] {
      NewChunk<T>(chunks, []);
      assert [] + BeginChunks(chunks).pars == BeginChunks(chunks).pars && chunks[0..] == chunks;
      assert ParsLeft<T>([]) == 0;
    } else {
      var init := steps[..|steps| - 1];
      ChunkRunEnds(chunks, init);
      ChunkFalls(chunks, ChunkRun(chunks, init).value, steps[|steps| - 1]);
    }
  }

  lemma {:induction false} ParsNatural<T>(chunks: seq<seq<Result<T>>>, pars: seq<Par<T>>)
    requires |pars| <= |chunks| && forall h :: 0 <= h < |pars| ==> CollectParallel.Inv(chunks[h], pars[h])
    ensures ParsLeft(pars) >= 0
  {
    if pars != [] {
      ParsNatural(chunks, pars[..|pars| - 1]);
      LeftNatural(pars[|pars| - 1]);
    }
  }

  /** No chunked run is longer than six steps an item, and one that can go no
      further has delivered exactly once. */
  lemma ChunkedEnds<T>(outcomes: seq<Result<T>>, concurrency: nat, steps: seq<ChunkStep>)
    requires 1 < concurrency < |outcomes| && ChunkRun(Chunks(outcomes, concurrency), steps).Some?
    ensures |steps| <= 6 * |outcomes|
    ensures var chunks := Chunks(outcomes, concurrency); var s := ChunkRun(chunks, steps).value;
            (forall step :: !ChunkEnabled(chunks, s, step)) ==> |s.delivered| == 1
  {
    var chunks := Chunks(outcomes, concurrency);
    ChunksMeaning(outcomes, concurrency);
    ChunkRunEnds(chunks, steps);
    SizesFlatten(chunks);
    var s := ChunkRun(chunks, steps).value;
    ParsNatural(chunks, s.pars);
    if forall step :: !ChunkEnabled(chunks, s, step) {
      ChunkStuck(outcomes, concurrency, s);
      assert Reaches(outcomes, concurrency, InChunks(s));
      BoundedOnce(outcomes, concurrency, InChunks(s));
    }
  }

  lemma ChunkStuck<T>(outcomes: seq<Result<T>>, concurrency: nat, s: Chunked<T>)
    requires concurrency > 0 && ChunkInv(Chunks(outcomes, concurrency), s)
    requires forall step :: !ChunkEnabled(Chunks(outcomes, concurrency), s, step)
    ensures Finished(InChunks(s))
  {
    var chunks := Chunks(outcomes, concurrency);
    forall h: nat | h < |s.pars| ensures AllOver(s.pars[h]) {
      forall step ensures !Enabled(s.pars[h], step) {
        assert !ChunkEnabled(chunks, s, ChunkStep(h, step));
      }
      StuckOver(chunks[h], s.pars[h]);
    }
  }
}
