/** The completion protocol of the unbounded `collect_io_parallel`: n callbacks
    race over an atomic counter, an atomic flag and a vector of slots. Every
    atomic access is one step of one callback, and the steps of different
    callbacks interleave freely. `outcomes[i]` is what item i calls back with. */
module CollectParallel {
  import opened Common

  /** Where a callback stands. `Over(true)` has counted itself down. */
  datatype Pc =
    | Pending
    | Entered
    | Raising(error: Error)
    | Filled
    | Last
    | Completing
    | Over(counted: bool)

  datatype Par<T> = Par(
    started: nat,
    pc: seq<Pc>,
    slots: seq<Option<T>>,
    remaining: int,
    done: bool,
    delivered: seq<Result<seq<T>>>,
    threw: bool)

  /** An empty list is delivered at once; nothing is left to race for. */
  function Begin<T>(n: nat): Par<T> {
    Par(0, seq(n, _ => Pending), seq(n, _ => None), n, n == 0, if n == 0 then [Ok([])] else [], false)
  }

  datatype Step = Start | Callback(i: nat)

  /** Items are started in order; a started item calls back once, at any time. */
  predicate Enabled<T>(s: Par<T>, step: Step) {
    match step
    case Start => s.started < |s.pc|
    case Callback(i) => i < s.started && i < |s.pc| && !s.pc[i].Over?
  }

  function At<T>(s: Par<T>, i: nat, pc: Pc): Par<T>
    requires i < |s.pc|
  {
    s.(pc := s.pc[i := pc])
  }

  predicate AllFilled<T>(slots: seq<Option<T>>) {
    forall i :: 0 <= i < |slots| ==> slots[i].Some?
  }

  function SlotValues<T>(slots: seq<Option<T>>): seq<T>
    requires AllFilled(slots)
  {
    seq(|slots|, i requires 0 <= i < |slots| => slots[i].value)
  }

  /** The next atomic step of callback `i`. Reading an empty slot throws. */
  function CallbackStep<T>(outcomes: seq<Result<T>>, s: Par<T>, i: nat): Par<T>
    requires i < |outcomes| == |s.pc| == |s.slots|
  {
    match s.pc[i]
    case Pending =>
      At(s, i, if s.done then Over(false) else Entered)
    case Entered =>
      (match outcomes[i]
       case Err(e) => if s.done then At(s, i, Over(false)) else At(s, i, Raising(e)).(done := true)
       case Ok(v) => At(s, i, Filled).(slots := s.slots[i := Some(v)]))
    case Raising(e) =>
      At(s, i, Over(false)).(delivered := s.delivered + [Err(e)])
    case Filled =>
      At(s, i, if s.remaining == 1 then Last else Over(true)).(remaining := s.remaining - 1)
    case Last =>
      if s.done then At(s, i, Over(true)) else At(s, i, Completing).(done := true)
    case Completing =>
      if AllFilled(s.slots) then At(s, i, Over(true)).(delivered := s.delivered + [Ok(SlotValues(s.slots))])
      else At(s, i, Over(true)).(threw := true)
    case Over(_) => s
  }

  predicate Sized<T>(outcomes: seq<Result<T>>, s: Par<T>) {
    |s.pc| == |s.slots| == |outcomes|
  }

  function Apply<T>(outcomes: seq<Result<T>>, s: Par<T>, step: Step): Par<T>
    requires Sized(outcomes, s) && Enabled(s, step)
  {
    match step
    case Start => s.(started := s.started + 1)
    case Callback(i) => CallbackStep(outcomes, s, i)
  }

  // --------------------------------------------------------- the invariant

  predicate Counted(pc: Pc) {
    pc == Last || pc == Completing || pc == Over(true)
  }

  predicate Winner(pc: Pc) {
    pc.Raising? || pc == Completing
  }

  function Uncounted(pc: seq<Pc>): set<nat> {
    set i: nat | i < |pc| && !Counted(pc[i])
  }

  /** The counter counts exactly the callbacks that have not counted down; a
      filled slot holds its own item's value; the flag is up exactly when one
      winner is about to deliver or has; nobody is lost while it is down. */
  ghost predicate Inv<T>(outcomes: seq<Result<T>>, s: Par<T>) {
    Slotted(outcomes, s) && Raced(outcomes, s)
  }

  ghost predicate Slotted<T>(outcomes: seq<Result<T>>, s: Par<T>) {
    && Sized(outcomes, s) && s.started <= |s.pc| && !s.threw
    && s.remaining == |Uncounted(s.pc)|
    && (forall i :: s.started <= i < |s.pc| ==> s.pc[i] == Pending)
    && (forall i :: 0 <= i < |s.pc| ==> (s.slots[i].Some? <==> s.pc[i] == Filled || Counted(s.pc[i])))
    && (forall i :: 0 <= i < |s.pc| && s.slots[i].Some? ==> outcomes[i] == Ok(s.slots[i].value))
    && (forall i :: 0 <= i < |s.pc| && s.pc[i].Raising? ==> outcomes[i] == Err(s.pc[i].error))
  }

  ghost predicate Raced<T>(outcomes: seq<Result<T>>, s: Par<T>) {
    && (forall i :: 0 <= i < |s.pc| && s.pc[i] in {Last, Completing} ==> s.remaining == 0)
    && (forall i, j :: 0 <= i < j < |s.pc| ==> !(s.pc[i] in {Last, Completing} && s.pc[j] in {Last, Completing}))
    && |s.delivered| <= 1
    && (s.delivered == [] && s.done ==> exists i :: 0 <= i < |s.pc| && Winner(s.pc[i]))
    && (forall i :: 0 <= i < |s.pc| && Winner(s.pc[i]) ==> s.done && s.delivered == [])
    && (forall i, j :: 0 <= i < j < |s.pc| ==> !(Winner(s.pc[i]) && Winner(s.pc[j])))
    && (s.delivered != [] ==> s.done && Explained(outcomes, s.delivered[0]) && (s.delivered[0].Ok? ==> s.remaining == 0))
    && (s.delivered != [] && s.delivered[0].Ok? ==> forall i :: 0 <= i < |s.pc| ==> s.pc[i] !in {Last, Completing})
    && (!s.done ==> |outcomes| > 0 && forall i :: 0 <= i < |s.pc| ==> s.pc[i] != Over(false))
    && (!s.done && s.remaining == 0 ==> exists i :: 0 <= i < |s.pc| && s.pc[i] == Last)
  }

  /** What a delivery may be: all the values in order, or some item's error. */
  ghost predicate Explained<T>(outcomes: seq<Result<T>>, d: Result<seq<T>>) {
    match d
    case Ok(vs) => |vs| == |outcomes| && forall i :: 0 <= i < |vs| ==> outcomes[i] == Ok(vs[i])
    case Err(e) => exists i :: 0 <= i < |outcomes| && outcomes[i] == Err(e)
  }

  lemma UncountedStays(a: seq<Pc>, i: nat, pc: Pc)
    requires i < |a| && Counted(pc) == Counted(a[i])
    ensures Uncounted(a[i := pc]) == Uncounted(a)
  {
  }

  lemma UncountedFalls(a: seq<Pc>, i: nat, pc: Pc)
    requires i < |a| && Counted(pc) && !Counted(a[i])
    ensures Uncounted(a[i := pc]) == Uncounted(a) - {i}
    ensures |Uncounted(a[i := pc])| == |Uncounted(a)| - 1
  {
    assert Uncounted(a[i := pc]) == Uncounted(a) - {i};
  }

  lemma NoneUncounted(pc: seq<Pc>)
    requires |Uncounted(pc)| == 0
    ensures forall i :: 0 <= i < |pc| ==> Counted(pc[i])
  {
    forall i: nat | i < |pc| ensures Counted(pc[i]) {
      assert i !in Uncounted(pc);
    }
  }

  lemma AllCounted(pc: seq<Pc>)
    ensures (forall i :: 0 <= i < |pc| ==> Counted(pc[i])) ==> |Uncounted(pc)| == 0
  {
    assert (forall i :: 0 <= i < |pc| ==> Counted(pc[i])) ==> Uncounted(pc) == {};
  }

  lemma {:induction false} AllUncounted(pc: seq<Pc>)
    requires forall i :: 0 <= i < |pc| ==> pc[i] == Pending
    ensures |Uncounted(pc)| == |pc|
  {
    if pc != [] {
      var n := |pc| - 1;
      AllUncounted(pc[..n]);
      assert Uncounted(pc) == Uncounted(pc[..n]) + {n};
    }
  }

  lemma BeginInv<T>(outcomes: seq<Result<T>>)
    ensures Inv(outcomes, Begin<T>(|outcomes|))
  {
    AllUncounted(Begin<T>(|outcomes|).pc);
  }

  // ------------------------------------------------ one lemma per atomic step

  /** A step of a callback that is neither a winner nor the last one. */
  lemma WitnessesStay<T>(s: Par<T>, s': Par<T>, i: nat)
    requires i < |s.pc| == |s'.pc| && s'.pc == s.pc[i := s'.pc[i]]
    requires !Winner(s.pc[i]) && s.pc[i] != Last
    ensures (exists j :: 0 <= j < |s.pc| && Winner(s.pc[j])) ==> exists j :: 0 <= j < |s'.pc| && Winner(s'.pc[j])
    ensures (exists j :: 0 <= j < |s.pc| && s.pc[j] == Last) ==> exists j :: 0 <= j < |s'.pc| && s'.pc[j] == Last
  {
    if j :| 0 <= j < |s.pc| && Winner(s.pc[j]) {
      assert Winner(s'.pc[j]);
    }
    if j :| 0 <= j < |s.pc| && s.pc[j] == Last {
      assert s'.pc[j] == Last;
    }
  }

  /** Such a step, if it raises no flag and is not the last to count down. */
  lemma QuietStep<T>(outcomes: seq<Result<T>>, s: Par<T>, s': Par<T>, i: nat)
    requires Raced(outcomes, s) && i < |s.pc| == |s'.pc| && s'.pc == s.pc[i := s'.pc[i]]
    requires !Winner(s.pc[i]) && s.pc[i] != Last
    requires s'.pc[i] in {Entered, Filled, Over(true)} || (s.done && s'.pc[i] == Over(false))
    requires s'.done == s.done && s'.delivered == s.delivered
    requires s'.remaining == s.remaining || s'.remaining == s.remaining - 1 > 0
    ensures Raced(outcomes, s')
  {
    WitnessesStay(s, s', i);
  }

  lemma LoadKeeps<T>(outcomes: seq<Result<T>>, s: Par<T>, i: nat)
    requires Inv(outcomes, s) && i < s.started && s.pc[i] == Pending
    ensures Inv(outcomes, CallbackStep(outcomes, s, i))
  {
    UncountedStays(s.pc, i, if s.done then Over(false) else Entered);
    QuietStep(outcomes, s, CallbackStep(outcomes, s, i), i);
  }

  lemma ErrorKeeps<T>(outcomes: seq<Result<T>>, s: Par<T>, i: nat)
    requires Inv(outcomes, s) && i < s.started && s.pc[i] == Entered && outcomes[i].Err?
    ensures Inv(outcomes, CallbackStep(outcomes, s, i))
  {
    var s' := CallbackStep(outcomes, s, i);
    UncountedStays(s.pc, i, s'.pc[i]);
    if s.done {
      QuietStep(outcomes, s, s', i);
    } else {
      WitnessesStay(s, s', i);
      assert Winner(s'.pc[i]);
    }
  }

  lemma FillKeeps<T>(outcomes: seq<Result<T>>, s: Par<T>, i: nat)
    requires Inv(outcomes, s) && i < s.started && s.pc[i] == Entered && outcomes[i].Ok?
    ensures Inv(outcomes, CallbackStep(outcomes, s, i))
  {
    UncountedStays(s.pc, i, Filled);
    QuietStep(outcomes, s, CallbackStep(outcomes, s, i), i);
  }

  lemma CountKeeps<T>(outcomes: seq<Result<T>>, s: Par<T>, i: nat)
    requires Inv(outcomes, s) && i < s.started && s.pc[i] == Filled && s.remaining != 1
    ensures Inv(outcomes, CallbackStep(outcomes, s, i))
  {
    UncountedFalls(s.pc, i, Over(true));
    assert s.remaining >= 2 by {
      assert i in Uncounted(s.pc);
    }
    QuietStep(outcomes, s, CallbackStep(outcomes, s, i), i);
  }

  lemma CountLastKeeps<T>(outcomes: seq<Result<T>>, s: Par<T>, i: nat)
    requires Inv(outcomes, s) && i < s.started && s.pc[i] == Filled && s.remaining == 1
    ensures Inv(outcomes, CallbackStep(outcomes, s, i))
  {
    var s' := CallbackStep(outcomes, s, i);
    UncountedFalls(s.pc, i, Last);
    WitnessesStay(s, s', i);
    assert s'.pc[i] == Last;
  }

  lemma LastKeeps<T>(outcomes: seq<Result<T>>, s: Par<T>, i: nat)
    requires Inv(outcomes, s) && i < s.started && s.pc[i] == Last
    ensures Inv(outcomes, CallbackStep(outcomes, s, i))
  {
    var s' := CallbackStep(outcomes, s, i);
    UncountedStays(s.pc, i, s'.pc[i]);
    if s.done {
      if j :| 0 <= j < |s.pc| && Winner(s.pc[j]) {
        assert Winner(s'.pc[j]);
      }
    } else {
      assert Winner(s'.pc[i]);
    }
  }

  lemma RaiseKeeps<T>(outcomes: seq<Result<T>>, s: Par<T>, i: nat)
    requires Inv(outcomes, s) && i < s.started && s.pc[i].Raising?
    ensures Inv(outcomes, CallbackStep(outcomes, s, i))
  {
    UncountedStays(s.pc, i, Over(false));
  }

  lemma CompleteKeeps<T>(outcomes: seq<Result<T>>, s: Par<T>, i: nat)
    requires Inv(outcomes, s) && i < s.started && s.pc[i] == Completing
    ensures AllFilled(s.slots) && Inv(outcomes, CallbackStep(outcomes, s, i))
  {
    UncountedStays(s.pc, i, Over(true));
    NoneUncounted(s.pc);
  }

  lemma StepKeeps<T>(outcomes: seq<Result<T>>, s: Par<T>, step: Step)
    requires Inv(outcomes, s) && Enabled(s, step)
    ensures Inv(outcomes, Apply(outcomes, s, step))
  {
    match step
    case Start =>
    case Callback(i) =>
      match s.pc[i]
      case Pending => LoadKeeps(outcomes, s, i);
      case Entered => if outcomes[i].Err? { ErrorKeeps(outcomes, s, i); } else { FillKeeps(outcomes, s, i); }
      case Raising(_) => RaiseKeeps(outcomes, s, i);
      case Filled => if s.remaining == 1 { CountLastKeeps(outcomes, s, i); } else { CountKeeps(outcomes, s, i); }
      case Last => LastKeeps(outcomes, s, i);
      case Completing => CompleteKeeps(outcomes, s, i);
  }

  // ------------------------------------------------------------- all runs

  /** The state after a schedule, or None if the schedule takes a step that is
      not enabled. */
  function Run<T>(outcomes: seq<Result<T>>, steps: seq<Step>): Option<Par<T>>
    decreases |steps|
  {
    if steps == [] then Some(Begin(|outcomes|))
    else
      match Run(outcomes, steps[..|steps| - 1])
      case None => None
      case Some(s) =>
        var last := steps[|steps| - 1];
        if Sized(outcomes, s) && Enabled(s, last) then Some(Apply(outcomes, s, last)) else None
  }

  lemma {:induction false} RunKeeps<T>(outcomes: seq<Result<T>>, steps: seq<Step>)
    requires Run(outcomes, steps).Some?
    ensures Inv(outcomes, Run(outcomes, steps).value)
    decreases |steps|
  {
    if steps == [] {
      BeginInv(outcomes);
    } else {
      RunKeeps(outcomes, steps[..|steps| - 1]);
      StepKeeps(outcomes, Run(outcomes, steps[..|steps| - 1]).value, steps[|steps| - 1]);
    }
  }

  predicate AllOver<T>(s: Par<T>) {
    forall i :: 0 <= i < |s.pc| ==> s.pc[i].Over?
  }

  predicate AllOk<T>(outcomes: seq<Result<T>>) {
    forall i :: 0 <= i < |outcomes| ==> outcomes[i].Ok?
  }

  function Values<T>(outcomes: seq<Result<T>>): seq<T>
    requires AllOk(outcomes)
  {
    seq(|outcomes|, i requires 0 <= i < |outcomes| => outcomes[i].value)
  }

  /** In every interleaving: at most one delivery, never a read of an empty
      slot, exactly one delivery once all callbacks are over. A success is
      delivered only if every item succeeded, with all values in item order; an
      error is the error of some failed item. */
  lemma ParallelDelivery<T>(outcomes: seq<Result<T>>, steps: seq<Step>)
    requires Run(outcomes, steps).Some?
    ensures var s := Run(outcomes, steps).value;
            && |s.delivered| <= 1 && !s.threw
            && (AllOver(s) ==> |s.delivered| == 1)
            && (s.delivered != [] ==>
                  match s.delivered[0]
                  case Ok(vs) => AllOk(outcomes) && vs == Values(outcomes)
                  case Err(e) => exists i :: 0 <= i < |outcomes| && outcomes[i] == Err(e))
  {
    RunKeeps(outcomes, steps);
    DeliveryMeaning(outcomes, Run(outcomes, steps).value);
  }

  lemma DeliveryMeaning<T>(outcomes: seq<Result<T>>, s: Par<T>)
    requires Inv(outcomes, s)
    ensures AllOver(s) ==> s.delivered != []
    ensures s.delivered != [] && s.delivered[0].Ok? ==> AllOk(outcomes) && s.delivered[0].value == Values(outcomes)
  {
    AllCounted(s.pc);
  }

  /** A success has been delivered only when every callback is over: nothing
      of the run is still outstanding. */
  lemma NothingAfterSuccess<T>(outcomes: seq<Result<T>>, s: Par<T>)
    requires Inv(outcomes, s) && s.delivered != [] && s.delivered[0].Ok?
    ensures AllOver(s)
  {
    NoneUncounted(s.pc);
  }
}
