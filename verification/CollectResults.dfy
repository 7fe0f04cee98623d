/** `collect_result_parallel`: the completion protocol without the done flag,
    where failures are stored like values. It is shown to be simulated by the
    flagged protocol of CollectParallel in which item i succeeds with the whole
    result of i. */
module CollectResults {
  import opened Common
  import Par = CollectParallel

  datatype Pc = Waiting | Stored | Finishing | Finished

  datatype Res<T> = Res(
    started: nat,
    pc: seq<Pc>,
    slots: seq<Option<Result<T>>>,
    remaining: int,
    delivered: seq<Result<seq<Result<T>>>>,
    threw: bool)

  function Begin<T>(n: nat): Res<T> {
    Res(0, seq(n, _ => Waiting), seq(n, _ => None), n, if n == 0 then [Ok([])] else [], false)
  }

  predicate Enabled<T>(s: Res<T>, step: Par.Step) {
    match step
    case Start => s.started < |s.pc|
    case Callback(i) => i < s.started && i < |s.pc| && s.pc[i] != Finished
  }

  predicate Sized<T>(outcomes: seq<Result<T>>, s: Res<T>) {
    |s.pc| == |s.slots| == |outcomes|
  }

  /** A callback stores its result, counts itself down, and the last delivers. */
  function CallbackStep<T>(outcomes: seq<Result<T>>, s: Res<T>, i: nat): Res<T>
    requires Sized(outcomes, s) && i < |outcomes|
  {
    match s.pc[i]
    case Waiting => s.(pc := s.pc[i := Stored], slots := s.slots[i := Some(outcomes[i])])
    case Stored =>
      s.(pc := s.pc[i := if s.remaining == 1 then Finishing else Finished], remaining := s.remaining - 1)
    case Finishing =>
      if Par.AllFilled(s.slots) then
        s.(pc := s.pc[i := Finished], delivered := s.delivered + [Ok(Par.SlotValues(s.slots))])
      else
        s.(pc := s.pc[i := Finished], threw := true)
    case Finished => s
  }

  function Apply<T>(outcomes: seq<Result<T>>, s: Res<T>, step: Par.Step): Res<T>
    requires Sized(outcomes, s) && Enabled(s, step)
  {
    match step
    case Start => s.(started := s.started + 1)
    case Callback(i) => CallbackStep(outcomes, s, i)
  }

  function Run<T>(outcomes: seq<Result<T>>, steps: seq<Par.Step>): Option<Res<T>>
    decreases |steps|
  {
    if steps == [] then Some(Begin(|outcomes|))
    else
      match Run(outcomes, steps[..|steps| - 1])
      case None => None
      case Some(s) =>
        var last := steps[|steps| - 1];
        if Sized(outcomes, s) && Enabled(s, last) then Some(Apply(outcomes, s, last)) else None
  }

  // ------------------------------------------------------------- simulation

  function Lifted<T>(outcomes: seq<Result<T>>): seq<Result<Result<T>>> {
    seq(|outcomes|, i requires 0 <= i < |outcomes| => Ok(outcomes[i]))
  }

  function AbsPc(pc: Pc): Par.Pc {
    match pc
    case Waiting => Par.Pending
    case Stored => Par.Filled
    case Finishing => Par.Last
    case Finished => Par.Over(true)
  }

  /** The flag is up from the moment of the delivery. */
  function Abs<T>(s: Res<T>): Par.Par<Result<T>> {
    Par.Par(s.started, seq(|s.pc|, i requires 0 <= i < |s.pc| => AbsPc(s.pc[i])), s.slots, s.remaining,
            s.delivered != [], s.delivered, s.threw)
  }

  ghost predicate Inv<T>(outcomes: seq<Result<T>>, s: Res<T>) {
    Par.Inv(Lifted(outcomes), Abs(s))
  }

  /** The flag is up only when all is over. */
  lemma DeliveredLast<T>(outcomes: seq<Result<T>>, s: Res<T>)
    requires Inv(outcomes, s) && s.delivered != []
    ensures s.delivered[0].Ok? && forall i :: 0 <= i < |s.pc| ==> s.pc[i] == Finished
  {
    var a := Abs(s);
    Par.NothingAfterSuccess(Lifted(outcomes), a);
    forall i | 0 <= i < |s.pc| ensures s.pc[i] == Finished {
      assert a.pc[i].Over? && a.pc[i] == AbsPc(s.pc[i]);
    }
  }

  /** Storing is loading the flag, which is down, and filling the slot. */
  lemma StoreSimulated<T>(outcomes: seq<Result<T>>, s: Res<T>, i: nat)
    requires Inv(outcomes, s) && i < s.started && i < |s.pc| && s.pc[i] == Waiting
    ensures Inv(outcomes, CallbackStep(outcomes, s, i))
  {
    var a, lifted, s' := Abs(s), Lifted(outcomes), CallbackStep(outcomes, s, i);
    assert !a.done by {
      if a.done {
        DeliveredLast(outcomes, s);
      }
    }
    var b := Par.Apply(lifted, a, Par.Callback(i));
    Par.StepKeeps(lifted, a, Par.Callback(i));
    Par.StepKeeps(lifted, b, Par.Callback(i));
    var c := Par.Apply(lifted, b, Par.Callback(i));
    assert c.pc == Abs(s').pc;
    assert c == Abs(s');
  }

  lemma CountSimulated<T>(outcomes: seq<Result<T>>, s: Res<T>, i: nat)
    requires Inv(outcomes, s) && i < s.started && i < |s.pc| && s.pc[i] == Stored
    ensures Inv(outcomes, CallbackStep(outcomes, s, i))
  {
    var a, lifted, s' := Abs(s), Lifted(outcomes), CallbackStep(outcomes, s, i);
    Par.StepKeeps(lifted, a, Par.Callback(i));
    var b := Par.Apply(lifted, a, Par.Callback(i));
    assert b.pc == Abs(s').pc;
    assert b == Abs(s');
  }

  /** Delivering is raising the flag, which succeeds, and completing. */
  lemma FinishSimulated<T>(outcomes: seq<Result<T>>, s: Res<T>, i: nat)
    requires Inv(outcomes, s) && i < s.started && i < |s.pc| && s.pc[i] == Finishing
    ensures Inv(outcomes, CallbackStep(outcomes, s, i))
  {
    var a, lifted, s' := Abs(s), Lifted(outcomes), CallbackStep(outcomes, s, i);
    assert !a.done by {
      if a.done {
        DeliveredLast(outcomes, s);
      }
    }
    assert a.pc[i] == Par.Last;
    var b := Par.Apply(lifted, a, Par.Callback(i));
    Par.StepKeeps(lifted, a, Par.Callback(i));
    Par.StepKeeps(lifted, b, Par.Callback(i));
    var c := Par.Apply(lifted, b, Par.Callback(i));
    assert !c.threw;
    assert c.pc == Abs(s').pc;
    assert c == Abs(s');
  }

  lemma StartSimulated<T>(outcomes: seq<Result<T>>, s: Res<T>)
    requires Inv(outcomes, s) && s.started < |s.pc|
    ensures Inv(outcomes, s.(started := s.started + 1))
  {
    Par.StepKeeps(Lifted(outcomes), Abs(s), Par.Start);
    assert Par.Apply(Lifted(outcomes), Abs(s), Par.Start) == Abs(s.(started := s.started + 1));
  }

  lemma {:induction false} RunSimulated<T>(outcomes: seq<Result<T>>, steps: seq<Par.Step>)
    requires Run(outcomes, steps).Some?
    ensures Inv(outcomes, Run(outcomes, steps).value)
    decreases |steps|
  {
    if steps == [] {
      var b := Begin<T>(|outcomes|);
      Par.BeginInv(Lifted(outcomes));
      assert Abs(b).pc == Par.Begin<Result<T>>(|outcomes|).pc;
      assert Abs(b) == Par.Begin<Result<T>>(|outcomes|);
    } else {
      RunSimulated(outcomes, steps[..|steps| - 1]);
      var s := Run(outcomes, steps[..|steps| - 1]).value;
      match steps[|steps| - 1]
      case Start => StartSimulated(outcomes, s);
      case Callback(i) =>
        match s.pc[i]
        case Waiting => StoreSimulated(outcomes, s, i);
        case Stored => CountSimulated(outcomes, s, i);
        case Finishing => FinishSimulated(outcomes, s, i);
    }
  }

  /** In every interleaving the caller gets every item's result, in item order,
      at most once, and exactly once when all callbacks are over. */
  lemma ResultsDelivery<T>(outcomes: seq<Result<T>>, steps: seq<Par.Step>)
    requires Run(outcomes, steps).Some?
    ensures var s := Run(outcomes, steps).value;
            && !s.threw && (s.delivered == [] || s.delivered == [Ok(outcomes)])
            && ((forall i :: 0 <= i < |s.pc| ==> s.pc[i] == Finished) <==> s.delivered == [Ok(outcomes)])
  {
    RunSimulated(outcomes, steps);
    var s := Run(outcomes, steps).value;
    var a := Abs(s);
    Par.DeliveryMeaning(Lifted(outcomes), a);
    if s.delivered != [] {
      DeliveredLast(outcomes, s);
      assert Par.Values(Lifted(outcomes)) == outcomes;
    }
    if forall i :: 0 <= i < |s.pc| ==> s.pc[i] == Finished {
      assert Par.AllOver(a);
    }
  }
}
