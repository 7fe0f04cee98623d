/** `collect_io`, one item after the other, and the bounded
    `collect_io_parallel`, which runs chunks one after the other with the items
    of a chunk in parallel. */
module CollectBounded {
  import opened Common
  import opened CollectParallel
  import opened Pieces

  // ------------------------------------------------------------ sequential

  /** The first error if there is one, else all values in order. */
  function Sequential<T>(outcomes: seq<Result<T>>): Result<seq<T>> {
    if outcomes == [] then Ok([])
    else
      match outcomes[0]
      case Err(e) => Err(e)
      case Ok(v) =>
        match Sequential(outcomes[1..])
        case Err(e) => Err(e)
        case Ok(vs) => Ok([v] + vs)
  }

  lemma {:induction false} SequentialMeaning<T>(outcomes: seq<Result<T>>)
    ensures Sequential(outcomes).Ok? <==> AllOk(outcomes)
    ensures AllOk(outcomes) ==> Sequential(outcomes) == Ok(Values(outcomes))
    ensures !AllOk(outcomes) ==>
              exists f :: 0 <= f < |outcomes| && AllOk(outcomes[..f]) && outcomes[f] == Err(Sequential(outcomes).error)
  {
    if outcomes == [] {
      assert Values(outcomes) == [];
    } else {
      SequentialMeaning(outcomes[1..]);
      if AllOk(outcomes) {
        forall i | 0 <= i < |outcomes[1..]| ensures outcomes[1..][i].Ok? {
          assert outcomes[1..][i] == outcomes[i + 1];
        }
        assert AllOk(outcomes[1..]) && outcomes[0] == Ok(outcomes[0].value);
        assert Values(outcomes) == [outcomes[0].value] + Values(outcomes[1..]);
      } else if outcomes[0].Err? {
        assert AllOk(outcomes[..0]);
      } else {
        assert outcomes == [outcomes[0]] + outcomes[1..];
        assert !AllOk(outcomes[1..]);
        var f :| 0 <= f < |outcomes[1..]| && AllOk(outcomes[1..][..f]) && outcomes[1..][f] == Err(Sequential(outcomes).error);
        assert outcomes[..f + 1] == [outcomes[0]] + outcomes[1..][..f];
        assert outcomes[f + 1] == outcomes[1..][f];
      }
    }
  }

  /** `collect_io`: run items in order, stop at the first error. `ran` is the
      number of items run. */
  method CollectIo<T>(outcomes: seq<Result<T>>) returns (delivered: Result<seq<T>>, ran: nat)
    ensures delivered == Sequential(outcomes)
    ensures ran <= |outcomes| && AllOk(outcomes[..if ran > 0 then ran - 1 else 0])
    ensures delivered.Ok? ==> ran == |outcomes|
    ensures delivered.Err? ==> ran > 0 && outcomes[ran - 1] == Err(delivered.error)
  {
    var out: seq<T> := [];
    ran := 0;
    while ran < |outcomes|
      invariant ran <= |outcomes| && AllOk(outcomes[..ran]) && out == Values(outcomes[..ran])
    {
      ran := ran + 1;
      assert outcomes[..ran] == outcomes[..ran - 1] + [outcomes[ran - 1]];
      match outcomes[ran - 1] {
        case Err(e) =>
          FirstError(outcomes, ran - 1);
          return Err(e), ran;
        case Ok(v) =>
          out := out + [v];
      }
    }
    assert outcomes[..ran] == outcomes;
    SequentialMeaning(outcomes);
    delivered := Ok(out);
  }

  lemma {:induction false} FirstError<T>(outcomes: seq<Result<T>>, f: nat)
    requires f < |outcomes| && AllOk(outcomes[..f]) && outcomes[f].Err?
    ensures Sequential(outcomes) == Err(outcomes[f].error)
  {
    if f > 0 {
      assert outcomes[0] == outcomes[..f][0];
      assert outcomes[1..][..f - 1] == outcomes[..f][1..];
      FirstError(outcomes[1..], f - 1);
    }
  }

  // --------------------------------------------------------------- chunking

  lemma {:induction false} FlattenAppend<A>(chunks: seq<seq<A>>, c: seq<A>)
    ensures Flatten(chunks + [c]) == Flatten(chunks) + c
  {
    if chunks == [] {
      assert chunks + [c] == [c];
      assert Flatten([c]) == c + Flatten([]);
    } else {
      assert (chunks + [c])[1..] == chunks[1..] + [c];
      FlattenAppend(chunks[1..], c);
    }
  }

  /** A whole number of full pieces. */
  predicate Whole<A>(items: seq<A>, k: nat)
    requires k > 0
    decreases |items|
  {
    items == [] || (|items| >= k && Whole(items[k..], k))
  }

  lemma {:induction false} WholeAppend<A>(done: seq<A>, piece: seq<A>, k: nat)
    requires k > 0 && Whole(done, k) && |piece| == k
    ensures Whole(done + piece, k)
    decreases |done|
  {
    if done == [] {
      assert done + piece == piece && piece[k..] == [];
    } else {
      assert (done + piece)[k..] == done[k..] + piece;
      WholeAppend(done[k..], piece, k);
    }
  }

  lemma {:induction false} ChunksAppend<A>(done: seq<A>, piece: seq<A>, k: nat)
    requires k > 0 && Whole(done, k) && 0 < |piece| <= k
    ensures Chunks(done + piece, k) == Chunks(done, k) + [piece]
    decreases |done|
  {
    if done == [] {
      assert done + piece == piece;
    } else {
      assert (done + piece)[..k] == done[..k];
      assert (done + piece)[k..] == done[k..] + piece;
      ChunksAppend(done[k..], piece, k);
      if |done| == k {
        assert done[..k] == done && done[k..] == [];
      }
    }
  }

  /** The batching loop of the bounded overload. */
  method MakeBatches<A>(items: seq<A>, concurrency: nat) returns (batches: seq<seq<A>>)
    requires concurrency > 0
    ensures batches == Chunks(items, concurrency)
  {
    batches := [];
    var index := 0;
    while index < |items|
      invariant index <= |items| && (index < |items| ==> Whole(items[..index], concurrency))
      invariant batches == Chunks(items[..index], concurrency)
    {
      var end := index + concurrency;
      if end > |items| {
        end := |items|;
      }
      var chunk := items[index..end];
      assert items[..end] == items[..index] + chunk;
      ChunksAppend(items[..index], chunk, concurrency);
      if end < |items| {
        WholeAppend(items[..index], chunk, concurrency);
      }
      batches := batches + [chunk];
      index := end;
    }
    assert items[..index] == items;
  }

  /** Joining the batches' values. */
  method Join<T>(nested: seq<seq<T>>) returns (flat: seq<T>)
    ensures flat == Flatten(nested)
  {
    flat := [];
    for i := 0 to |nested|
      invariant flat == Flatten(nested[..i])
    {
      assert nested[..i + 1] == nested[..i] + [nested[i]];
      FlattenAppend(nested[..i], nested[i]);
      flat := flat + nested[i];
    }
    assert nested[..|nested|] == nested;
  }

  // ------------------------------------------- chunks, one after the other

  /** `pars` are the parallel runs of the chunks started so far, `out` the
      values of those that have delivered. When a chunk delivers, its callback
      at once appends the values and starts the next chunk, or delivers. */
  datatype Chunked<T> = Chunked(
    pars: seq<Par<T>>,
    out: seq<seq<T>>,
    delivered: seq<Result<seq<T>>>)

  /** A step of one of the chunks that were started. */
  datatype ChunkStep = ChunkStep(h: nat, step: Step)

  function BeginChunks<T>(chunks: seq<seq<Result<T>>>): Chunked<T>
    requires chunks != []
  {
    Chunked([Begin(|chunks[0]|)], [], [])
  }

  predicate ChunkEnabled<T>(chunks: seq<seq<Result<T>>>, s: Chunked<T>, step: ChunkStep) {
    step.h < |s.pars| && step.h < |chunks| && Sized(chunks[step.h], s.pars[step.h]) && Enabled(s.pars[step.h], step.step)
  }

  function ChunkApply<T>(chunks: seq<seq<Result<T>>>, s: Chunked<T>, step: ChunkStep): Chunked<T>
    requires ChunkEnabled(chunks, s, step)
  {
    var cur := Apply(chunks[step.h], s.pars[step.h], step.step);
    var pars := s.pars[step.h := cur];
    if |cur.delivered| == |s.pars[step.h].delivered| then s.(pars := pars)
    else
      match cur.delivered[|cur.delivered| - 1]
      case Err(e) => s.(pars := pars, delivered := s.delivered + [Err(e)])
      case Ok(vs) =>
        var out := s.out + [vs];
        if |out| < |chunks| then Chunked(pars + [Begin(|chunks[|out|]|)], out, s.delivered)
        else Chunked(pars, out, s.delivered + [Ok(Flatten(out))])
  }

  function ChunkRun<T>(chunks: seq<seq<Result<T>>>, steps: seq<ChunkStep>): Option<Chunked<T>>
    requires chunks != []
    decreases |steps|
  {
    if steps == [] then Some(BeginChunks(chunks))
    else
      match ChunkRun(chunks, steps[..|steps| - 1])
      case None => None
      case Some(s) =>
        var last := steps[|steps| - 1];
        if ChunkEnabled(chunks, s, last) then Some(ChunkApply(chunks, s, last)) else None
  }

  /** The error of some item of the first chunk that has a failure. */
  ghost predicate FromFirstBadChunk<T>(chunks: seq<seq<Result<T>>>, e: Error) {
    exists j, i ::
      && 0 <= j < |chunks| && (forall h :: 0 <= h < j ==> AllOk(chunks[h]))
      && 0 <= i < |chunks[j]| && chunks[j][i] == Err(e)
  }

  ghost predicate ChunkInv<T>(chunks: seq<seq<Result<T>>>, s: Chunked<T>) {
    && |s.out| <= |chunks| && |s.pars| == (if |s.out| < |chunks| then |s.out| + 1 else |chunks|)
    && (forall h :: 0 <= h < |s.pars| ==> Inv(chunks[h], s.pars[h]))
    && (forall h :: 0 <= h < |s.out| ==> AllOk(chunks[h]) && s.out[h] == Values(chunks[h]) && s.pars[h].delivered == [Ok(s.out[h])])
    && (|s.out| < |chunks| ==> CurrentOk(chunks, s, s.pars[|s.out|]))
    && (|s.out| == |chunks| ==> s.delivered == [Ok(Flatten(s.out))])
  }

  /** The current chunk has delivered nothing, or an error that was passed on. */
  ghost predicate CurrentOk<T>(chunks: seq<seq<Result<T>>>, s: Chunked<T>, cur: Par<T>) {
    if cur.delivered == [] then s.delivered == []
    else
      && cur.delivered[0].Err? && s.delivered == [Err(cur.delivered[0].error)]
      && FromFirstBadChunk(chunks, cur.delivered[0].error)
  }

  /** A chunk that delivered its values takes no more steps. */
  lemma EarlierOver<T>(chunks: seq<seq<Result<T>>>, s: Chunked<T>, h: nat)
    requires ChunkInv(chunks, s) && h < |s.out|
    ensures AllOver(s.pars[h]) && forall step :: !Enabled(s.pars[h], step)
  {
    var par := s.pars[h];
    NothingAfterSuccess(chunks[h], par);
    if par.pc != [] {
      assert par.pc[|par.pc| - 1].Over?;
    }
    assert par.started == |par.pc|;
  }

  lemma ChunkFails<T>(chunks: seq<seq<Result<T>>>, s: Chunked<T>, cur: Par<T>, e: Error)
    requires |s.out| < |chunks| && ChunkInv(chunks, s) && s.delivered == []
    requires Inv(chunks[|s.out|], cur) && cur.delivered == [Err(e)]
    ensures ChunkInv(chunks, s.(pars := s.pars[|s.out| := cur], delivered := [Err(e)]))
  {
    var i :| 0 <= i < |chunks[|s.out|]| && chunks[|s.out|][i] == Err(e);
    assert FromFirstBadChunk(chunks, e);
  }

  lemma ChunkSucceeds<T>(chunks: seq<seq<Result<T>>>, s: Chunked<T>, cur: Par<T>, vs: seq<T>)
    requires |s.out| < |chunks| && ChunkInv(chunks, s) && s.delivered == []
    requires Inv(chunks[|s.out|], cur) && cur.delivered == [Ok(vs)]
    ensures var pars, out := s.pars[|s.out| := cur], s.out + [vs];
            forall h :: 0 <= h < |out| ==>
              && Inv(chunks[h], pars[h]) && AllOk(chunks[h]) && out[h] == Values(chunks[h]) && pars[h].delivered == [Ok(out[h])]
  {
    DeliveryMeaning(chunks[|s.out|], cur);
  }

  lemma NextChunk<T>(chunks: seq<seq<Result<T>>>, s: Chunked<T>, cur: Par<T>, vs: seq<T>)
    requires (forall c :: c in chunks ==> c != []) && |s.out| < |chunks| && ChunkInv(chunks, s) && s.delivered == []
    requires Inv(chunks[|s.out|], cur) && cur.delivered == [Ok(vs)]
    ensures var pars, out := s.pars[|s.out| := cur], s.out + [vs];
            if |out| < |chunks| then ChunkInv(chunks, Chunked(pars + [Begin(|chunks[|out|]|)], out, []))
            else ChunkInv(chunks, Chunked(pars, out, [Ok(Flatten(out))]))
  {
    ChunkSucceeds(chunks, s, cur, vs);
    if |s.out| + 1 < |chunks| {
      assert chunks[|s.out| + 1] in chunks;
      BeginInv(chunks[|s.out| + 1]);
    }
  }

  lemma ChunkGoesOn<T>(chunks: seq<seq<Result<T>>>, s: Chunked<T>, cur: Par<T>)
    requires |s.out| < |chunks| && ChunkInv(chunks, s)
    requires Inv(chunks[|s.out|], cur) && cur.delivered == s.pars[|s.out|].delivered
    ensures ChunkInv(chunks, s.(pars := s.pars[|s.out| := cur]))
  {
  }

  /** Only the current chunk can take a step. */
  lemma OnlyCurrent<T>(chunks: seq<seq<Result<T>>>, s: Chunked<T>, step: ChunkStep)
    requires ChunkInv(chunks, s) && ChunkEnabled(chunks, s, step)
    ensures step.h == |s.out| < |chunks|
  {
    if step.h < |s.out| {
      EarlierOver(chunks, s, step.h);
    }
  }

  lemma ChunkStepKeeps<T>(chunks: seq<seq<Result<T>>>, s: Chunked<T>, step: ChunkStep)
    requires (forall c :: c in chunks ==> c != []) && ChunkInv(chunks, s) && ChunkEnabled(chunks, s, step)
    ensures ChunkInv(chunks, ChunkApply(chunks, s, step))
  {
    OnlyCurrent(chunks, s, step);
    var was, cur := s.pars[step.h], Apply(chunks[step.h], s.pars[step.h], step.step);
    CollectParallel.StepKeeps(chunks[step.h], was, step.step);
    DeliveryOnce(chunks[step.h], was, step.step);
    if |cur.delivered| == |was.delivered| {
      ChunkGoesOn(chunks, s, cur);
    } else {
      match cur.delivered[0]
      case Err(e) => ChunkFails(chunks, s, cur, e);
      case Ok(vs) => NextChunk(chunks, s, cur, vs);
    }
  }

  lemma DeliveryOnce<T>(outcomes: seq<Result<T>>, s: Par<T>, step: Step)
    requires Inv(outcomes, s) && Enabled(s, step)
    ensures s.delivered <= Apply(outcomes, s, step).delivered
    ensures s.delivered != [] ==> Apply(outcomes, s, step).delivered == s.delivered
  {
  }

  lemma {:induction false} ChunkRunKeeps<T>(chunks: seq<seq<Result<T>>>, steps: seq<ChunkStep>)
    requires chunks != [] && (forall c :: c in chunks ==> c != []) && ChunkRun(chunks, steps).Some?
    ensures ChunkInv(chunks, ChunkRun(chunks, steps).value)
    decreases |steps|
  {
    if steps == [] {
      assert chunks[0] in chunks;
      BeginInv(chunks[0]);
    } else {
      ChunkRunKeeps(chunks, steps[..|steps| - 1]);
      ChunkStepKeeps(chunks, ChunkRun(chunks, steps[..|steps| - 1]).value, steps[|steps| - 1]);
    }
  }
}
