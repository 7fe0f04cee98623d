/** Cutting a sequence into pieces of equal size. */
module Pieces {

  /** Pieces of `k` items, the last one possibly shorter. */
  function Chunks<A>(items: seq<A>, k: nat): seq<seq<A>>
    requires k > 0
    decreases |items|
  {
    if items == [] then []
    else if |items| <= k then [items]
    else [items[..k]] + Chunks(items[k..], k)
  }

  function Flatten<A>(chunks: seq<seq<A>>): seq<A> {
    if chunks == [] then [] else chunks[0] + Flatten(chunks[1..])
  }

  lemma {:induction false} ChunksMeaning<A>(items: seq<A>, k: nat)
    requires k > 0
    ensures Flatten(Chunks(items, k)) == items
    ensures forall j :: 0 <= j < |Chunks(items, k)| ==> 0 < |Chunks(items, k)[j]| <= k
    ensures forall j :: 0 <= j < |Chunks(items, k)| - 1 ==> |Chunks(items, k)[j]| == k
    ensures Chunks(items, k) == [] <==> items == []
    decreases |items|
  {
    if |items| > k {
      ChunksMeaning(items[k..], k);
      assert items == items[..k] + items[k..];
    } else if items != [] {
      assert Flatten([items]) == items + Flatten([]);
    }
  }
}
