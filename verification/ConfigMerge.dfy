/** Configuration trees: the recursive layer merge `deep_merge_json`, the fold
    over layers, and the two passes of placeholder expansion over a tree. */
module ConfigMerge {
  import opened Common
  import opened Placeholders
  import opened TwoPasses

  datatype Json =
    | Null
    | Bool(b: bool)
    | Number(n: int)
    | Str(s: string)
    | Arr(items: seq<Json>)
    | Obj(fields: map<string, Json>)

  // ----------------------------------------------------------------- merge

  /** The layer `src` over `dst`. Objects merge key by key; anything else in
      `src` replaces; a layer that is no object changes nothing. */
  function Merge(dst: Json, src: Json): Json
    decreases src
  {
    if !dst.Obj? || !src.Obj? then dst
    else
      Obj(map k | k in dst.fields.Keys + src.fields.Keys ::
            if k !in src.fields then dst.fields[k]
            else if k in dst.fields && dst.fields[k].Obj? && src.fields[k].Obj? then Merge(dst.fields[k], src.fields[k])
            else src.fields[k])
  }

  /** `deep_merge_json`: the entries of `src` in any order, each written into
      the fields of `dst`. */
  method DeepMerge(dst: Json, src: Json) returns (merged: Json)
    ensures merged == Merge(dst, src)
    decreases src
  {
    if !dst.Obj? || !src.Obj? {
      return dst;
    }
    var fields := dst.fields;
    var left := src.fields.Keys;
    while left != {}
      invariant left <= src.fields.Keys && fields.Keys == dst.fields.Keys + (src.fields.Keys - left)
      invariant forall k :: k in fields ==>
                              fields[k] == if k in left || k !in src.fields then dst.fields[k] else Merge(dst, src).fields[k]
    {
      var key :| key in left;
      var val := src.fields[key];
      if val.Obj? && key in fields && fields[key].Obj? {
        var sub := DeepMerge(fields[key], val);
        fields := fields[key := sub];
      } else {
        fields := fields[key := val];
      }
      left := left - {key};
    }
    merged := Obj(fields);
  }

  // ---------------------------------------------------------------- by path

  /** What stands at a path of keys. */
  function At(j: Json, path: seq<string>): Option<Json> {
    if path == [] then Some(j)
    else if j.Obj? && path[0] in j.fields then At(j.fields[path[0]], path[1..])
    else None
  }

  /** A non-object stands at some proper, non-empty prefix of the path. */
  predicate CutOff(j: Json, path: seq<string>) {
    |path| > 1 && j.Obj? && path[0] in j.fields
    && (!j.fields[path[0]].Obj? || CutOff(j.fields[path[0]], path[1..]))
  }

  lemma {:induction false} CutOffMeaning(j: Json, path: seq<string>)
    requires j.Obj?
    ensures CutOff(j, path) <==>
            exists n :: 0 < n < |path| && At(j, path[..n]).Some? && !At(j, path[..n]).value.Obj?
  {
    if |path| > 1 && path[0] in j.fields {
      var sub := j.fields[path[0]];
      assert path[..1] == [path[0]] && At(j, path[..1]) == At(sub, []) by {
        assert path[..1][1..] == [];
      }
      if sub.Obj? {
        CutOffMeaning(sub, path[1..]);
        if CutOff(sub, path[1..]) {
          var n :| 0 < n < |path[1..]| && At(sub, path[1..][..n]).Some? && !At(sub, path[1..][..n]).value.Obj?;
          assert path[..n + 1][1..] == path[1..][..n];
          assert At(j, path[..n + 1]).Some? && !At(j, path[..n + 1]).value.Obj?;
        }
        if n :| 0 < n < |path| && At(j, path[..n]).Some? && !At(j, path[..n]).value.Obj? {
          assert path[..n][1..] == path[1..][..n - 1];
          assert n > 1;
          assert At(sub, path[1..][..n - 1]).Some?;
        }
      } else {
        assert At(j, path[..1]).Some? && !At(j, path[..1]).value.Obj?;
      }
    } else {
      assert forall n :: 0 < n < |path| ==> path[..n][0] == path[0];
    }
  }

  /** Exactly what stands where after a merge of two objects. A leaf of `src`
      wins; an object of `src` is merged with an object of `dst` and otherwise
      wins; where `src` says nothing, what `dst` has survives unless `src` cuts
      it off; nothing else appears. */
  lemma {:induction false} MergeByPath(dst: Json, src: Json, path: seq<string>)
    requires dst.Obj? && src.Obj? && path != []
    ensures At(Merge(dst, src), path)
         == match At(src, path)
            case Some(v) =>
              if v.Obj? && At(dst, path).Some? && At(dst, path).value.Obj? then Some(Merge(At(dst, path).value, v))
              else Some(v)
            case None => if CutOff(src, path) then None else At(dst, path)
    decreases |path|
  {
    var k, rest := path[0], path[1..];
    if k in dst.fields && k in src.fields && dst.fields[k].Obj? && src.fields[k].Obj? && rest != [] {
      MergeByPath(dst.fields[k], src.fields[k], rest);
    }
  }

  // ------------------------------------------------------ merging repeatedly

  lemma {:induction false} MergeSelf(j: Json)
    ensures Merge(j, j) == j
  {
    if j.Obj? {
      forall k | k in j.fields ensures Merge(j, j).fields[k] == j.fields[k] {
        MergeSelf(j.fields[k]);
      }
      assert Merge(j, j).fields == j.fields;
    }
  }

  /** Merging a layer again changes nothing. */
  lemma {:induction false} MergeAgain(dst: Json, src: Json)
    ensures Merge(Merge(dst, src), src) == Merge(dst, src)
    decreases src
  {
    if dst.Obj? && src.Obj? {
      var once := Merge(dst, src);
      forall k | k in once.fields ensures Merge(once, src).fields[k] == once.fields[k] {
        if k in src.fields {
          if k in dst.fields && dst.fields[k].Obj? && src.fields[k].Obj? {
            MergeAgain(dst.fields[k], src.fields[k]);
          } else {
            MergeSelf(src.fields[k]);
          }
        }
      }
      assert Merge(once, src).fields == once.fields;
    }
  }

  /** The layer `over` repeats every key of `under`, at every level where both
      are objects. */
  predicate Covers(over: Json, under: Json)
    requires over.Obj? && under.Obj?
    decreases under
  {
    forall k :: k in under.fields ==>
                  k in over.fields
                  && (under.fields[k].Obj? && over.fields[k].Obj? ==> Covers(over.fields[k], under.fields[k]))
  }

  lemma {:induction false} CoveredVanishes(under: Json, over: Json)
    requires over.Obj? && under.Obj?
    ensures Merge(under, over) == over <==> Covers(over, under)
    decreases over
  {
    var m := Merge(under, over);
    forall k | k in under.fields && k in over.fields && under.fields[k].Obj? && over.fields[k].Obj?
      ensures Merge(under.fields[k], over.fields[k]) == over.fields[k] <==> Covers(over.fields[k], under.fields[k])
    {
      CoveredVanishes(under.fields[k], over.fields[k]);
    }
    if Covers(over, under) {
      assert m.fields.Keys == over.fields.Keys;
      assert m.fields == over.fields;
    }
    if m == over {
      forall k | k in under.fields ensures k in over.fields {
        assert k in m.fields;
      }
      forall k | k in under.fields && under.fields[k].Obj? && over.fields[k].Obj?
        ensures Covers(over.fields[k], under.fields[k])
      {
        assert m.fields[k] == over.fields[k];
      }
    }
  }

  /** No object of `a` is hidden by a non-object of `b` and then met again by an
      object of `c` that does not repeat it. */
  predicate NoSandwich(a: Json, b: Json, c: Json)
    requires a.Obj? && b.Obj? && c.Obj?
    decreases b
  {
    forall k :: k in a.fields && k in b.fields && k in c.fields && a.fields[k].Obj? && c.fields[k].Obj? ==>
                  if b.fields[k].Obj? then NoSandwich(a.fields[k], b.fields[k], c.fields[k])
                  else Covers(c.fields[k], a.fields[k])
  }

  /** The order in which layers are grouped does not matter, exactly when no
      such sandwich occurs. */
  lemma {:induction false} MergeAssociative(a: Json, b: Json, c: Json)
    requires a.Obj? && b.Obj? && c.Obj?
    ensures Merge(Merge(a, b), c) == Merge(a, Merge(b, c)) <==> NoSandwich(a, b, c)
    decreases b
  {
    var l, r := Merge(Merge(a, b), c), Merge(a, Merge(b, c));
    assert l.fields.Keys == r.fields.Keys;
    forall k | k in l.fields ensures l.fields[k] == r.fields[k] <==> SameAt(a, b, c, k) {
      AssociativeAt(a, b, c, k);
    }
    if forall k :: k in l.fields ==> l.fields[k] == r.fields[k] {
      assert l.fields == r.fields;
      assert forall k :: k in l.fields ==> SameAt(a, b, c, k);
    }
    assert forall k :: k in a.fields && k in b.fields && k in c.fields ==> k in l.fields;
    if forall k :: k in l.fields ==> SameAt(a, b, c, k) {
      forall k | k in a.fields && k in b.fields && k in c.fields ensures SameAt(a, b, c, k) {
      }
    }
  }

  predicate SameAt(a: Json, b: Json, c: Json, k: string)
    requires a.Obj? && b.Obj? && c.Obj?
  {
    k in a.fields && k in b.fields && k in c.fields && a.fields[k].Obj? && c.fields[k].Obj? ==>
      if b.fields[k].Obj? then NoSandwich(a.fields[k], b.fields[k], c.fields[k])
      else Covers(c.fields[k], a.fields[k])
  }

  lemma {:induction false} AssociativeAt(a: Json, b: Json, c: Json, k: string)
    requires a.Obj? && b.Obj? && c.Obj?
    requires k in Merge(Merge(a, b), c).fields && k in Merge(a, Merge(b, c)).fields
    ensures Merge(Merge(a, b), c).fields[k] == Merge(a, Merge(b, c)).fields[k] <==> SameAt(a, b, c, k)
    decreases b, 0
  {
    if k in a.fields && k in b.fields && k in c.fields && a.fields[k].Obj? && c.fields[k].Obj? {
      if b.fields[k].Obj? {
        MergeAssociative(a.fields[k], b.fields[k], c.fields[k]);
      } else {
        CoveredVanishes(a.fields[k], c.fields[k]);
      }
    }
  }

  // ---------------------------------------------------------------- layers

  /** `json_content`: the layers found, in order, over the base. */
  function FoldLayers(base: Json, layers: seq<Json>): Json
    decreases layers
  {
    if layers == [] then base else FoldLayers(Merge(base, layers[0]), layers[1..])
  }

  lemma {:induction false} FoldLast(base: Json, layers: seq<Json>, last: Json)
    ensures FoldLayers(base, layers + [last]) == Merge(FoldLayers(base, layers), last)
    decreases layers
  {
    if layers == [] {
      assert layers + [last] == [last];
    } else {
      assert (layers + [last])[1..] == layers[1..] + [last];
      FoldLast(Merge(base, layers[0]), layers[1..], last);
    }
  }

  lemma {:induction false} FoldObj(base: Json, layers: seq<Json>)
    requires base.Obj?
    ensures FoldLayers(base, layers).Obj?
    decreases layers
  {
    if layers != [] {
      FoldObj(Merge(base, layers[0]), layers[1..]);
    }
  }

  /** No path is an object in one and a non-object in the other. */
  predicate Agree(a: Json, b: Json)
    requires a.Obj? && b.Obj?
    decreases a
  {
    forall k :: k in a.fields && k in b.fields ==>
                  (a.fields[k].Obj? <==> b.fields[k].Obj?)
                  && (a.fields[k].Obj? && b.fields[k].Obj? ==> Agree(a.fields[k], b.fields[k]))
  }

  lemma {:induction false} AgreeMerge(a: Json, b: Json, c: Json)
    requires a.Obj? && b.Obj? && c.Obj? && Agree(a, b) && Agree(a, c) && Agree(b, c)
    ensures Agree(a, Merge(b, c)) && Agree(Merge(b, c), a)
    decreases b
  {
    var m := Merge(b, c);
    AgreeSym(a, b);
    AgreeSym(a, c);
    forall k | k in a.fields && k in m.fields && a.fields[k].Obj? && m.fields[k].Obj?
      ensures Agree(a.fields[k], m.fields[k]) && Agree(m.fields[k], a.fields[k])
    {
      if k in b.fields && k in c.fields {
        AgreeMerge(a.fields[k], b.fields[k], c.fields[k]);
      }
    }
  }

  lemma {:induction false} AgreeSym(a: Json, b: Json)
    requires a.Obj? && b.Obj? && Agree(a, b)
    ensures Agree(b, a)
    decreases a
  {
    forall k | k in a.fields && k in b.fields && a.fields[k].Obj? && b.fields[k].Obj? ensures Agree(b.fields[k], a.fields[k]) {
      AgreeSym(a.fields[k], b.fields[k]);
    }
  }

  lemma {:induction false} AgreeNoSandwich(a: Json, b: Json, c: Json)
    requires a.Obj? && b.Obj? && c.Obj? && Agree(a, b) && Agree(b, c)
    ensures NoSandwich(a, b, c)
    decreases b
  {
    forall k | k in a.fields && k in b.fields && k in c.fields && a.fields[k].Obj? && c.fields[k].Obj?
      ensures b.fields[k].Obj? && NoSandwich(a.fields[k], b.fields[k], c.fields[k])
    {
      AgreeNoSandwich(a.fields[k], b.fields[k], c.fields[k]);
    }
  }

  ghost predicate AllAgree(layers: seq<Json>) {
    && (forall i :: 0 <= i < |layers| ==> layers[i].Obj?)
    && (forall i, j :: 0 <= i < j < |layers| ==> Agree(layers[i], layers[j]))
  }

  /** What agrees with every layer agrees with their fold. */
  lemma {:induction false} AgreeFold(a: Json, layers: seq<Json>)
    requires a.Obj? && AllAgree([a] + layers)
    ensures var f := FoldLayers(Obj(map[]), layers); f.Obj? && Agree(a, f) && Agree(f, a)
    decreases |layers|
  {
    FoldObj(Obj(map[]), layers);
    if layers != [] {
      var init, last := layers[..|layers| - 1], layers[|layers| - 1];
      assert layers == init + [last];
      FoldLast(Obj(map[]), init, last);
      assert forall i :: 0 <= i < |[a] + init| ==> ([a] + init)[i] == ([a] + layers)[i];
      AgreeFold(a, init);
      assert ([a] + layers)[|layers|] == last && ([a] + layers)[0] == a;
      assert forall i :: 0 <= i < |init| ==> ([a] + layers)[i + 1] == init[i];
      AgreeSymAll(last, init);
      AgreeFold(last, init);
      AgreeMerge(a, FoldLayers(Obj(map[]), init), last);
    }
  }

  lemma AgreeSymAll(last: Json, init: seq<Json>)
    requires last.Obj? && AllAgree(init) && forall i :: 0 <= i < |init| ==> Agree(init[i], last)
    ensures AllAgree([last] + init)
  {
    forall i | 0 <= i < |init| ensures Agree(last, init[i]) {
      AgreeSym(init[i], last);
    }
  }

  /** Layers that agree may be merged among themselves first: the fold groups
      in any way. */
  lemma {:induction false} FoldGroups(base: Json, layers: seq<Json>)
    requires base.Obj? && AllAgree([base] + layers)
    ensures FoldLayers(base, layers) == Merge(base, FoldLayers(Obj(map[]), layers))
    decreases |layers|
  {
    if layers == [] {
      assert Merge(base, Obj(map[])).fields == base.fields;
    } else {
      var init, last := layers[..|layers| - 1], layers[|layers| - 1];
      assert layers == init + [last];
      FoldLast(base, init, last);
      FoldLast(Obj(map[]), init, last);
      assert forall i :: 0 <= i < |[base] + init| ==> ([base] + init)[i] == ([base] + layers)[i];
      FoldGroups(base, init);
      AgreeFold(base, init);
      assert ([base] + layers)[|layers|] == last && ([base] + layers)[0] == base;
      assert forall i :: 0 <= i < |init| ==> ([base] + layers)[i + 1] == init[i];
      AgreeSymAll(last, init);
      AgreeFold(last, init);
      var mid := FoldLayers(Obj(map[]), init);
      AgreeNoSandwich(base, mid, last);
      MergeAssociative(base, mid, last);
    }
  }

  /** Reading the last layer a second time changes nothing. */
  lemma FoldLastAgain(base: Json, layers: seq<Json>, last: Json)
    ensures FoldLayers(base, layers + [last] + [last]) == FoldLayers(base, layers + [last])
  {
    FoldLast(base, layers + [last], last);
    FoldLast(base, layers, last);
    MergeAgain(FoldLayers(base, layers), last);
  }

  // ------------------------------------------------------- expanding a tree

  /** `expand_env`: every string of the tree, keys untouched. */
  function ExpandTree(j: Json, rule: Rule): Json {
    match j
    case Str(s) => Str(Rewrite(s, rule))
    case Arr(items) => Arr(seq(|items|, i requires 0 <= i < |items| => ExpandTree(items[i], rule)))
    case Obj(fields) => Obj(map k | k in fields :: ExpandTree(fields[k], rule))
    case _ => j
  }

  function Coerced(s: string): Json {
    if s == "true" then Bool(true) else if s == "false" then Bool(false) else Str(s)
  }

  /** `substitue_envs`: the same, and strings that read true or false become
      booleans. */
  function SubstituteTree(j: Json, rule: Rule): Json {
    match j
    case Str(s) => Coerced(Rewrite(s, rule))
    case Arr(items) => Arr(seq(|items|, i requires 0 <= i < |items| => SubstituteTree(items[i], rule)))
    case Obj(fields) => Obj(map k | k in fields :: SubstituteTree(fields[k], rule))
    case _ => j
  }

  function CoerceTree(j: Json): Json {
    match j
    case Str(s) => Coerced(s)
    case Arr(items) => Arr(seq(|items|, i requires 0 <= i < |items| => CoerceTree(items[i])))
    case Obj(fields) => Obj(map k | k in fields :: CoerceTree(fields[k]))
    case _ => j
  }

  /** Some string of the tree has a placeholder with this token. */
  ghost predicate MetIn(j: Json, t: string) {
    match j
    case Str(s) => t in Tokens(s)
    case Arr(items) => exists i :: 0 <= i < |items| && MetIn(items[i], t)
    case Obj(fields) => exists k :: k in fields && MetIn(fields[k], t)
    case _ => false
  }

  lemma MetInItem(items: seq<Json>, i: nat, t: string)
    requires i < |items| && MetIn(items[i], t)
    ensures MetIn(Arr(items), t)
  {
  }

  lemma MetInField(fields: map<string, Json>, k: string, t: string)
    requires k in fields && MetIn(fields[k], t)
    ensures MetIn(Obj(fields), t)
  {
  }

  ghost predicate QuietTree(j: Json, g: Rule) {
    forall t :: MetIn(j, t) ==> g(t) == None
  }

  ghost predicate SpendsTree(j: Json, g: Rule) {
    forall t :: MetIn(j, t) && g(t).Some? ==> Dollars(g(t).value) <= Dollars(t)
  }

  lemma CoercedApart(a: string, b: string)
    ensures Coerced(a) == Coerced(b) <==> a == b
  {
  }

  /** Over a whole configuration the pass does no more than turn "true" and
      "false" into booleans, exactly when it replaces nothing. */
  lemma {:induction false} SecondPassOverTree(j: Json, g: Rule)
    requires SpendsTree(j, g)
    ensures SubstituteTree(j, g) == CoerceTree(j) <==> QuietTree(j, g)
  {
    match j
    case Str(s) =>
      PassExact(s, g);
      CoercedApart(Rewrite(s, g), s);
      assert forall t :: MetIn(j, t) <==> t in Tokens(s);
    case Arr(items) =>
      var a, b := SubstituteTree(j, g).items, CoerceTree(j).items;
      forall i: nat | i < |items| ensures a[i] == b[i] <==> QuietTree(items[i], g) {
        forall t | MetIn(items[i], t) ensures MetIn(j, t) {
          MetInItem(items, i, t);
        }
        SecondPassOverTree(items[i], g);
      }
      assert a == b <==> forall i: nat :: i < |items| ==> a[i] == b[i];
      assert QuietTree(j, g) <==> forall i: nat :: i < |items| ==> QuietTree(items[i], g) by {
        QuietItems(items, g);
      }
    case Obj(fields) =>
      var a, b := SubstituteTree(j, g).fields, CoerceTree(j).fields;
      forall k | k in fields ensures a[k] == b[k] <==> QuietTree(fields[k], g) {
        forall t | MetIn(fields[k], t) ensures MetIn(j, t) {
          MetInField(fields, k, t);
        }
        SecondPassOverTree(fields[k], g);
      }
      assert a == b <==> forall k :: k in fields ==> a[k] == b[k];
      QuietFields(fields, g);
    case _ =>
  }

  lemma QuietItems(items: seq<Json>, g: Rule)
    ensures QuietTree(Arr(items), g) <==> forall i: nat :: i < |items| ==> QuietTree(items[i], g)
  {
    if QuietTree(Arr(items), g) {
      forall i: nat, t | i < |items| && MetIn(items[i], t) ensures g(t) == None {
        MetInItem(items, i, t);
      }
    }
  }

  lemma QuietFields(fields: map<string, Json>, g: Rule)
    ensures QuietTree(Obj(fields), g) <==> forall k :: k in fields ==> QuietTree(fields[k], g)
  {
    if QuietTree(Obj(fields), g) {
      forall k, t | k in fields && MetIn(fields[k], t) ensures g(t) == None {
        MetInField(fields, k, t);
      }
    }
  }

  ghost predicate InertTree(j: Json, f: Rule) {
    forall t :: MetIn(j, t) && f(t).Some? ==> Inert(f(t).value)
  }

  /** After a pass that puts in only inert text, what is met in the tree is what
      the pass left standing. */
  lemma {:induction false} MetAfter(j: Json, f: Rule, t: string)
    requires InertTree(j, f)
    ensures MetIn(ExpandTree(j, f), t) <==> MetIn(j, t) && f(t) == None
  {
    match j
    case Str(s) =>
      assert forall u :: u in Tokens(s) ==> MetIn(j, u);
      TokensAfter(s, f);
      StandingMeaning(Tokens(s), f);
    case Arr(items) =>
      var after := ExpandTree(j, f).items;
      forall i: nat | i < |items| ensures MetIn(after[i], t) <==> MetIn(items[i], t) && f(t) == None {
        forall u | MetIn(items[i], u) ensures MetIn(j, u) {
          MetInItem(items, i, u);
        }
        MetAfter(items[i], f, t);
      }
    case Obj(fields) =>
      var after := ExpandTree(j, f).fields;
      forall k | k in fields ensures MetIn(after[k], t) <==> MetIn(fields[k], t) && f(t) == None {
        forall u | MetIn(fields[k], u) ensures MetIn(j, u) {
          MetInField(fields, k, u);
        }
        MetAfter(fields[k], f, t);
      }
    case _ =>
  }

  /** Both passes over a whole configuration: after inert text was put in, the
      second changes nothing but the booleans exactly when its rule replaces
      nothing of what the first left standing. */
  lemma BothPassesOverTree(j: Json, f: Rule, g: Rule)
    requires InertTree(j, f)
    requires forall t :: MetIn(j, t) && f(t) == None && g(t).Some? ==> Dollars(g(t).value) <= Dollars(t)
    ensures SubstituteTree(ExpandTree(j, f), g) == CoerceTree(ExpandTree(j, f))
       <==> forall t :: MetIn(j, t) && f(t) == None ==> g(t) == None
  {
    var x := ExpandTree(j, f);
    forall t ensures MetIn(x, t) <==> MetIn(j, t) && f(t) == None {
      MetAfter(j, f, t);
    }
    SecondPassOverTree(x, g);
  }
}
