/** What expanding and substituting make of the single strings of a configuration
    and of everything else in it. */
module ConfigTree {
  import opened Common
  import opened Placeholders
  import opened TwoPasses
  import opened PlaceholderMeaning
  import opened ConfigMerge

  /** The strings "true" and "false" become the booleans they read as; every
      other string stays itself. */
  lemma CoercedMeaning(s: string)
    ensures Coerced("true") == Bool(true) && Coerced("false") == Bool(false)
    ensures s != "true" && s != "false" ==> Coerced(s) == Str(s)
  {
  }

  /** Also when it reads so only after its placeholder was replaced, by the
      variable's value or, if there is none, by the default. */
  lemma ReplacedAndCoerced(name: string, default: string, lookup: string -> Option<string>)
    requires '}' !in name && '}' !in default && default != "" && NoDelim(name + ":")
    ensures SubstituteTree(Str(HoleOf(name + ":-" + default)), ReplaceRule(lookup))
         == Coerced(match lookup(name) case Some(v) => v case None => default)
  {
    Alone(name + ":-" + default, lookup);
    DefaultToken(name, default);
  }

  lemma Alone(token: string, lookup: string -> Option<string>)
    requires '}' !in token
    ensures Rewrite(HoleOf(token), ReplaceRule(lookup))
         == match ReplaceRule(lookup)(token) case Some(v) => v case None => HoleOf(token)
  {
    InText("", token, "", ReplaceRule(lookup));
    assert Rewrite("", ReplaceRule(lookup)) == "";
    var text := match ReplaceRule(lookup)(token) case Some(v) => v case None => HoleOf(token);
    assert "" + (HoleOf(token) + "") == HoleOf(token) && "" + (text + "") == text;
  }

  /** Along the keys of objects the tree keeps its shape, and what stands at the
      end of a path is treated by itself. */
  lemma {:induction false} ExpandedAt(j: Json, rule: Rule, path: seq<string>)
    ensures At(ExpandTree(j, rule), path) == match At(j, path)
                                             case None => None
                                             case Some(v) => Some(ExpandTree(v, rule))
    decreases |path|
  {
    if path != [] && j.Obj? && path[0] in j.fields {
      ExpandedAt(j.fields[path[0]], rule, path[1..]);
    }
  }

  lemma {:induction false} SubstitutedAt(j: Json, rule: Rule, path: seq<string>)
    ensures At(SubstituteTree(j, rule), path) == match At(j, path)
                                                 case None => None
                                                 case Some(v) => Some(SubstituteTree(v, rule))
    decreases |path|
  {
    if path != [] && j.Obj? && path[0] in j.fields {
      SubstitutedAt(j.fields[path[0]], rule, path[1..]);
    } else if path != [] && j.Str? {
      assert Coerced(Rewrite(j.s, rule)).Obj? == false;
    }
  }

  /** Strings are rewritten, the second pass reading booleans; arrays are treated
      item by item; anything else stays. */
  lemma LeavesTreated(j: Json, rule: Rule)
    ensures j.Str? ==> ExpandTree(j, rule) == Str(Rewrite(j.s, rule)) && SubstituteTree(j, rule) == Coerced(Rewrite(j.s, rule))
    ensures j.Arr? ==>
              && ExpandTree(j, rule).Arr? && |ExpandTree(j, rule).items| == |j.items|
              && SubstituteTree(j, rule).Arr? && |SubstituteTree(j, rule).items| == |j.items|
              && forall i :: 0 <= i < |j.items| ==>
                               && ExpandTree(j, rule).items[i] == ExpandTree(j.items[i], rule)
                               && SubstituteTree(j, rule).items[i] == SubstituteTree(j.items[i], rule)
    ensures !j.Str? && !j.Arr? && !j.Obj? ==> ExpandTree(j, rule) == j == SubstituteTree(j, rule)
  {
  }
}
