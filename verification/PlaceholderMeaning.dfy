/** What the placeholder passes make of concrete texts: which name is looked up,
    where, and what stands there afterwards. */
module PlaceholderMeaning {
  import opened Common
  import opened Placeholders
  import opened TwoPasses

  // ----------------------------------------------------------------- tokens

  predicate DelimAt(s: string, i: nat) {
    i + 1 < |s| && s[i] == ':' && s[i + 1] == '-'
  }

  /** ":-" does not occur. */
  predicate NoDelim(s: string) {
    forall i :: 0 <= i < |s| ==> !DelimAt(s, i)
  }

  lemma {:induction false} FirstDelim(s: string, from: nat, k: nat)
    requires from <= k <= |s| && (k == |s| || DelimAt(s, k)) && forall i: nat :: from <= i < k ==> !DelimAt(s, i)
    ensures FindDelim(s, from) == k
    decreases k - from
  {
    if from < k {
      assert !DelimAt(s, from);
      FirstDelim(s, from + 1, k);
    }
  }

  /** A token without ":-" is a name without a default. */
  lemma PlainToken(name: string)
    requires NoDelim(name)
    ensures VarOf(name) == name && DefaultOf(name) == None
  {
    FirstDelim(name, 0, |name|);
  }

  /** The first ":-" parts the name from the default, which may hold others. */
  lemma DefaultToken(name: string, default: string)
    requires NoDelim(name + ":")
    ensures VarOf(name + ":-" + default) == name && DefaultOf(name + ":-" + default) == Some(default)
  {
    var token, k := name + ":-" + default, |name|;
    forall i: nat | i < k ensures !DelimAt(token, i) {
      assert !DelimAt(name + ":", i);
    }
    FirstDelim(token, 0, k);
    assert token[..k] == name && token[k + 2..] == default;
  }

  // ------------------------------------------------------------------ texts

  lemma {:induction false} PlainPrefix(p: string, rest: string, rule: Rule)
    requires '$' !in p
    ensures Rewrite(p + rest, rule) == p + Rewrite(rest, rule)
  {
    if p == "" {
      assert p + rest == rest && "" + Rewrite(rest, rule) == Rewrite(rest, rule);
    } else {
      assert p[0] in p;
      assert (p + rest)[1..] == p[1..] + rest && (p + rest)[0] == p[0];
      PlainPrefix(p[1..], rest, rule);
      assert [p[0]] + (p[1..] + Rewrite(rest, rule)) == p + Rewrite(rest, rule);
    }
  }

  /** A placeholder after plain text: the text stays, the placeholder becomes
      what the rule says, and the rest is treated in the same way. */
  lemma InText(p: string, token: string, rest: string, rule: Rule)
    requires '$' !in p && '}' !in token
    ensures Rewrite(p + (HoleOf(token) + rest), rule)
         == p + ((match rule(token) case Some(v) => v case None => HoleOf(token)) + Rewrite(rest, rule))
  {
    var s := HoleOf(token) + rest;
    LeadingHole(token, rest);
    PlainPrefix(p, s, rule);
    RewriteHole(s, rule);
    assert s[..HoleEnd(s) + 1] == HoleOf(token) by {
      assert |s| == |HoleOf(token)| + |rest| && |s[HoleEnd(s) + 1..]| == |rest|;
    }
  }

  /** Both passes put `text` in the place of a placeholder after `p` and go on
      with `rest`. */
  ghost predicate BothGive(p: string, token: string, rest: string, lookup: string -> Option<string>, text: string) {
    && Rewrite(p + (HoleOf(token) + rest), ExpandRule(lookup)) == p + (text + Rewrite(rest, ExpandRule(lookup)))
    && Rewrite(p + (HoleOf(token) + rest), ReplaceRule(lookup)) == p + (text + Rewrite(rest, ReplaceRule(lookup)))
  }

  /** A variable that is defined is replaced by its value, with or without a
      default. */
  lemma DefinedWins(p: string, name: string, default: string, rest: string, lookup: string -> Option<string>, v: string)
    requires '$' !in p && '}' !in name && '}' !in default && NoDelim(name + ":") && lookup(name) == Some(v)
    ensures BothGive(p, name, rest, lookup, v) && BothGive(p, name + ":-" + default, rest, lookup, v)
  {
    Shorter(name);
    PlainToken(name);
    DefaultToken(name, default);
    InText(p, name, rest, ExpandRule(lookup));
    InText(p, name, rest, ReplaceRule(lookup));
    InText(p, name + ":-" + default, rest, ExpandRule(lookup));
    InText(p, name + ":-" + default, rest, ReplaceRule(lookup));
  }

  lemma Shorter(name: string)
    requires NoDelim(name + ":")
    ensures NoDelim(name)
  {
    forall i: nat ensures !DelimAt(name, i) {
      assert !DelimAt(name + ":", i);
    }
  }

  /** One that is not is replaced by its default if that is not empty. */
  lemma DefaultUsed(p: string, name: string, default: string, rest: string, lookup: string -> Option<string>)
    requires '$' !in p && '}' !in name && '}' !in default && NoDelim(name + ":") && lookup(name) == None && default != ""
    ensures BothGive(p, name + ":-" + default, rest, lookup, default)
  {
    DefaultToken(name, default);
    InText(p, name + ":-" + default, rest, ExpandRule(lookup));
    InText(p, name + ":-" + default, rest, ReplaceRule(lookup));
  }

  /** With an empty default the builder drops it and the rewrite keeps it. */
  lemma EmptyDefaultParts(p: string, name: string, rest: string, lookup: string -> Option<string>)
    requires '$' !in p && '}' !in name && NoDelim(name + ":") && lookup(name) == None
    ensures var token := name + ":-" + "";
            && Rewrite(p + (HoleOf(token) + rest), ExpandRule(lookup)) == p + ("" + Rewrite(rest, ExpandRule(lookup)))
            && Rewrite(p + (HoleOf(token) + rest), ReplaceRule(lookup)) == p + (HoleOf(token) + Rewrite(rest, ReplaceRule(lookup)))
  {
    DefaultToken(name, "");
    InText(p, name + ":-" + "", rest, ExpandRule(lookup));
    InText(p, name + ":-" + "", rest, ReplaceRule(lookup));
  }

  /** Without a default it stands as it is. */
  lemma UndefinedStands(p: string, name: string, rest: string, lookup: string -> Option<string>)
    requires '$' !in p && '}' !in name && NoDelim(name) && lookup(name) == None
    ensures BothGive(p, name, rest, lookup, HoleOf(name))
  {
    PlainToken(name);
    InText(p, name, rest, ExpandRule(lookup));
    InText(p, name, rest, ReplaceRule(lookup));
  }

  /** A "${" that is never closed is copied with all that follows it. */
  lemma NeverClosed(p: string, rest: string, rule: Rule)
    requires '$' !in p && '}' !in rest
    ensures Rewrite(p + ("${" + rest), rule) == p + ("${" + rest)
  {
    var s := "${" + rest;
    PlainPrefix(p, s, rule);
    forall i | 2 <= i < |s| ensures s[i] != '}' {
      assert s[i] == rest[i - 2] && rest[i - 2] in rest;
    }
    NoCloseCopied(s, rule);
  }

  // ----------------------------------------------------------------- lookup

  /** The command line wins, then the environment unless the value there is
      empty, then the properties. */
  lemma LookupOrder(cli: map<string, string>, env: map<string, string>, props: map<string, string>, name: string)
    ensures name in cli ==> Lookup(cli, env, props)(name) == Some(cli[name])
    ensures name !in cli && name in env && env[name] != "" ==> Lookup(cli, env, props)(name) == Some(env[name])
    ensures name !in cli && (name !in env || env[name] == "") && name in props ==> Lookup(cli, env, props)(name) == Some(props[name])
    ensures name !in cli && (name !in env || env[name] == "") && name !in props ==> Lookup(cli, env, props)(name) == None
  {
  }

  /** PORT is defined, so its default is not used. */
  lemma PortDefined(env: map<string, string>)
    requires "PORT" in env && env["PORT"] == "9090"
    ensures Rewrite("" + (HoleOf("PORT" + ":-" + "8080") + ""), ExpandRule(Lookup(map[], env, map[]))) == "9090"
    ensures Rewrite("" + (HoleOf("PORT" + ":-" + "8080") + ""), ReplaceRule(Lookup(map[], env, map[]))) == "9090"
  {
    DefinedWins("", "PORT", "8080", "", Lookup(map[], env, map[]), "9090");
    assert "" + ("9090" + "") == "9090";
  }
}
