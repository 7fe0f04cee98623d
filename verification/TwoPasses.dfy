/** What the second placeholder pass does to the output of the first: exactly
    when it changes nothing. */
module TwoPasses {
  import opened Common
  import opened Placeholders

  // -------------------------------------------------- one text, one rule

  function Dollars(s: string): nat {
    if s == "" then 0 else (if s[0] == '$' then 1 else 0) + Dollars(s[1..])
  }

  lemma {:induction false} DollarsConcat(a: string, b: string)
    ensures Dollars(a + b) == Dollars(a) + Dollars(b)
  {
    if a == "" {
      assert a + b == b;
    } else {
      assert (a + b)[1..] == a[1..] + b;
      DollarsConcat(a[1..], b);
    }
  }

  lemma {:induction false} NoDollars(s: string)
    requires '$' !in s
    ensures Dollars(s) == 0
  {
    if s != "" {
      assert s[0] in s;
      NoDollars(s[1..]);
    }
  }

  lemma HoleDollars(x: string)
    requires Hole(x)
    ensures Dollars(x) == 1 + Dollars(Token(x)) + Dollars(x[HoleEnd(x) + 1..])
    ensures Dollars(x[..HoleEnd(x) + 1]) == 1 + Dollars(Token(x))
  {
    var e := HoleEnd(x);
    var token := Token(x);
    assert x[..e + 1] == "$" + ("{" + (token + "}"));
    DollarsConcat("$", "{" + (token + "}"));
    DollarsConcat("{", token + "}");
    DollarsConcat(token, "}");
    assert x == x[..e + 1] + x[e + 1..];
    DollarsConcat(x[..e + 1], x[e + 1..]);
  }

  /** Nothing met is replaced. */
  predicate Quiet(tokens: seq<string>, rule: Rule) {
    forall t :: t in tokens ==> rule(t) == None
  }

  /** No replacement holds more dollar signs than the token it is for, so that
      each replacement uses one up. */
  predicate Spends(tokens: seq<string>, rule: Rule) {
    forall t :: t in tokens && rule(t).Some? ==> Dollars(rule(t).value) <= Dollars(t)
  }

  lemma {:induction false} QuietStays(x: string, rule: Rule)
    requires Quiet(Tokens(x), rule)
    ensures Rewrite(x, rule) == x
    decreases |x|
  {
    if x != "" {
      if Hole(x) {
        var e := HoleEnd(x);
        assert Token(x) in Tokens(x);
        QuietStays(x[e + 1..], rule);
        assert x[..e + 1] + x[e + 1..] == x;
      } else {
        QuietStays(x[1..], rule);
      }
    }
  }

  lemma {:induction false} RewriteSpends(x: string, rule: Rule)
    requires Spends(Tokens(x), rule)
    ensures Dollars(Rewrite(x, rule)) <= Dollars(x)
    ensures !Quiet(Tokens(x), rule) ==> Dollars(Rewrite(x, rule)) < Dollars(x)
    decreases |x|
  {
    if x != "" {
      if Hole(x) {
        var rest := x[HoleEnd(x) + 1..];
        assert Token(x) in Tokens(x);
        RewriteSpends(rest, rule);
        HoleDollars(x);
        DollarsConcat(Text(x, rule), Rewrite(rest, rule));
      } else {
        RewriteSpends(x[1..], rule);
        DollarsConcat([x[0]], Rewrite(x[1..], rule));
        assert x == [x[0]] + x[1..];
        DollarsConcat([x[0]], x[1..]);
      }
    }
  }

  /** A pass changes nothing exactly when it replaces nothing. */
  lemma PassExact(x: string, rule: Rule)
    requires Spends(Tokens(x), rule)
    ensures Rewrite(x, rule) == x <==> Quiet(Tokens(x), rule)
  {
    RewriteSpends(x, rule);
    if Quiet(Tokens(x), rule) {
      QuietStays(x, rule);
    }
  }

  function HoleOf(name: string): string {
    "${" + name + "}"
  }

  /** One placeholder in front of other text. */
  lemma LeadingHole(name: string, rest: string)
    requires '}' !in name
    ensures var s := HoleOf(name) + rest;
            Hole(s) && Token(s) == name && s[HoleEnd(s) + 1..] == rest
  {
    var s := HoleOf(name) + rest;
    var p := HoleOf(name);
    FirstClose(p, 2);
    FindPrefix(p, rest, '}', 2);
    var e := Find(p, '}', 2);
    assert forall k :: 0 <= k < |name| ==> name[k] in name && p[k + 2] == name[k];
    assert s[2..e] == name;
  }

  /** Without that a variable whose value is its own placeholder is replaced and
      nothing changes. */
  lemma OwnPlaceholderStands(name: string, rule: Rule)
    requires '}' !in name && rule(name) == Some(HoleOf(name) + "")
    ensures var x := HoleOf(name) + "";
            Rewrite(x, rule) == x && !Quiet(Tokens(x), rule)
  {
    var x := HoleOf(name) + "";
    LeadingHole(name, "");
    assert Token(x) in Tokens(x);
  }

  // ---------------------------------------------------------- both passes

  /** A default is part of its token, so only looked-up values matter. */
  lemma ReplaceSpends(tokens: seq<string>, lookup: string -> Option<string>)
    requires forall t :: t in tokens && lookup(VarOf(t)).Some? ==> '$' !in lookup(VarOf(t)).value
    ensures Spends(tokens, ReplaceRule(lookup))
  {
    forall t | t in tokens && ReplaceRule(lookup)(t).Some?
      ensures Dollars(ReplaceRule(lookup)(t).value) <= Dollars(t)
    {
      if lookup(VarOf(t)).Some? {
        NoDollars(lookup(VarOf(t)).value);
      } else {
        var d := FindDelim(t, 0);
        assert t == t[..d + 2] + t[d + 2..];
        DollarsConcat(t[..d + 2], t[d + 2..]);
      }
    }
  }

  /** What the second pass would replace. */
  predicate Replaces(lookup: string -> Option<string>, t: string) {
    lookup(VarOf(t)).Some? || (DefaultOf(t).Some? && DefaultOf(t).value != "")
  }

  /** The two passes, whatever the first put in: the second changes nothing
      exactly when it can look up none of the placeholders now in the text and
      none of them has a default. */
  lemma PipelineExact(s: string, first: string -> Option<string>, second: string -> Option<string>)
    requires var x := Rewrite(s, ExpandRule(first));
             forall t :: t in Tokens(x) && second(VarOf(t)).Some? ==> '$' !in second(VarOf(t)).value
    ensures var x := Rewrite(s, ExpandRule(first));
            Rewrite(x, ReplaceRule(second)) == x <==> forall t :: t in Tokens(x) ==> !Replaces(second, t)
  {
    var x := Rewrite(s, ExpandRule(first));
    ReplaceSpends(Tokens(x), second);
    PassExact(x, ReplaceRule(second));
    assert forall t :: ReplaceRule(second)(t) == None <==> !Replaces(second, t);
  }

  // ------------------------------------------- which placeholders are there

  /** Cannot become part of a placeholder with the text around it. */
  predicate Inert(v: string) {
    v != "" && v[0] != '{' && '$' !in v
  }

  predicate PutsInInert(tokens: seq<string>, rule: Rule) {
    forall t :: t in tokens && rule(t).Some? ==> Inert(rule(t).value)
  }

  function Standing(tokens: seq<string>, rule: Rule): seq<string> {
    if tokens == [] then []
    else (if rule(tokens[0]) == None then [tokens[0]] else []) + Standing(tokens[1..], rule)
  }

  lemma {:induction false} StandingMeaning(tokens: seq<string>, rule: Rule)
    ensures forall t :: t in Standing(tokens, rule) <==> t in tokens && rule(t) == None
  {
    if tokens != [] {
      StandingMeaning(tokens[1..], rule);
      assert tokens == [tokens[0]] + tokens[1..];
    }
  }

  lemma {:induction false} InertKept(v: string, rest: string)
    requires '$' !in v
    ensures Tokens(v + rest) == Tokens(rest)
  {
    if v == "" {
      assert v + rest == rest;
    } else {
      assert v[0] in v;
      assert (v + rest)[1..] == v[1..] + rest;
      InertKept(v[1..], rest);
    }
  }

  lemma {:induction false} FindPrefix(p: string, rest: string, c: char, from: nat)
    requires from <= |p| && Find(p, c, from) < |p|
    ensures Find(p + rest, c, from) == Find(p, c, from)
    decreases |p| - from
  {
    if p[from] != c {
      FindPrefix(p, rest, c, from + 1);
    }
  }

  lemma {:induction false} FirstClose(p: string, from: nat)
    requires from < |p| && p[|p| - 1] == '}'
    ensures Find(p, '}', from) < |p|
    decreases |p| - from
  {
    if p[from] != '}' {
      FirstClose(p, from + 1);
    }
  }

  lemma StandsStill(s: string, rest: string)
    requires Hole(s)
    ensures Tokens(s[..HoleEnd(s) + 1] + rest) == [Token(s)] + Tokens(rest)
  {
    var e := HoleEnd(s);
    var p := s[..e + 1];
    var out := p + rest;
    assert s == p + s[e + 1..];
    FirstClose(p, 2);
    FindPrefix(p, rest, '}', 2);
    FindPrefix(p, s[e + 1..], '}', 2);
    assert out[2..e] == s[2..e];
    assert out[e + 1..] == rest;
  }

  lemma HoleText(t: string, rule: Rule)
    requires Hole(t) && PutsInInert(Tokens(t), rule)
    ensures Rewrite(t, rule) != "" && Rewrite(t, rule)[0] != '{'
  {
    assert Token(t) in Tokens(t);
  }

  /** No placeholder forms where a copied character meets what follows. */
  lemma NoneForms(s: string, rule: Rule)
    requires s != "" && !Hole(s) && PutsInInert(Tokens(s), rule)
    ensures !Hole([s[0]] + Rewrite(s[1..], rule))
  {
    var out := Rewrite(s[1..], rule);
    if s[0] == '$' && out != "" && out[0] == '{' {
      var t := s[1..];
      assert !Hole(t) by {
        if Hole(t) {
          HoleText(t, rule);
        }
      }
      assert s[1] == '{';
      assert forall i :: 1 <= i < |t| ==> t[i] == s[i + 1];
      NoCloseCopied(t, rule);
      assert [s[0]] + t == s;
    }
  }

  /** After a pass that puts in only inert text the placeholders are exactly
      those it left standing, in order: none is lost and none is formed. */
  lemma {:induction false} TokensAfter(s: string, rule: Rule)
    requires PutsInInert(Tokens(s), rule)
    ensures Tokens(Rewrite(s, rule)) == Standing(Tokens(s), rule)
    decreases |s|
  {
    if s != "" {
      if Hole(s) {
        var rest := s[HoleEnd(s) + 1..];
        assert Tokens(s)[1..] == Tokens(rest) && Token(s) in Tokens(s);
        TokensAfter(rest, rule);
        match rule(Token(s))
        case Some(v) => InertKept(v, Rewrite(rest, rule));
        case None => StandsStill(s, Rewrite(rest, rule));
      } else {
        TokensAfter(s[1..], rule);
        NoneForms(s, rule);
        var out := [s[0]] + Rewrite(s[1..], rule);
        assert out[1..] == Rewrite(s[1..], rule);
      }
    }
  }

  /** After inert text was put in, the second rule changes nothing if it
      replaces none of what the first left standing, and if it never adds
      dollar signs, only then. */
  lemma SecondPass(s: string, f: Rule, g: Rule)
    requires PutsInInert(Tokens(s), f)
    ensures Quiet(Standing(Tokens(s), f), g) ==> Rewrite(Rewrite(s, f), g) == Rewrite(s, f)
    ensures Spends(Standing(Tokens(s), f), g) && Rewrite(Rewrite(s, f), g) == Rewrite(s, f) ==> Quiet(Standing(Tokens(s), f), g)
  {
    TokensAfter(s, f);
    if Quiet(Standing(Tokens(s), f), g) {
      QuietStays(Rewrite(s, f), g);
    }
    if Spends(Standing(Tokens(s), f), g) {
      PassExact(Rewrite(s, f), g);
    }
  }

  function Lookup(cli: map<string, string>, env: map<string, string>, props: map<string, string>): string -> Option<string> {
    (name: string) => Resolve(cli, env, props, name)
  }

  /** The two passes as the HTTP client's configuration runs them: the same
      command line and environment, the second with the application's
      properties in place of the overrides. If what the first puts in is inert,
      the second does nothing exactly when the properties define none of the
      variables left standing. */
  lemma ExpandThenReplace(s: string, cli: map<string, string>, env: map<string, string>,
                          overrides: map<string, string>, props: map<string, string>)
    requires PutsInInert(Tokens(s), ExpandRule(Lookup(cli, env, overrides)))
    requires forall k :: k in props ==> '$' !in props[k]
    ensures var f := ExpandRule(Lookup(cli, env, overrides));
            var x := Rewrite(s, f);
            Rewrite(x, ReplaceRule(Lookup(cli, env, props))) == x <==>
            forall t :: t in Tokens(s) && f(t) == None ==> VarOf(t) !in props
  {
    var f, second := ExpandRule(Lookup(cli, env, overrides)), Lookup(cli, env, props);
    TokensAfter(s, f);
    StandingMeaning(Tokens(s), f);
    forall t | t in Standing(Tokens(s), f)
      ensures second(VarOf(t)) == if VarOf(t) in props then Some(props[VarOf(t)]) else None
      ensures DefaultOf(t) == None
    {
      assert f(t) == None;
    }
    PipelineExact(s, Lookup(cli, env, overrides), second);
  }

  /** Where something empty is put in, a placeholder can form that the text did
      not have: it is replaced like any other. */
  lemma EmptySubstitutionGlues(empty: string, name: string, rule: Rule)
    requires '}' !in empty && '}' !in name && '$' !in name && rule(empty) == Some("")
    ensures var s := "$" + (HoleOf(empty) + ("{" + name + "}"));
            Tokens(s) == [empty] && Rewrite(s, rule) == HoleOf(name) && Tokens(HoleOf(name)) == [name]
  {
    var rest := "{" + name + "}";
    var s := HoleOf(empty) + rest;
    EmptyHole(empty, rest, rule);
    DollarInFront(s, rule);
    OneHole(name);
    assert HoleOf(name) == "$" + rest;
  }

  lemma EmptyHole(empty: string, rest: string, rule: Rule)
    requires '}' !in empty && '$' !in rest && rule(empty) == Some("")
    ensures Rewrite(HoleOf(empty) + rest, rule) == rest && Tokens(HoleOf(empty) + rest) == [empty]
  {
    LeadingHole(empty, rest);
    CopiedWhole(rest, rule);
    assert "" + rest == rest;
  }

  lemma DollarInFront(s: string, rule: Rule)
    requires s != "" && s[0] != '{'
    ensures Rewrite("$" + s, rule) == "$" + Rewrite(s, rule) && Tokens("$" + s) == Tokens(s)
  {
    assert ("$" + s)[1..] == s && !Hole("$" + s);
  }

  lemma OneHole(name: string)
    requires '}' !in name
    ensures Tokens(HoleOf(name)) == [name]
  {
    LeadingHole(name, "");
    assert HoleOf(name) + "" == HoleOf(name);
  }

  lemma CopiedWhole(v: string, rule: Rule)
    requires '$' !in v
    ensures Rewrite(v, rule) == v && Tokens(v) == []
  {
    InertKept(v, "");
    assert v + "" == v;
    QuietStays(v, rule);
  }
}
