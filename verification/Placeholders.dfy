/** `${VAR}` and `${VAR:-default}`: the one-pass builder `expand_env_in_string`,
    the in-place rewrite `replace_env_var`, and what one does to the output of
    the other. */
module Placeholders {
  import opened Common

  // ---------------------------------------------------------------- lookup

  /** Command line first, then a non-empty environment variable, then the
      properties. Both expansions look a variable up this way. */
  function Resolve(cli: map<string, string>, env: map<string, string>, props: map<string, string>, name: string): Option<string> {
    if name in cli then Some(cli[name])
    else if name in env && env[name] != "" then Some(env[name])
    else if name in props then Some(props[name])
    else None
  }

  /** First index of `c` from `from` on, the length if there is none. */
  function Find(s: string, c: char, from: nat): (i: nat)
    requires from <= |s|
    ensures from <= i <= |s|
    ensures i < |s| ==> s[i] == c
    ensures forall j :: from <= j < i ==> s[j] != c
    decreases |s| - from
  {
    if from == |s| || s[from] == c then from else Find(s, c, from + 1)
  }

  predicate Opens(s: string, i: nat) {
    i + 1 < |s| && s[i] == '$' && s[i + 1] == '{'
  }

  /** First "${" from `from` on, the length if there is none. */
  function FindOpen(s: string, from: nat): (i: nat)
    requires from <= |s|
    ensures from <= i <= |s|
    ensures i < |s| ==> Opens(s, i)
    ensures forall j: nat :: from <= j < i ==> !Opens(s, j)
    decreases |s| - from
  {
    if from == |s| || Opens(s, from) then from else FindOpen(s, from + 1)
  }

  /** First ":-", the length if there is none. */
  function FindDelim(s: string, from: nat): (i: nat)
    requires from <= |s|
    ensures from <= i <= |s|
    ensures i < |s| ==> i + 1 < |s| && s[i] == ':' && s[i + 1] == '-'
    decreases |s| - from
  {
    if from == |s| then |s|
    else if from + 1 < |s| && s[from] == ':' && s[from + 1] == '-' then from
    else FindDelim(s, from + 1)
  }

  function VarOf(token: string): string {
    token[..FindDelim(token, 0)]
  }

  function DefaultOf(token: string): Option<string> {
    var d := FindDelim(token, 0);
    if d < |token| then Some(token[d + 2..]) else None
  }

  // ------------------------------------------------------ what either means

  /** What a token is replaced by; None leaves the placeholder as it is. */
  type Rule = string -> Option<string>

  function ExpandRule(lookup: string -> Option<string>): Rule {
    (token: string) =>
      var r := lookup(VarOf(token));
      if r.Some? then r else DefaultOf(token)
  }

  /** The same, but an empty default counts as none. */
  function ReplaceRule(lookup: string -> Option<string>): Rule {
    (token: string) =>
      var r := lookup(VarOf(token));
      if r.Some? then r
      else if DefaultOf(token).Some? && DefaultOf(token).value != "" then DefaultOf(token)
      else None
  }

  /** A placeholder at the very start: "${", and a "}" somewhere behind. */
  predicate Hole(s: string) {
    Opens(s, 0) && Find(s, '}', 2) < |s|
  }

  function HoleEnd(s: string): (e: nat)
    requires Hole(s)
    ensures 2 <= e < |s|
  {
    Find(s, '}', 2)
  }

  function Token(s: string): string
    requires Hole(s)
  {
    s[2..HoleEnd(s)]
  }

  function Text(s: string, rule: Rule): string
    requires Hole(s)
  {
    match rule(Token(s))
    case Some(v) => v
    case None => s[..HoleEnd(s) + 1]
  }

  /** Left to right: placeholders by the rule, all else copied. */
  function Rewrite(s: string, rule: Rule): string
    decreases |s|
  {
    if s == "" then ""
    else if Hole(s) then Text(s, rule) + Rewrite(s[HoleEnd(s) + 1..], rule)
    else [s[0]] + Rewrite(s[1..], rule)
  }

  /** The tokens met on the way, which do not depend on the rule. */
  function Tokens(s: string): seq<string>
    decreases |s|
  {
    if s == "" then []
    else if Hole(s) then [Token(s)] + Tokens(s[HoleEnd(s) + 1..])
    else Tokens(s[1..])
  }

  // ------------------------------------------------------- the two loops

  lemma FindShift(s: string, i: nat, c: char, from: nat)
    requires i + from <= |s|
    ensures Find(s[i..], c, from) == Find(s, c, i + from) - i
    decreases |s| - i - from
  {
    if from < |s[i..]| && s[i..][from] != c {
      FindShift(s, i, c, from + 1);
    }
  }

  lemma HoleAt(s: string, i: nat)
    requires i <= |s|
    ensures Hole(s[i..]) <==> Opens(s, i) && Find(s, '}', i + 2) < |s|
    ensures Hole(s[i..]) ==>
              var e := Find(s, '}', i + 2);
              HoleEnd(s[i..]) == e - i && Token(s[i..]) == s[i + 2..e]
              && s[i..][..HoleEnd(s[i..]) + 1] == s[i..e + 1] && s[i..][HoleEnd(s[i..]) + 1..] == s[e + 1..]
  {
    if i + 2 <= |s| {
      FindShift(s, i, '}', 2);
    }
  }

  lemma Behind(done: string, text: string, rest: string, whole: string)
    requires whole == text + rest
    ensures done + whole == (done + text) + rest
  {
  }

  predicate HoleFrom(s: string, i: nat) {
    i <= |s| && Opens(s, i) && Find(s, '}', i + 2) < |s|
  }

  /** What the placeholder at `i` becomes. */
  function TextAt(s: string, i: nat, rule: Rule): string
    requires HoleFrom(s, i)
  {
    var e := Find(s, '}', i + 2);
    match rule(s[i + 2..e]) case Some(v) => v case None => s[i..e + 1]
  }

  lemma TextThere(s: string, i: nat, rule: Rule)
    requires HoleFrom(s, i)
    ensures Hole(s[i..]) && Text(s[i..], rule) == TextAt(s, i, rule)
    ensures s[i..][HoleEnd(s[i..]) + 1..] == s[Find(s, '}', i + 2) + 1..]
  {
    HoleAt(s, i);
  }

  lemma RewriteHole(t: string, rule: Rule)
    requires Hole(t)
    ensures Rewrite(t, rule) == Text(t, rule) + Rewrite(t[HoleEnd(t) + 1..], rule)
  {
  }

  lemma RewriteFrom(s: string, i: nat, t: string, rule: Rule)
    requires HoleFrom(s, i) && t == s[i..]
    ensures Rewrite(t, rule) == TextAt(s, i, rule) + Rewrite(s[Find(s, '}', i + 2) + 1..], rule)
  {
    TextThere(s, i, rule);
    RewriteHole(t, rule);
  }

  lemma RewriteHoleAt(s: string, i: nat, rule: Rule, done: string)
    requires HoleFrom(s, i)
    ensures done + Rewrite(s[i..], rule) == (done + TextAt(s, i, rule)) + Rewrite(s[Find(s, '}', i + 2) + 1..], rule)
  {
    RewriteFrom(s, i, s[i..], rule);
    Behind(done, TextAt(s, i, rule), Rewrite(s[Find(s, '}', i + 2) + 1..], rule), Rewrite(s[i..], rule));
  }

  lemma RewriteCharAt(s: string, i: nat, rule: Rule, done: string)
    requires i < |s| && !HoleFrom(s, i)
    ensures done + Rewrite(s[i..], rule) == done + [s[i]] + Rewrite(s[i + 1..], rule)
  {
    HoleAt(s, i);
    assert s[i..][1..] == s[i + 1..];
  }

  method SplitToken(token: string) returns (name: string, default: Option<string>)
    ensures name == VarOf(token) && default == DefaultOf(token)
  {
    name, default := token, None;
    var delim := FindDelim(token, 0);
    if delim < |token| {
      name, default := token[..delim], Some(token[delim + 2..]);
    } else {
      assert token[..delim] == token;
    }
  }

  /** `out` is what the input up to `i` becomes. */
  ghost predicate Built(s: string, i: nat, rule: Rule, out: string) {
    i <= |s| && out + Rewrite(s[i..], rule) == Rewrite(s, rule)
  }

  /** What is appended for position `i`, and the position after it. */
  function Piece(s: string, i: nat, rule: Rule): (string, nat)
    requires i < |s|
  {
    if HoleFrom(s, i) then (TextAt(s, i, rule), Find(s, '}', i + 2) + 1) else ([s[i]], i + 1)
  }

  ghost predicate Builds(s: string, i: nat, rule: Rule, out: string)
    requires i < |s|
  {
    Built(s, Piece(s, i, rule).1, rule, out + Piece(s, i, rule).0)
  }

  lemma BuiltHole(s: string, i: nat, rule: Rule, out: string)
    requires i < |s| && Built(s, i, rule, out) && HoleFrom(s, i)
    ensures Builds(s, i, rule, out)
  {
    RewriteHoleAt(s, i, rule, out);
  }

  lemma BuiltChar(s: string, i: nat, rule: Rule, out: string)
    requires i < |s| && Built(s, i, rule, out) && !HoleFrom(s, i)
    ensures Builds(s, i, rule, out)
  {
    RewriteCharAt(s, i, rule, out);
  }

  lemma BuiltStep(s: string, i: nat, rule: Rule, out: string)
    requires i < |s| && Built(s, i, rule, out)
    ensures Builds(s, i, rule, out)
  {
    if HoleFrom(s, i) {
      BuiltHole(s, i, rule, out);
    } else {
      BuiltChar(s, i, rule, out);
    }
  }

  lemma BuiltEnds(s: string, rule: Rule, out: string)
    ensures Built(s, 0, rule, "")
    ensures Built(s, |s|, rule, out) ==> out == Rewrite(s, rule)
  {
    assert s[0..] == s && s[|s|..] == "";
  }

  method ExpandOne(input: string, i: nat, lookup: string -> Option<string>) returns (text: string, i': nat)
    requires i < |input|
    ensures (text, i') == Piece(input, i, ExpandRule(lookup))
  {
    if input[i] == '$' && i + 1 < |input| && input[i + 1] == '{' {
      var end := Find(input, '}', i + 2);
      if end < |input| {
        var name, default := SplitToken(input[i + 2..end]);
        var resolved := lookup(name);
        if resolved.Some? {
          text := resolved.value;
        } else if default.Some? {
          text := default.value;
        } else {
          text := input[i..end + 1];
        }
        return text, end + 1;
      }
    }
    return [input[i]], i + 1;
  }

  /** `expand_env_in_string`: one pass over the input, appending to `out`. */
  method ExpandEnvInString(input: string, lookup: string -> Option<string>) returns (out: string)
    ensures out == Rewrite(input, ExpandRule(lookup))
  {
    out := "";
    var i: nat := 0;
    BuiltEnds(input, ExpandRule(lookup), "");
    while i < |input|
      invariant Built(input, i, ExpandRule(lookup), out)
    {
      var text, i' := ExpandOne(input, i, lookup);
      BuiltStep(input, i, ExpandRule(lookup), out);
      out, i := out + text, i';
    }
    BuiltEnds(input, ExpandRule(lookup), out);
  }

  /** Text without a placeholder in it is copied. */
  lemma {:induction false} RewriteSkip(s: string, n: nat, rule: Rule)
    requires n <= |s| && forall i :: 0 <= i < n ==> !Hole(s[i..])
    ensures Rewrite(s, rule) == s[..n] + Rewrite(s[n..], rule)
  {
    if n > 0 {
      assert s[0..] == s;
      forall i | 0 <= i < n - 1 ensures !Hole(s[1..][i..]) {
        assert s[1..][i..] == s[i + 1..];
      }
      RewriteSkip(s[1..], n - 1, rule);
      assert s[1..][n - 1..] == s[n..];
    } else {
      assert s[0..] == s;
    }
  }

  method Replacement(token: string, lookup: string -> Option<string>) returns (r: Option<string>)
    ensures r == ReplaceRule(lookup)(token)
  {
    var name, default := SplitToken(token);
    var resolved := lookup(name);
    if resolved.Some? {
      r := resolved;
    } else if default.Some? && default.value != "" {
      r := default;
    } else {
      r := None;
    }
  }

  /** What the buffers become, the first scanned to `pos`, the second to
      `pos'`, is the same. */
  ghost predicate Same(s: string, pos: nat, s': string, pos': nat, rule: Rule) {
    && pos <= |s| && pos' <= |s'|
    && s[..pos] + Rewrite(s[pos..], rule) == s'[..pos'] + Rewrite(s'[pos'..], rule)
  }

  lemma SameThen(s: string, p: nat, t: string, q: nat, u: string, r: nat, rule: Rule)
    requires Same(s, p, t, q, rule) && Same(t, q, u, r, rule)
    ensures Same(s, p, u, r, rule)
  {
  }

  lemma SameEnds(s: string, t: string, rule: Rule)
    ensures Same(s, 0, s, 0, rule)
    ensures Same(s, 0, t, |t|, rule) ==> t == Rewrite(s, rule)
  {
    assert s[0..] == s && t[|t|..] == "" && t[..|t|] == t;
    assert s[..0] + Rewrite(s, rule) == Rewrite(s, rule);
  }

  /** The buffer after the placeholder at `start` became `text`. */
  function Splice(s: string, start: nat, text: string): string
    requires HoleFrom(s, start)
  {
    s[..start] + text + s[Find(s, '}', start + 2) + 1..]
  }

  method ReplaceOne(output: string, start: nat, end: nat, lookup: string -> Option<string>)
    returns (output': string, pos': nat)
    requires HoleFrom(output, start) && end == Find(output, '}', start + 2)
    ensures output' == Splice(output, start, TextAt(output, start, ReplaceRule(lookup)))
    ensures pos' == start + |TextAt(output, start, ReplaceRule(lookup))|
  {
    var replacement := Replacement(output[start + 2..end], lookup);
    if replacement.None? {
      output', pos' := output, end + 1;
      assert output == output[..start] + output[start..end + 1] + output[end + 1..];
    } else {
      output' := output[..start] + replacement.value + output[end + 1..];
      pos' := start + |replacement.value|;
    }
  }

  /** One round of the rewrite: the next placeholder from `pos` on is replaced
      in the buffer, or left standing and passed over; what is left to scan
      strictly falls. */
  method ReplaceRound(output: string, pos: nat, lookup: string -> Option<string>)
    returns (output': string, pos': nat, over: bool)
    requires pos <= |output|
    ensures Same(output, pos, output', pos', ReplaceRule(lookup))
    ensures if over then pos' == |output'| else |output'| - pos' < |output| - pos
  {
    ghost var rule := ReplaceRule(lookup);
    output', pos', over := output, |output|, true;
    var start := FindOpen(output, pos);
    SkipTo(output, pos, start, rule);
    if start == |output| {
      return;
    }
    var end := Find(output, '}', start + 2);
    if end == |output| {
      Unclosed(output, start, rule);
    } else {
      over := false;
      output', pos' := ReplaceOne(output, start, end, lookup);
      SpliceStep(output, start, rule);
    }
    SameThen(output, pos, output, start, output', pos', rule);
  }

  /** `replace_env_var`: the buffer itself is rewritten, growing and shrinking. */
  method ReplaceEnvVar(input: string, lookup: string -> Option<string>) returns (output: string)
    ensures output == Rewrite(input, ReplaceRule(lookup))
  {
    output := input;
    var pos: nat, over := 0, false;
    ghost var rule := ReplaceRule(lookup);
    SameEnds(input, output, rule);
    while !over
      invariant Same(input, 0, output, pos, rule)
      invariant over ==> pos == |output|
      decreases !over, |output| - pos
    {
      ghost var was, from := output, pos;
      output, pos, over := ReplaceRound(output, pos, lookup);
      SameThen(input, 0, was, from, output, pos, rule);
    }
    SameEnds(input, output, rule);
  }

  lemma Unclosed(s: string, start: nat, rule: Rule)
    requires start <= |s| && Opens(s, start) && Find(s, '}', start + 2) == |s|
    ensures Same(s, start, s, |s|, rule)
  {
    HoleAt(s, start);
    var t := s[start..];
    assert forall i :: 2 <= i < |t| ==> t[i] == s[start + i];
    NoCloseCopied(t, rule);
    assert s[..start] + t == s && s[|s|..] == "" && s[..|s|] == s;
  }

  /** A placeholder left standing is one replaced by itself. */
  lemma SpliceStep(s: string, start: nat, rule: Rule)
    requires HoleFrom(s, start)
    ensures var text := TextAt(s, start, rule);
            && |Splice(s, start, text)| - (start + |text|) < |s| - start
            && Same(s, start, Splice(s, start, text), start + |text|, rule)
  {
    var text, rest := TextAt(s, start, rule), s[Find(s, '}', start + 2) + 1..];
    RewriteHoleAt(s, start, rule, s[..start]);
    SameFrom(s, start, s[..start] + text, rest, rule);
  }

  lemma SameFrom(s: string, pos: nat, head: string, rest: string, rule: Rule)
    requires pos <= |s| && s[..pos] + Rewrite(s[pos..], rule) == head + Rewrite(rest, rule)
    ensures Same(s, pos, head + rest, |head|, rule)
  {
    assert (head + rest)[..|head|] == head && (head + rest)[|head|..] == rest;
  }

  lemma NoHoles(s: string, from: nat, to: nat)
    requires from <= to <= |s| && forall j: nat :: from <= j < to ==> !Opens(s, j)
    ensures forall i :: 0 <= i < to - from ==> !Hole(s[from..][i..])
  {
    forall i | 0 <= i < to - from ensures !Hole(s[from..][i..]) {
      assert s[from..][i..] == s[from + i..];
      HoleAt(s, from + i);
    }
  }

  lemma CutTwice(s: string, from: nat, to: nat, rest: string)
    requires from <= to <= |s|
    ensures s[from..][to - from..] == s[to..]
    ensures s[..from] + (s[from..][..to - from] + rest) == s[..to] + rest
    ensures to == |s| ==> s[..to] == s && s[to..] == ""
  {
  }

  lemma SkipTo(s: string, from: nat, to: nat, rule: Rule)
    requires from <= to <= |s| && forall j: nat :: from <= j < to ==> !Opens(s, j)
    ensures Same(s, from, s, to, rule)
  {
    NoHoles(s, from, to);
    RewriteSkip(s[from..], to - from, rule);
    CutTwice(s, from, to, Rewrite(s[to..], rule));
  }

  /** Without a "}" nothing is replaced. */
  lemma {:induction false} NoCloseCopied(s: string, rule: Rule)
    requires !Hole(s) && forall i :: 2 <= i < |s| ==> s[i] != '}'
    ensures Rewrite(s, rule) == s
  {
    if s != "" {
      assert forall i :: 1 <= i < |s[1..]| ==> s[1..][i] == s[i + 1];
      NoCloseCopied(s[1..], rule);
    }
  }

  // ----------------------------------------------- the two loops compared

  lemma {:induction false} SameRewrite(s: string, f: Rule, g: Rule)
    requires forall t :: t in Tokens(s) ==> f(t) == g(t)
    ensures Rewrite(s, f) == Rewrite(s, g)
    decreases |s|
  {
    if s != "" {
      if Hole(s) {
        assert Token(s) in Tokens(s);
        SameRewrite(s[HoleEnd(s) + 1..], f, g);
      } else {
        SameRewrite(s[1..], f, g);
      }
    }
  }

  /** A variable nobody defines, written with an empty default. */
  predicate EmptyDefault(lookup: string -> Option<string>, token: string) {
    lookup(VarOf(token)) == None && DefaultOf(token) == Some("")
  }

  lemma {:induction false} ExpandedNotLonger(s: string, lookup: string -> Option<string>)
    ensures |Rewrite(s, ExpandRule(lookup))| <= |Rewrite(s, ReplaceRule(lookup))|
    ensures (exists t :: t in Tokens(s) && EmptyDefault(lookup, t)) ==>
              |Rewrite(s, ExpandRule(lookup))| < |Rewrite(s, ReplaceRule(lookup))|
    decreases |s|
  {
    if s != "" {
      if Hole(s) {
        ExpandedNotLonger(s[HoleEnd(s) + 1..], lookup);
      } else {
        ExpandedNotLonger(s[1..], lookup);
      }
    }
  }

  /** For the same lookup the in-place rewrite and the builder agree exactly
      when no undefined variable with an empty default is met: the builder then
      drops the placeholder, the rewrite leaves it standing. */
  lemma RewritesAgree(s: string, lookup: string -> Option<string>)
    ensures Rewrite(s, ReplaceRule(lookup)) == Rewrite(s, ExpandRule(lookup)) <==>
            forall t :: t in Tokens(s) ==> !EmptyDefault(lookup, t)
  {
    if forall t :: t in Tokens(s) ==> !EmptyDefault(lookup, t) {
      SameRewrite(s, ReplaceRule(lookup), ExpandRule(lookup));
    }
    ExpandedNotLonger(s, lookup);
  }
}
