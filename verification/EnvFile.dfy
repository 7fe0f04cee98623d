/** The `.properties` / env-file parser, from the text of the file to the map,
    and a printer it undoes. */
module EnvFile {
  import opened Common

  predicate Blank(c: char) {
    c == ' ' || c == '\t'
  }

  // ------------------------------------------------------- what parsing means

  function Ltrim(s: string): string {
    if s != "" && Blank(s[0]) then Ltrim(s[1..]) else s
  }

  function Rtrim(s: string): string {
    if s != "" && Blank(s[|s| - 1]) then Rtrim(s[..|s| - 1]) else s
  }

  /** First index from `i` on that ends a key. */
  function KeyEnd(s: string, i: nat): (e: nat)
    requires i <= |s|
    ensures i <= e <= |s|
    ensures forall j :: i <= j < e ==> s[j] != '=' && !Blank(s[j])
    ensures e < |s| ==> s[e] == '=' || Blank(s[e])
    decreases |s| - i
  {
    if i == |s| || s[i] == '=' || Blank(s[i]) then i else KeyEnd(s, i + 1)
  }

  function SkipBlank(s: string, i: nat): (e: nat)
    requires i <= |s|
    ensures i <= e <= |s|
    ensures e < |s| ==> !Blank(s[e])
    decreases |s| - i
  {
    if i < |s| && Blank(s[i]) then SkipBlank(s, i + 1) else i
  }

  /** Up to the first '#'. */
  function BeforeComment(s: string): string {
    if s == "" || s[0] == '#' then "" else [s[0]] + BeforeComment(s[1..])
  }

  /** What stands before the closing quote, backslashes taken off. */
  function Quoted(s: string, quote: char, escaped: bool): string {
    if s == "" then ""
    else if escaped then [s[0]] + Quoted(s[1..], quote, false)
    else if s[0] == '\\' then Quoted(s[1..], quote, true)
    else if s[0] == quote then ""
    else [s[0]] + Quoted(s[1..], quote, false)
  }

  function ValueOf(s: string): string {
    if s == "" then ""
    else if s[0] == '"' || s[0] == '\'' then Quoted(s[1..], s[0], false)
    else Ltrim(Rtrim(BeforeComment(s)))
  }

  function DropCr(line: string): string {
    if line != "" && line[|line| - 1] == '\r' then line[..|line| - 1] else line
  }

  predicate IsExport(line: string) {
    |line| >= 6 && line[..6] == "export" && (|line| == 6 || Blank(line[6]))
  }

  predicate Skipped(line: string) {
    line == "" || line[0] == '#'
  }

  function DropPlus(key: string): string {
    if key != "" && key[|key| - 1] == '+' then key[..|key| - 1] else key
  }

  /** An assignment, blanks around it already gone. */
  function Assignment(line: string): Option<(string, string)> {
    var i := KeyEnd(line, 0);
    var key := Rtrim(line[..i]);
    var j := SkipBlank(line, i);
    if key == "" || j == |line| || line[j] != '=' then None
    else Some((DropPlus(key), ValueOf(line[SkipBlank(line, j + 1)..])))
  }

  /** One line: an assignment, or nothing. */
  function ParseLine(line: string): Option<(string, string)> {
    var l1 := Ltrim(DropCr(line));
    if Skipped(l1) then None
    else
      var l2 := if IsExport(l1) then Ltrim(l1[6..]) else l1;
      if Skipped(l2) then None else Assignment(l2)
  }

  type Env = map<string, string>

  function Assign(env: Env, pairs: seq<(string, string)>): Env
    decreases pairs
  {
    if pairs == [] then env else Assign(env[pairs[0].0 := pairs[0].1], pairs[1..])
  }

  function ParseLines(env: Env, lines: seq<string>): Env
    decreases lines
  {
    if lines == [] then env
    else
      match ParseLine(lines[0])
      case Some((k, v)) => ParseLines(env[k := v], lines[1..])
      case None => ParseLines(env, lines[1..])
  }

  /** What reading line by line yields: no line after a final newline. */
  function Lines(text: string): seq<string> {
    if text == "" then []
    else
      var n := FirstNewline(text);
      if n == |text| then [text] else [text[..n]] + Lines(text[n + 1..])
  }

  function FirstNewline(text: string): (n: nat)
    ensures n <= |text|
    ensures n < |text| ==> text[n] == '\n'
    ensures forall i :: 0 <= i < n ==> text[i] != '\n'
  {
    if text == "" || text[0] == '\n' then 0 else 1 + FirstNewline(text[1..])
  }

  // ------------------------------------------------------------- the parser

  method LtrimInPlace(line: string) returns (s: string)
    ensures s == Ltrim(line)
  {
    var i := 0;
    assert line[0..] == line;
    while i < |line| && Blank(line[i])
      invariant i <= |line| && Ltrim(line) == Ltrim(line[i..])
    {
      assert line[i..][1..] == line[i + 1..];
      i := i + 1;
    }
    s := line[i..];
  }

  method RtrimInPlace(line: string) returns (s: string)
    ensures s == Rtrim(line)
  {
    var i := |line|;
    assert line[..i] == line;
    while i > 0 && Blank(line[i - 1])
      invariant i <= |line| && Rtrim(line) == Rtrim(line[..i])
    {
      assert line[..i][..i - 1] == line[..i - 1];
      i := i - 1;
    }
    s := line[..i];
  }

  method ScanQuoted(line: string, start: nat) returns (value: string)
    requires start < |line|
    ensures value == Quoted(line[start + 1..], line[start], false)
  {
    var quote := line[start];
    var j := start + 1;
    value := "";
    var escape := false;
    while j < |line|
      invariant start < j <= |line|
      invariant value + Quoted(line[j..], quote, escape) == Quoted(line[start + 1..], quote, false)
    {
      var c := line[j];
      assert line[j..][1..] == line[j + 1..];
      if escape {
        value := value + [c];
        escape := false;
      } else if c == '\\' {
        escape := true;
      } else if c == quote {
        return;
      } else {
        value := value + [c];
      }
      j := j + 1;
    }
  }

  lemma CommentStep(line: string, start: nat, k: nat)
    requires start <= k < |line| && line[k] != '#'
    ensures line[start..k + 1] + BeforeComment(line[k + 1..]) == line[start..k] + BeforeComment(line[k..])
  {
    var rest := BeforeComment(line[k + 1..]);
    assert line[k..][1..] == line[k + 1..];
    assert BeforeComment(line[k..]) == [line[k]] + rest;
    assert line[start..k + 1] == line[start..k] + [line[k]];
    assert (line[start..k] + [line[k]]) + rest == line[start..k] + ([line[k]] + rest);
  }

  method ScanToComment(line: string, start: nat) returns (value: string)
    requires start <= |line|
    ensures value == BeforeComment(line[start..])
  {
    var k := start;
    while k < |line| && line[k] != '#'
      invariant start <= k <= |line| && line[start..k] + BeforeComment(line[k..]) == BeforeComment(line[start..])
    {
      CommentStep(line, start, k);
      k := k + 1;
    }
    assert BeforeComment(line[k..]) == "";
    value := line[start..k];
  }

  method ScanBlank(line: string, start: nat) returns (j: nat)
    requires start <= |line|
    ensures j == SkipBlank(line, start)
  {
    j := start;
    while j < |line| && Blank(line[j])
      invariant j <= |line| && SkipBlank(line, start) == SkipBlank(line, j)
    {
      j := j + 1;
    }
  }

  method ScanAssignment(line: string) returns (r: Option<(string, string)>)
    ensures r == Assignment(line)
  {
    var i: nat := 0;
    while i < |line| && line[i] != '=' && line[i] != ' ' && line[i] != '\t'
      invariant i <= |line| && KeyEnd(line, 0) == KeyEnd(line, i)
    {
      i := i + 1;
    }
    var key := RtrimInPlace(line[..i]);
    if key == "" {
      return None;
    }
    var j := ScanBlank(line, i);
    if j >= |line| || line[j] != '=' {
      return None;
    }
    j := j + 1;
    if key != "" && key[|key| - 1] == '+' {
      key := key[..|key| - 1];
    }
    j := ScanBlank(line, j);
    var value := "";
    if j < |line| {
      if line[j] == '"' || line[j] == '\'' {
        value := ScanQuoted(line, j);
        assert line[j..][1..] == line[j + 1..];
      } else {
        value := ScanToComment(line, j);
        value := RtrimInPlace(value);
        value := LtrimInPlace(value);
      }
    }
    r := Some((key, value));
  }

  method ScanLine(text: string) returns (r: Option<(string, string)>)
    ensures r == ParseLine(text)
  {
    var line := text;
    if line != "" && line[|line| - 1] == '\r' {
      line := line[..|line| - 1];
    }
    line := LtrimInPlace(line);
    if line == "" || line[0] == '#' {
      return None;
    }
    if |line| >= 6 && line[..6] == "export" {
      if |line| == 6 || line[6] == ' ' || line[6] == '\t' {
        line := LtrimInPlace(line[6..]);
      }
    }
    if line == "" || line[0] == '#' {
      return None;
    }
    r := ScanAssignment(line);
  }

  /** `parse_env_file` once the lines are read. */
  method ParseEnvFile(lines: seq<string>) returns (env: Env)
    ensures env == ParseLines(map[], lines)
  {
    env := map[];
    assert lines[0..] == lines;
    for n := 0 to |lines|
      invariant ParseLines(map[], lines) == ParseLines(env, lines[n..])
    {
      assert lines[n..][1..] == lines[n + 1..];
      var assignment := ScanLine(lines[n]);
      if assignment.Some? {
        env := env[assignment.value.0 := assignment.value.1];
      }
    }
  }

  // ------------------------------------------------------------ the printer

  function Escape(v: string, quote: char): string {
    if v == "" then ""
    else if v[0] == '\\' || v[0] == quote then ['\\', v[0]] + Escape(v[1..], quote)
    else [v[0]] + Escape(v[1..], quote)
  }

  predicate IsQuote(c: char) {
    c == '"' || c == '\''
  }

  function PrintLine(k: string, v: string, quote: char): string {
    k + "=" + [quote] + Escape(v, quote) + [quote]
  }

  lemma {:induction false} QuotedBack(v: string, quote: char, rest: string)
    requires IsQuote(quote)
    ensures Quoted(Escape(v, quote) + [quote] + rest, quote, false) == v
  {
    var s := Escape(v, quote) + [quote] + rest;
    if v == "" {
      assert s == [quote] + rest;
    } else {
      var t := Escape(v[1..], quote) + [quote] + rest;
      QuotedBack(v[1..], quote, rest);
      if v[0] == '\\' || v[0] == quote {
        assert s[1..] == [v[0]] + t && s[1..][1..] == t;
      } else {
        assert s[1..] == t;
      }
    }
  }

  /** A key the scanner takes as one word. */
  predicate Word(k: string) {
    k != "" && k[0] != '#' && forall i :: 0 <= i < |k| ==> k[i] != '=' && !Blank(k[i])
  }

  predicate LegalKey(k: string) {
    Word(k) && k[|k| - 1] != '+'
  }

  lemma PrintedTrimmed(k: string, v: string, quote: char)
    requires Word(k) && IsQuote(quote)
    ensures var line := PrintLine(k, v, quote);
            Ltrim(DropCr(line)) == line && !Skipped(line) && !IsExport(line)
  {
    var line := PrintLine(k, v, quote);
    assert line[|line| - 1] == quote;
    assert line[0] == k[0];
    assert line[|k|] == '=';
    if |line| >= 6 && line[..6] == "export" {
      assert forall i :: 0 <= i < 6 ==> line[..6][i] == line[i];
      assert "export"[0] != '=' && "export"[1] != '=' && "export"[2] != '=' && "export"[3] != '=' && "export"[4] != '=' && "export"[5] != '=';
      assert |k| >= 6;
      assert |k| > 6 ==> line[6] == k[6];
    }
  }

  lemma RtrimWord(k: string)
    requires k == "" || !Blank(k[|k| - 1])
    ensures Rtrim(k) == k
  {
  }

  lemma {:induction false} KeyEndAt(s: string, i: nat, n: nat)
    requires i <= n < |s| && s[n] == '=' && forall j :: i <= j < n ==> s[j] != '=' && !Blank(s[j])
    ensures KeyEnd(s, i) == n
    decreases n - i
  {
    if i < n {
      KeyEndAt(s, i + 1, n);
    }
  }

  lemma PrintedAssignment(k: string, v: string, quote: char)
    requires Word(k) && IsQuote(quote)
    ensures Assignment(PrintLine(k, v, quote)) == Some((DropPlus(k), v))
  {
    var line := PrintLine(k, v, quote);
    assert line[..|k|] == k && line[|k|] == '=' && line[|k| + 1] == quote;
    assert forall j :: 0 <= j < |k| ==> line[j] == k[j];
    KeyEndAt(line, 0, |k|);
    RtrimWord(k);
    var tail := line[|k| + 1..];
    assert tail[1..] == Escape(v, quote) + [quote] + "";
    QuotedBack(v, quote, "");
  }

  /** A printed word parses to itself, less one '+' at its end. */
  lemma PrintedWord(k: string, v: string, quote: char)
    requires Word(k) && IsQuote(quote)
    ensures ParseLine(PrintLine(k, v, quote)) == Some((DropPlus(k), v))
  {
    PrintedTrimmed(k, v, quote);
    PrintedAssignment(k, v, quote);
  }

  /** What the parser calls a key never holds '=' or a blank, nor starts with '#'. */
  lemma ParsedKey(line: string)
    requires ParseLine(line).Some?
    ensures var k := ParseLine(line).value.0;
            k == "" || Word(k)
  {
    var l1 := Ltrim(DropCr(line));
    var l2 := if IsExport(l1) then Ltrim(l1[6..]) else l1;
    var i := KeyEnd(l2, 0);
    RtrimWord(l2[..i]);
    var key := l2[..i];
    assert forall j :: 0 <= j < i ==> key[j] == l2[j];
  }

  /** Exactly the legal keys survive printing and parsing, whatever the value
      and either quote. */
  lemma LineRoundTrip(k: string, v: string, quote: char)
    requires IsQuote(quote)
    ensures ParseLine(PrintLine(k, v, quote)) == Some((k, v)) <==> LegalKey(k)
  {
    var line := PrintLine(k, v, quote);
    if Word(k) {
      PrintedWord(k, v, quote);
    } else if k == "" {
      assert line[0] == '=' && line[|line| - 1] == quote;
      assert DropCr(line) == line && Ltrim(line) == line;
      assert KeyEnd(line, 0) == 0 && line[..0] == "";
    } else if ParseLine(line).Some? {
      ParsedKey(line);
    }
  }

  // ---------------------------------------------------------- whole files

  predicate NewlineFree(s: string) {
    forall i :: 0 <= i < |s| ==> s[i] != '\n'
  }

  function Print(pairs: seq<(string, string)>, quote: char): string {
    if pairs == [] then "" else PrintLine(pairs[0].0, pairs[0].1, quote) + "\n" + Print(pairs[1..], quote)
  }

  lemma {:induction false} EscapeNewlineFree(v: string, quote: char)
    requires NewlineFree(v) && IsQuote(quote)
    ensures NewlineFree(Escape(v, quote))
  {
    if v != "" {
      EscapeNewlineFree(v[1..], quote);
    }
  }

  lemma FirstNewlineAt(a: string, b: string)
    requires NewlineFree(a)
    ensures FirstNewline(a + "\n" + b) == |a|
  {
    var s := a + "\n" + b;
    assert s[|a|] == '\n';
    assert forall i :: 0 <= i < |a| ==> s[i] == a[i];
  }

  predicate Printable(pairs: seq<(string, string)>) {
    forall i :: 0 <= i < |pairs| ==> LegalKey(pairs[i].0) && NewlineFree(pairs[i].0) && NewlineFree(pairs[i].1)
  }

  /** Printing pairs and parsing the text assigns them in order: for a key
      printed twice the last value stands. */
  lemma {:induction false} FileRoundTrip(env: Env, pairs: seq<(string, string)>, quote: char)
    requires Printable(pairs) && IsQuote(quote)
    ensures ParseLines(env, Lines(Print(pairs, quote))) == Assign(env, pairs)
    decreases |pairs|
  {
    if pairs != [] {
      var (k, v) := pairs[0];
      var line, rest := PrintLine(k, v, quote), Print(pairs[1..], quote);
      EscapeNewlineFree(v, quote);
      assert NewlineFree(line);
      FirstNewlineAt(line, rest);
      var text := Print(pairs, quote);
      assert text == line + "\n" + rest;
      assert text[..|line|] == line && text[|line| + 1..] == rest;
      LineRoundTrip(k, v, quote);
      FileRoundTrip(env[k := v], pairs[1..], quote);
    }
  }

  lemma {:induction false} AssignAll(env: Env, pairs: seq<(string, string)>, m: Env)
    requires forall i :: 0 <= i < |pairs| ==> pairs[i].0 in m && m[pairs[i].0] == pairs[i].1
    requires forall k :: k in m ==> (k in env && env[k] == m[k]) || exists i :: 0 <= i < |pairs| && pairs[i].0 == k
    requires forall k :: k in env ==> k in m
    ensures Assign(env, pairs) == m
    decreases |pairs|
  {
    if pairs == [] {
      assert env == m;
    } else {
      var env' := env[pairs[0].0 := pairs[0].1];
      forall k | k in m ensures (k in env' && env'[k] == m[k]) || exists i :: 0 <= i < |pairs[1..]| && pairs[1..][i].0 == k {
        if !(k in env && env[k] == m[k]) && k != pairs[0].0 {
          var i :| 0 <= i < |pairs| && pairs[i].0 == k;
          assert pairs[1..][i - 1].0 == k;
        }
      }
      AssignAll(env', pairs[1..], m);
    }
  }

  /** Any map of legal keys to newline-free values, printed in any order, comes
      back. */
  lemma MapRoundTrip(m: Env, pairs: seq<(string, string)>, quote: char)
    requires IsQuote(quote) && Printable(pairs)
    requires forall i :: 0 <= i < |pairs| ==> pairs[i].0 in m && m[pairs[i].0] == pairs[i].1
    requires forall k :: k in m ==> exists i :: 0 <= i < |pairs| && pairs[i].0 == k
    ensures ParseLines(map[], Lines(Print(pairs, quote))) == m
  {
    FileRoundTrip(map[], pairs, quote);
    AssignAll(map[], pairs, m);
  }
}
