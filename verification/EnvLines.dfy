/** What single lines of an env file mean: unquoted values, comments, the export
    prefix, and lines that say nothing. */
module EnvLines {
  import opened Common
  import opened EnvFile

  predicate Blanks(s: string) {
    forall i :: 0 <= i < |s| ==> Blank(s[i])
  }

  /** Text that trimming leaves alone. */
  predicate Trimmed(s: string) {
    s != "" ==> !Blank(s[0]) && !Blank(s[|s| - 1])
  }

  lemma {:induction false} LtrimBlanks(b: string, s: string)
    requires Blanks(b) && (s == "" || !Blank(s[0]))
    ensures Ltrim(b + s) == s
  {
    if b == "" {
      assert b + s == s;
    } else {
      assert (b + s)[1..] == b[1..] + s;
      LtrimBlanks(b[1..], s);
    }
  }

  lemma {:induction false} RtrimBlanks(s: string, b: string)
    requires Blanks(b) && (s == "" || !Blank(s[|s| - 1]))
    ensures Rtrim(s + b) == s
    decreases |b|
  {
    if b == "" {
      assert s + b == s;
    } else {
      assert (s + b)[..|s + b| - 1] == s + b[..|b| - 1];
      RtrimBlanks(s, b[..|b| - 1]);
    }
  }

  lemma {:induction false} UpToComment(s: string, tail: string)
    requires '#' !in s && (tail == "" || tail[0] == '#')
    ensures BeforeComment(s + tail) == s
  {
    if s == "" {
      assert s + tail == tail;
    } else {
      assert s[0] in s;
      assert (s + tail)[1..] == s[1..] + tail;
      UpToComment(s[1..], tail);
    }
  }

  /** An unquoted value: free of "#", not starting with a quote, without blanks
      at its ends. */
  predicate Bare(v: string) {
    '#' !in v && Trimmed(v) && (v != "" ==> !IsQuote(v[0]))
  }

  /** Up to a comment, if there is one, less the blanks in front of it. */
  lemma BareValue(v: string, b: string, tail: string)
    requires Bare(v) && Blanks(b) && (v == "" ==> b == "") && (tail == "" || tail[0] == '#')
    ensures ValueOf(v + b + tail) == v
  {
    assert '#' !in b;
    assert '#' !in v + b;
    UpToComment(v + b, tail);
    RtrimBlanks(v, b);
    LtrimBlanks("", v);
    assert "" + v == v;
  }

  lemma {:induction false} KeyEndIs(s: string, i: nat, n: nat)
    requires i <= n <= |s| && (n < |s| ==> s[n] == '=' || Blank(s[n]))
    requires forall j :: i <= j < n ==> s[j] != '=' && !Blank(s[j])
    ensures KeyEnd(s, i) == n
    decreases n - i
  {
    if i < n {
      KeyEndIs(s, i + 1, n);
    }
  }

  lemma {:induction false} SkipBlankIs(s: string, i: nat, j: nat)
    requires i <= j <= |s| && (j < |s| ==> !Blank(s[j])) && forall k :: i <= k < j ==> Blank(s[k])
    ensures SkipBlank(s, i) == j
    decreases j - i
  {
    if i < j {
      SkipBlankIs(s, i + 1, j);
    }
  }

  /** KEY = value # note, with blanks around each part or not. */
  function Written(k: string, b1: string, b2: string, rest: string): string {
    k + (b1 + ("=" + (b2 + rest)))
  }

  lemma AssignmentAt(line: string, k: string, j: nat, m: nat)
    requires Word(k) && |k| <= j < m <= |line| && line[..|k|] == k && line[j] == '='
    requires (forall n :: |k| <= n < j ==> Blank(line[n])) && (forall n :: j + 1 <= n < m ==> Blank(line[n]))
    requires m < |line| ==> !Blank(line[m])
    ensures Assignment(line) == Some((DropPlus(k), ValueOf(line[m..])))
  {
    assert forall n :: 0 <= n < |k| ==> line[n] == k[n];
    KeyEndIs(line, 0, |k|);
    RtrimWord(k);
    SkipBlankIs(line, |k|, j);
    SkipBlankIs(line, j + 1, m);
  }

  /** `rest` is whatever follows the "=" and the blanks behind it. */
  lemma AssignmentOf(k: string, b1: string, b2: string, rest: string)
    requires Word(k) && Blanks(b1) && Blanks(b2) && (rest == "" || !Blank(rest[0]))
    ensures Assignment(Written(k, b1, b2, rest)) == Some((DropPlus(k), ValueOf(rest)))
  {
    WrittenAt(k, b1, b2, rest);
    AssignmentAt(Written(k, b1, b2, rest), k, |k| + |b1|, |k| + |b1| + 1 + |b2|);
  }

  lemma WrittenAt(k: string, b1: string, b2: string, rest: string)
    requires Word(k) && Blanks(b1) && Blanks(b2) && (rest == "" || !Blank(rest[0]))
    ensures var line := Written(k, b1, b2, rest); var j := |k| + |b1|;
            && line[..|k|] == k && j < |line| && line[j] == '=' && line[j + 1 + |b2|..] == rest
            && (forall n :: 0 <= n < |k| ==> line[n] == k[n])
            && (forall n :: |k| <= n < j ==> Blank(line[n])) && (forall n :: j + 1 <= n < j + 1 + |b2| ==> Blank(line[n]))
            && (j + 1 + |b2| < |line| ==> !Blank(line[j + 1 + |b2|]))
  {
    var line, j := Written(k, b1, b2, rest), |k| + |b1|;
    assert line == k + b1 + "=" + b2 + rest;
    forall n | |k| <= n < j ensures line[n] == b1[n - |k|] {
    }
    forall n | j + 1 <= n < j + 1 + |b2| ensures line[n] == b2[n - j - 1] {
    }
  }

  /** The key is not the word that marks an export. */
  predicate NotExport(k: string) {
    k != "export"
  }

  lemma WrittenStarts(k: string, b1: string, b2: string, rest: string)
    requires Word(k) && NotExport(k) && Blanks(b1) && Blanks(b2) && (rest == "" || !Blank(rest[0]))
    ensures var line := Written(k, b1, b2, rest);
            line != "" && !Blank(line[0]) && !Skipped(line) && !IsExport(line)
  {
    var line := Written(k, b1, b2, rest);
    WrittenAt(k, b1, b2, rest);
    assert line[0] == k[0];
    if IsExport(line) {
      ExportWord(line, k);
    }
  }

  /** Only the word itself reads as the export prefix. */
  lemma ExportWord(line: string, k: string)
    requires IsExport(line) && Word(k) && |k| <= |line| && line[..|k|] == k
    requires |k| < |line| ==> line[|k|] == '=' || Blank(line[|k|])
    ensures k == "export"
  {
    var e := "export";
    forall n | 0 <= n < 6 ensures line[n] == e[n] && e[n] != '=' && !Blank(e[n]) {
      assert line[n] == line[..6][n];
    }
    assert forall n :: 0 <= n < |k| ==> line[n] == k[n];
    KeyEndIs(line, 0, |k|);
    KeyEndIs(line, 0, 6);
  }

  predicate NoCr(s: string) {
    s != "" ==> s[|s| - 1] != '\r'
  }

  /** A whole line as read: blanks in front, "export" or not, the assignment, and
      a carriage return at the end or not. */
  function Line(b0: string, exported: bool, b: string, core: string, cr: bool): string {
    b0 + ((if exported then "export" + b else "") + core) + if cr then "\r" else ""
  }

  lemma LineParses(b0: string, exported: bool, b: string, core: string, cr: bool)
    requires Blanks(b0) && Blanks(b) && b != "" && NoCr(core)
    requires core != "" && !Blank(core[0]) && !Skipped(core) && (exported || !IsExport(core))
    ensures ParseLine(Line(b0, exported, b, core, cr)) == Assignment(core)
  {
    var body := (if exported then "export" + b else "") + core;
    var line := Line(b0, exported, b, core, cr);
    assert (b0 + body)[|b0 + body| - 1] == core[|core| - 1];
    assert DropCr(line) == b0 + body;
    LtrimBlanks(b0, body);
    if exported {
      assert body[..6] == "export" && body[6] == b[0] && body[6..] == b + core;
      LtrimBlanks(b, core);
    } else {
      assert body == core;
    }
  }

  /** `KEY=value # note` and `export KEY=value`, with blanks wherever they may
      stand and with either line ending: the key is assigned the bare value. */
  lemma BareLine(b0: string, exported: bool, b: string, k: string, b1: string, b2: string, v: string, b3: string, note: string, cr: bool)
    requires Blanks(b0) && Blanks(b) && b != "" && Blanks(b1) && Blanks(b2) && Blanks(b3)
    requires Word(k) && (exported || NotExport(k)) && Bare(v) && (v == "" ==> b3 == "")
    requires (note == "" || note[0] == '#') && NoCr(v + b3 + note)
    ensures ParseLine(Line(b0, exported, b, Written(k, b1, b2, v + b3 + note), cr)) == Some((DropPlus(k), v))
  {
    var rest := v + b3 + note;
    var core := Written(k, b1, b2, rest);
    assert rest != "" ==> !Blank(rest[0]) by {
      assert v != "" ==> rest[0] == v[0];
    }
    WrittenAt(k, b1, b2, rest);
    assert core[0] == k[0];
    assert NoCr(core) by {
      assert rest != "" ==> core[|core| - 1] == rest[|rest| - 1];
      LastIs(k, b1, b2, rest);
    }
    if !exported {
      WrittenStarts(k, b1, b2, rest);
    }
    LineParses(b0, exported, b, core, cr);
    AssignmentOf(k, b1, b2, rest);
    BareValue(v, b3, note);
  }

  lemma LastIs(k: string, b1: string, b2: string, rest: string)
    requires Blanks(b2)
    ensures var core := Written(k, b1, b2, rest);
            rest == "" ==> core[|core| - 1] == '=' || Blank(core[|core| - 1])
  {
    var core := Written(k, b1, b2, rest);
    if rest == "" {
      assert core == k + b1 + "=" + b2;
    }
  }

  /** The same for a quoted value, with anything behind the closing quote. */
  lemma QuotedLine(b0: string, exported: bool, b: string, k: string, b1: string, b2: string, v: string, quote: char, more: string, cr: bool)
    requires Blanks(b0) && Blanks(b) && b != "" && Blanks(b1) && Blanks(b2)
    requires Word(k) && (exported || NotExport(k)) && IsQuote(quote) && NoCr(more)
    ensures ParseLine(Line(b0, exported, b, Written(k, b1, b2, [quote] + (Escape(v, quote) + [quote] + more)), cr)) == Some((DropPlus(k), v))
  {
    var inner := Escape(v, quote) + [quote] + more;
    var rest := [quote] + inner;
    var core := Written(k, b1, b2, rest);
    WrittenAt(k, b1, b2, rest);
    assert core[0] == k[0];
    assert core[|core| - 1] == rest[|rest| - 1];
    assert rest[|rest| - 1] == if more == "" then quote else more[|more| - 1];
    if !exported {
      WrittenStarts(k, b1, b2, rest);
    }
    LineParses(b0, exported, b, core, cr);
    AssignmentOf(k, b1, b2, rest);
    QuotedBack(v, quote, more);
    assert rest[1..] == inner;
  }

  // ------------------------------------------------- lines that say nothing

  /** Blank lines and comments. */
  lemma SilentLine(b0: string, note: string, cr: bool)
    requires Blanks(b0) && (note == "" || note[0] == '#') && NoCr(note)
    ensures ParseLine(b0 + note + if cr then "\r" else "") == None
  {
    var line := b0 + note + if cr then "\r" else "";
    assert b0 + note != "" ==> (b0 + note)[|b0 + note| - 1] == if note == "" then b0[|b0| - 1] else note[|note| - 1];
    assert DropCr(line) == b0 + note;
    LtrimBlanks(b0, note);
  }

  lemma NothingAssigned(line: string, k: string, j: nat)
    requires Word(k) && |k| <= j <= |line| && line[..|k|] == k && (j < |line| ==> line[j] != '=' && !Blank(line[j]))
    requires (forall n :: |k| <= n < j ==> Blank(line[n])) && (j == |k| ==> j == |line|)
    ensures Assignment(line) == None
  {
    assert forall n :: 0 <= n < |k| ==> line[n] == k[n];
    KeyEndIs(line, 0, |k|);
    SkipBlankIs(line, |k|, j);
  }

  /** A word that no "=" follows. */
  lemma NoAssignment(k: string, b1: string, rest: string)
    requires Word(k) && NotExport(k) && Blanks(b1) && (b1 == "" ==> rest == "")
    requires rest == "" || (rest[0] != '=' && !Blank(rest[0]))
    requires NoCr(k + b1 + rest)
    ensures ParseLine(k + b1 + rest) == None
  {
    var line := k + b1 + rest;
    assert line[0] == k[0] && line[..|k|] == k && DropCr(line) == line;
    LtrimBlanks("", line);
    assert "" + line == line;
    if IsExport(line) {
      ExportWord(line, k);
    }
    NothingAssigned(line, k, |k| + |b1|);
  }

  /** `KEY+=value` assigns KEY; one plus goes, and only from the end. */
  lemma PlusDropped(k: string)
    ensures DropPlus(k + "+") == k
    ensures k == "" || k[|k| - 1] != '+' ==> DropPlus(k) == k
  {
  }
}
