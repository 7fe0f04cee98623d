/** Base64 on bytes, characters being bytes too: both alphabets, optional
    padding, and line breaks inserted in place (RFC 4648 sections 4 and 5,
    RFC 2045 section 6.8). */
module Base64 {
  import opened Pieces

  type Byte = bv8
  type Bytes = seq<Byte>

  const NEWLINE: Byte := 10
  const EQUALS: Byte := 61
  const DOT: Byte := 46

  /** Invalid characters and running off the end throw different exceptions. */
  datatype Decoded = Bytes(value: Bytes) | InvalidChar | OutOfRange

  // ------------------------------------------------------------- alphabets

  /** The character at position v of the alphabet: A-Z, a-z, 0-9, then "+/" or
      "-_". */
  function CharAt(v: Byte, url: bool): Byte
    requires v < 64
  {
    if v < 26 then v + 65
    else if v < 52 then v - 26 + 97
    else if v < 62 then v - 52 + 48
    else if v == 62 then (if url then 45 else 43)
    else if url then 95 else 47
  }

  function Pad(url: bool): Byte {
    if url then DOT else EQUALS
  }

  predicate IsPad(c: Byte) {
    c == EQUALS || c == DOT
  }

  /** Position of a character in either alphabet; 64 stands for the exception. */
  function PosOfChar(c: Byte): (p: Byte)
    ensures p <= 64
  {
    if 65 <= c <= 90 then c - 65
    else if 97 <= c <= 122 then c - 97 + 25 + 1
    else if 48 <= c <= 57 then c - 48 + 25 + 25 + 2
    else if c == 43 || c == 45 then 62
    else if c == 47 || c == 95 then 63
    else 64
  }

  predicate InAlphabet(c: Byte) {
    PosOfChar(c) < 64
  }

  lemma CharRoundTrip(v: Byte, url: bool)
    requires v < 64
    ensures PosOfChar(CharAt(v, url)) == v
    ensures !IsPad(CharAt(v, url)) && CharAt(v, url) != NEWLINE
  {
  }

  // -------------------------------------------------------------- encoding

  function Sextet1(a: Byte): (v: Byte) ensures v < 64 { (a & 0xfc) >> 2 }

  function Sextet2(a: Byte, b: Byte): (v: Byte) ensures v < 64 { ((a & 0x03) << 4) + ((b & 0xf0) >> 4) }

  function Sextet3(b: Byte, c: Byte): (v: Byte) ensures v < 64 { ((b & 0x0f) << 2) + ((c & 0xc0) >> 6) }

  function Sextet4(c: Byte): (v: Byte) ensures v < 64 { c & 0x3f }

  /** What encoding means: three bytes to four characters, the rest padded. */
  function Encoded(s: Bytes, url: bool): Bytes {
    if s == [] then []
    else if |s| == 1 then
      [CharAt(Sextet1(s[0]), url), CharAt(Sextet2(s[0], 0), url), Pad(url), Pad(url)]
    else if |s| == 2 then
      [CharAt(Sextet1(s[0]), url), CharAt(Sextet2(s[0], s[1]), url), CharAt(Sextet3(s[1], 0), url), Pad(url)]
    else
      [CharAt(Sextet1(s[0]), url), CharAt(Sextet2(s[0], s[1]), url), CharAt(Sextet3(s[1], s[2]), url), CharAt(Sextet4(s[2]), url)]
      + Encoded(s[3..], url)
  }

  lemma LastSextets(a: Byte)
    ensures Sextet2(a, 0) == (a & 0x03) << 4 && Sextet3(a, 0) == (a & 0x0f) << 2
  {
  }

  lemma EncodedSplit(s: Bytes, url: bool)
    requires |s| >= 3
    ensures Encoded(s, url) == Encoded(s[..3], url) + Encoded(s[3..], url)
  {
    assert s[..3][3..] == [];
  }

  function Min(a: nat, b: nat): nat {
    if a <= b then a else b
  }

  lemma EncodedStep(s: Bytes, pos: nat, url: bool, out: Bytes)
    requires pos < |s|
    ensures out + Encoded(s[pos..], url)
         == out + Encoded(s[pos..Min(pos + 3, |s|)], url) + Encoded(s[Min(pos + 3, |s|)..], url)
  {
    if pos + 3 <= |s| {
      EncodedSplit(s[pos..], url);
      assert s[pos..][..3] == s[pos..pos + 3] && s[pos..][3..] == s[pos + 3..];
    } else {
      assert s[pos..] == s[pos..|s|];
    }
  }

  const UINT_WRAP := 0x1_0000_0000

  /** One pass of the encoding loop. */
  method EncodeGroup(s: Bytes, pos: nat, url: bool, out: Bytes) returns (ret: Bytes)
    requires pos < |s|
    ensures ret == out + Encoded(s[pos..Min(pos + 3, |s|)], url)
  {
    LastSextets(s[pos]);
    ret := out + [CharAt(Sextet1(s[pos]), url)];
    if pos + 1 < |s| {
      LastSextets(s[pos + 1]);
      ret := ret + [CharAt(Sextet2(s[pos], s[pos + 1]), url)];
      if pos + 2 < |s| {
        ret := ret + [CharAt(Sextet3(s[pos + 1], s[pos + 2]), url)];
        ret := ret + [CharAt(Sextet4(s[pos + 2]), url)];
        assert s[pos..pos + 3][3..] == [];
      } else {
        ret := ret + [CharAt((s[pos + 1] & 0x0f) << 2, url)];
        ret := ret + [Pad(url)];
      }
    } else {
      ret := ret + [CharAt((s[pos] & 0x03) << 4, url)];
      ret := ret + [Pad(url)];
      ret := ret + [Pad(url)];
    }
  }

  /** The position is a multiple of three, and so stops short of wrapping. */
  lemma NoWrap(pos: nat, n: nat)
    requires pos % 3 == 0 && pos < n < UINT_WRAP
    ensures (pos + 3) % UINT_WRAP == pos + 3 && (pos + 3) % 3 == 0
  {
  }

  /** `pos` is a 32-bit counter, so the input must be shorter than 2^32 bytes;
      for these it does not wrap. */
  method Encode(s: Bytes, url: bool) returns (ret: Bytes)
    requires |s| < UINT_WRAP
    ensures ret == Encoded(s, url)
  {
    ret := [];
    var pos := 0;
    while pos < |s|
      invariant pos % 3 == 0
      invariant Encoded(s, url) == ret + Encoded(s[Min(pos, |s|)..], url)
      decreases |s| - pos
    {
      EncodedStep(s, pos, url, ret);
      ret := EncodeGroup(s, pos, url, ret);
      NoWrap(pos, |s|);
      pos := (pos + 3) % UINT_WRAP;
    }
  }

  /** The position after `k` passes, if the loop gets that far. */
  function PositionAfter(k: nat): (pos: nat)
    ensures pos < UINT_WRAP
  {
    if k == 0 then 0 else (PositionAfter(k - 1) + 3) % UINT_WRAP
  }

  lemma {:induction false} PositionExact(k: nat)
    requires 3 * k < UINT_WRAP
    ensures PositionAfter(k) == 3 * k
  {
    if k > 0 {
      PositionExact(k - 1);
    }
  }

  /** The loop over `n` bytes comes to its end exactly for lengths below 2^32. */
  lemma LoopEndsExactly(n: nat)
    ensures (exists k: nat :: PositionAfter(k) >= n) <==> n < UINT_WRAP
  {
    if n < UINT_WRAP {
      var k := (n + 2) / 3;
      PositionExact(k);
      assert PositionAfter(k) >= n;
    }
  }

  // -------------------------------------------------------------- decoding

  function Byte1(p0: Byte, p1: Byte): Byte { (p0 << 2) + ((p1 & 0x30) >> 4) }

  function Byte2(p1: Byte, p2: Byte): Byte { ((p1 & 0x0f) << 4) + ((p2 & 0x3c) >> 2) }

  function Byte3(p2: Byte, p3: Byte): Byte { ((p2 & 0x03) << 6) + p3 }

  lemma SextetsBack(a: Byte, b: Byte, c: Byte)
    ensures Byte1(Sextet1(a), Sextet2(a, b)) == a
    ensures Byte2(Sextet2(a, b), Sextet3(b, c)) == b
    ensures Byte3(Sextet3(b, c), Sextet4(c)) == c
  {
  }

  /** One chunk of at most four characters. The second character is looked at
      first; whatever follows a padding character in the chunk is ignored. */
  function DecodeChunk(q: Bytes): Decoded
    requires 0 < |q| <= 4
  {
    if |q| == 1 then OutOfRange
    else if !InAlphabet(q[1]) || !InAlphabet(q[0]) then InvalidChar
    else
      var b1 := Byte1(PosOfChar(q[0]), PosOfChar(q[1]));
      if |q| == 2 || IsPad(q[2]) then Bytes([b1])
      else if !InAlphabet(q[2]) then InvalidChar
      else
        var b2 := Byte2(PosOfChar(q[1]), PosOfChar(q[2]));
        if |q| == 3 || IsPad(q[3]) then Bytes([b1, b2])
        else if !InAlphabet(q[3]) then InvalidChar
        else Bytes([b1, b2, Byte3(PosOfChar(q[2]), PosOfChar(q[3]))])
  }

  /** The first failure wins. */
  function Then(a: Decoded, b: Decoded): Decoded {
    if a.Bytes? && b.Bytes? then Bytes(a.value + b.value) else if a.Bytes? then b else a
  }

  function Decode(e: Bytes): Decoded {
    if e == [] then Bytes([]) else Then(DecodeChunk(e[..Min(4, |e|)]), Decode(e[Min(4, |e|)..]))
  }

  /** One pass of the decoding loop. */
  method DecodeQuad(e: Bytes, pos: nat) returns (r: Decoded)
    requires pos < |e|
    ensures r == DecodeChunk(e[pos..Min(pos + 4, |e|)])
  {
    if pos + 1 >= |e| {
      return OutOfRange;
    }
    ghost var q := e[pos..Min(pos + 4, |e|)];
    assert q[0] == e[pos] && q[1] == e[pos + 1];
    var p1 := PosOfChar(e[pos + 1]);
    if p1 == 64 {
      return InvalidChar;
    }
    var p0 := PosOfChar(e[pos]);
    if p0 == 64 {
      return InvalidChar;
    }
    var ret := [Byte1(p0, p1)];
    ghost var b1, two, three := Byte1(p0, p1), false, false;
    if pos + 2 < |e| && e[pos + 2] != EQUALS && e[pos + 2] != DOT {
      var p2 := PosOfChar(e[pos + 2]);
      if p2 == 64 {
        return InvalidChar;
      }
      ret := ret + [Byte2(p1, p2)];
      two := true;
      assert q[2] == e[pos + 2] && ret == [b1, Byte2(p1, p2)];
      if pos + 3 < |e| && e[pos + 3] != EQUALS && e[pos + 3] != DOT {
        var p3 := PosOfChar(e[pos + 3]);
        if p3 == 64 {
          return InvalidChar;
        }
        ret := ret + [Byte3(p2, p3)];
        three := true;
        assert q[3] == e[pos + 3] && ret == [b1, Byte2(p1, p2), Byte3(p2, p3)];
        assert DecodeChunk(q) == Bytes(ret);
      }
      assert !three ==> DecodeChunk(q) == Bytes(ret);
    }
    assert !two ==> DecodeChunk(q) == Bytes(ret);
    return Bytes(ret);
  }

  method DecodeLoop(e: Bytes) returns (r: Decoded)
    ensures r == Decode(e)
  {
    var pos := 0;
    var ret: Bytes := [];
    assert e[0..] == e;
    while pos < |e|
      invariant Decode(e) == Then(Bytes(ret), Decode(e[Min(pos, |e|)..]))
      decreases |e| - pos
    {
      DecodeStep(e, pos, ret);
      r := DecodeQuad(e, pos);
      if !r.Bytes? {
        return;
      }
      ret := ret + r.value;
      pos := pos + 4;
    }
    r := Bytes(ret);
  }

  lemma DecodeStep(e: Bytes, pos: nat, ret: Bytes)
    requires pos < |e|
    ensures var q := e[pos..Min(pos + 4, |e|)];
            Then(Bytes(ret), Decode(e[pos..]))
            == match DecodeChunk(q)
               case Bytes(b) => Then(Bytes(ret + b), Decode(e[Min(pos + 4, |e|)..]))
               case bad => bad
  {
    assert e[pos..][..Min(4, |e| - pos)] == e[pos..Min(pos + 4, |e|)];
    assert e[pos..][Min(4, |e| - pos)..] == e[Min(pos + 4, |e|)..];
    match DecodeChunk(e[pos..Min(pos + 4, |e|)])
    case Bytes(b) =>
      var rest := Decode(e[Min(pos + 4, |e|)..]);
      if rest.Bytes? {
        assert ret + (b + rest.value) == ret + b + rest.value;
      }
    case bad =>
  }

  // -------------------------------------------------------------- theorems

  lemma {:induction false} EncodedLength(s: Bytes, url: bool)
    ensures |Encoded(s, url)| == (|s| + 2) / 3 * 4
  {
    if |s| >= 3 {
      EncodedLength(s[3..], url);
    }
  }

  /** Decoding undoes encoding, for every byte string and both alphabets. */
  lemma {:induction false} RoundTrip(s: Bytes, url: bool)
    ensures Decode(Encoded(s, url)) == Bytes(s)
  {
    if s != [] {
      var head, tail := s[..Min(3, |s|)], s[Min(3, |s|)..];
      GroupRoundTrip(head, url);
      RoundTrip(tail, url);
      if |s| >= 3 {
        EncodedSplit(s, url);
      } else {
        assert head == s;
      }
      var e := Encoded(s, url);
      assert e[..4] == Encoded(head, url) && e[4..] == Encoded(tail, url);
      assert head + tail == s;
    }
  }

  /** Four characters that stand for sextets, or two or three and padding. */
  lemma ChunkOf(e: Bytes, v1: Byte, v2: Byte, v3: Byte, v4: Byte)
    requires |e| == 4 && PosOfChar(e[0]) == v1 < 64 && PosOfChar(e[1]) == v2 < 64
    requires IsPad(e[2]) || (!IsPad(e[2]) && PosOfChar(e[2]) == v3 < 64)
    requires IsPad(e[3]) || (!IsPad(e[3]) && PosOfChar(e[3]) == v4 < 64)
    ensures DecodeChunk(e) == Bytes(if IsPad(e[2]) then [Byte1(v1, v2)]
                                    else if IsPad(e[3]) then [Byte1(v1, v2), Byte2(v2, v3)]
                                    else [Byte1(v1, v2), Byte2(v2, v3), Byte3(v3, v4)])
  {
  }

  /** The characters of a group, and which of them are padding. */
  lemma GroupChars(g: Bytes, url: bool, b: Byte, c: Byte)
    requires 0 < |g| <= 3 && b == (if |g| > 1 then g[1] else 0) && c == (if |g| > 2 then g[2] else 0)
    ensures var e := Encoded(g, url);
            && |e| == 4 && e[0] == CharAt(Sextet1(g[0]), url) && e[1] == CharAt(Sextet2(g[0], b), url)
            && e[2] == (if |g| > 1 then CharAt(Sextet3(b, c), url) else Pad(url))
            && e[3] == (if |g| > 2 then CharAt(Sextet4(c), url) else Pad(url))
  {
    if |g| == 3 {
      assert g[3..] == [];
    }
  }

  lemma GroupRoundTrip(g: Bytes, url: bool)
    requires 0 < |g| <= 3
    ensures |Encoded(g, url)| == 4 && DecodeChunk(Encoded(g, url)) == Bytes(g)
  {
    var a := g[0];
    var b := if |g| > 1 then g[1] else 0;
    var c := if |g| > 2 then g[2] else 0;
    GroupChars(g, url, b, c);
    SextetsBack(a, b, c);
    CharRoundTrip(Sextet1(a), url);
    CharRoundTrip(Sextet2(a, b), url);
    CharRoundTrip(Sextet3(b, c), url);
    CharRoundTrip(Sextet4(c), url);
    ChunkOf(Encoded(g, url), Sextet1(a), Sextet2(a, b), Sextet3(b, c), Sextet4(c));
  }

  /** Dropping all padding at the end. */
  function StripPad(e: Bytes): Bytes {
    if e != [] && IsPad(e[|e| - 1]) then StripPad(e[..|e| - 1]) else e
  }

  lemma {:induction false} StripAppend(x: Bytes, y: Bytes)
    requires forall c :: c in x ==> !IsPad(c)
    ensures StripPad(x + y) == x + StripPad(y)
  {
    if y == [] {
      assert x + y == x;
    } else {
      assert (x + y)[..|x + y| - 1] == x + y[..|y| - 1];
      StripAppend(x, y[..|y| - 1]);
    }
  }

  lemma GroupStripped(g: Bytes, url: bool)
    requires 0 < |g| <= 3
    ensures StripPad(Encoded(g, url)) == Encoded(g, url)[..|g| + 1]
    ensures DecodeChunk(Encoded(g, url)[..|g| + 1]) == Bytes(g)
    ensures forall c :: c in Encoded(g, url)[..|g| + 1] ==> !IsPad(c)
  {
    GroupRoundTrip(g, url);
    var e := Encoded(g, url);
    var kept := e[..|g| + 1];
    forall c | c in kept ensures !IsPad(c) {
      var b := if |g| > 1 then g[1] else 0;
      var d := if |g| > 2 then g[2] else 0;
      CharRoundTrip(Sextet1(g[0]), url);
      CharRoundTrip(Sextet2(g[0], b), url);
      CharRoundTrip(Sextet3(b, d), url);
      CharRoundTrip(Sextet4(d), url);
    }
    var pads := e[|g| + 1..];
    assert e == kept + pads;
    StripAppend(kept, pads);
    if |g| == 1 {
      assert pads[..1][..0] == [] && StripPad(pads[..1]) == StripPad(pads[..1][..0]);
    } else if |g| == 2 {
      assert pads[..0] == [];
    }
  }

  lemma StrippedSplit(s: Bytes, url: bool)
    requires |s| > 3
    ensures var e := StripPad(Encoded(s, url));
            |e| >= 4 && e[..4] == Encoded(s[..3], url) && e[4..] == StripPad(Encoded(s[3..], url))
  {
    EncodedSplit(s, url);
    GroupRoundTrip(s[..3], url);
    GroupStripped(s[..3], url);
    StripAppend(Encoded(s[..3], url), Encoded(s[3..], url));
  }

  /** The same with the padding stripped. */
  lemma {:induction false} StrippedRoundTrip(s: Bytes, url: bool)
    ensures Decode(StripPad(Encoded(s, url))) == Bytes(s)
  {
    if |s| > 3 {
      StrippedSplit(s, url);
      GroupRoundTrip(s[..3], url);
      StrippedRoundTrip(s[3..], url);
      assert s[..3] + s[3..] == s;
    } else if s != [] {
      GroupStripped(s, url);
      var e := StripPad(Encoded(s, url));
      assert e[..|e|] == e && e[|e|..] == [];
    }
  }

  /** Decoding splits at every multiple of four characters, padding in the
      first part included; a failure of the first part comes first. */
  lemma {:induction false} DecodeConcat(x: Bytes, y: Bytes)
    requires |x| % 4 == 0
    ensures Decode(x + y) == Then(Decode(x), Decode(y))
  {
    if x == [] {
      assert x + y == y;
      if Decode(y).Bytes? {
        assert [] + Decode(y).value == Decode(y).value;
      }
    } else {
      assert (x + y)[..4] == x[..4] && (x + y)[4..] == x[4..] + y;
      DecodeConcat(x[4..], y);
      ThenAssoc(DecodeChunk(x[..4]), Decode(x[4..]), Decode(y));
    }
  }

  lemma ThenAssoc(a: Decoded, b: Decoded, c: Decoded)
    ensures Then(Then(a, b), c) == Then(a, Then(b, c))
  {
    if a.Bytes? && b.Bytes? && c.Bytes? {
      assert a.value + b.value + c.value == a.value + (b.value + c.value);
    }
  }

  // ----------------------------------------------------------- line breaks

  /** A newline after every `distance` characters, none at the end. */
  function Broken(s: Bytes, distance: nat): Bytes
    requires distance > 0
  {
    if |s| <= distance then s else s[..distance] + [NEWLINE] + Broken(s[distance..], distance)
  }

  /** The insertion loop, in place in its own copy of the text. */
  method InsertLinebreaks(s: Bytes, distance: nat) returns (str: Bytes)
    requires distance > 0
    ensures str == Broken(s, distance)
  {
    str := s;
    if |str| == 0 {
      return [];
    }
    var pos := distance;
    assert str[..0] + Broken(str[0..], distance) == Broken(s, distance) by {
      assert str[0..] == s;
    }
    while pos < |str|
      invariant distance <= pos <= |str| + distance
      invariant str[..pos - distance] + Broken(str[pos - distance..], distance) == Broken(s, distance)
      decreases |str| - pos
    {
      InsertOne(str, pos, distance);
      str := str[..pos] + [NEWLINE] + str[pos..];
      pos := pos + distance + 1;
    }
  }

  lemma InsertOne(str: Bytes, pos: nat, distance: nat)
    requires 0 < distance <= pos < |str|
    ensures var str' := str[..pos] + [NEWLINE] + str[pos..];
            str'[..pos + 1] + Broken(str'[pos + 1..], distance) == str[..pos - distance] + Broken(str[pos - distance..], distance)
  {
    var str' := str[..pos] + [NEWLINE] + str[pos..];
    var rest := str[pos - distance..];
    assert str'[pos + 1..] == str[pos..] == rest[distance..];
    assert str'[..pos + 1] == str[..pos - distance] + rest[..distance] + [NEWLINE];
  }

  /** What `remove_linebreaks` erases before decoding. */
  function WithoutNewlines(s: Bytes): Bytes {
    if s == [] then []
    else if s[0] == NEWLINE then WithoutNewlines(s[1..])
    else [s[0]] + WithoutNewlines(s[1..])
  }

  function DecodeRemoving(e: Bytes): Decoded {
    if e == [] then Bytes([]) else Decode(WithoutNewlines(e))
  }

  /** The text cut at its newlines. */
  function Lines(s: Bytes): seq<Bytes> {
    if s == [] then [[]]
    else if s[0] == NEWLINE then [[]] + Lines(s[1..])
    else [[s[0]] + Lines(s[1..])[0]] + Lines(s[1..])[1..]
  }

  predicate NewlineFree(s: Bytes) {
    forall i :: 0 <= i < |s| ==> s[i] != NEWLINE
  }

  lemma {:induction false} LinesAppend(a: Bytes, b: Bytes)
    requires NewlineFree(a)
    ensures Lines(a + [NEWLINE] + b) == [a] + Lines(b)
    ensures WithoutNewlines(a + [NEWLINE] + b) == a + WithoutNewlines(b)
  {
    var whole := a + [NEWLINE] + b;
    if a == [] {
      assert whole[1..] == b;
    } else {
      var rest := a[1..] + [NEWLINE] + b;
      assert whole[1..] == rest;
      assert whole[0] == a[0] && a[0] != NEWLINE;
      LinesAppend(a[1..], b);
      assert Lines(rest)[0] == a[1..] && Lines(rest)[1..] == Lines(b);
      assert a == [a[0]] + a[1..];
      assert [a[0]] + (a[1..] + WithoutNewlines(b)) == a + WithoutNewlines(b);
    }
  }

  lemma {:induction false} OneLine(a: Bytes)
    requires NewlineFree(a)
    ensures Lines(a) == [a] && WithoutNewlines(a) == a
  {
    if a != [] {
      OneLine(a[1..]);
      assert [a[0]] + a[1..] == a;
    }
  }

  /** The lines are the text cut every `distance` characters, so all but the
      last have exactly that length; removing the breaks restores the text. */
  lemma {:induction false} BrokenLines(s: Bytes, distance: nat)
    requires distance > 0 && NewlineFree(s)
    ensures s != [] ==> Lines(Broken(s, distance)) == Chunks(s, distance)
    ensures WithoutNewlines(Broken(s, distance)) == s
  {
    if |s| <= distance {
      OneLine(s);
    } else {
      BrokenLines(s[distance..], distance);
      LinesAppend(s[..distance], Broken(s[distance..], distance));
      assert s[..distance] + s[distance..] == s;
    }
  }

  lemma BrokenLineLengths(s: Bytes, distance: nat)
    requires distance > 0 && NewlineFree(s) && s != []
    ensures var lines := Lines(Broken(s, distance));
            && Flatten(lines) == s
            && (forall i :: 0 <= i < |lines| - 1 ==> |lines[i]| == distance)
            && 0 < |lines[|lines| - 1]| <= distance
  {
    BrokenLines(s, distance);
    ChunksMeaning(s, distance);
  }

  lemma {:induction false} EncodedNewlineFree(s: Bytes, url: bool)
    ensures NewlineFree(Encoded(s, url))
  {
    if s != [] {
      var b := if |s| > 1 then s[1] else 0;
      var d := if |s| > 2 then s[2] else 0;
      CharRoundTrip(Sextet1(s[0]), url);
      CharRoundTrip(Sextet2(s[0], b), url);
      CharRoundTrip(Sextet3(b, d), url);
      CharRoundTrip(Sextet4(d), url);
      if |s| >= 3 {
        EncodedNewlineFree(s[3..], url);
      }
    }
  }

  /** Broken into lines of any length, PEM's 64 and MIME's 76 among them, an
      encoding decodes back once the breaks are removed. */
  lemma BrokenRoundTrip(s: Bytes, distance: nat)
    requires distance > 0
    ensures DecodeRemoving(Broken(Encoded(s, false), distance)) == Bytes(s)
  {
    EncodedNewlineFree(s, false);
    BrokenLines(Encoded(s, false), distance);
    RoundTrip(s, false);
  }
}
