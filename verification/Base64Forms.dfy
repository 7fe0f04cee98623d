/** Which characters the encodings are made of, and which decoding refuses. */
module Base64Forms {
  import opened Common
  import opened Pieces
  import opened Base64

  /** Tables 1 and 2 of RFC 4648: A to Z, a to z and 0 to 9 in this order, then
      "+" and "/", or "-" and "_" in the form for URLs. */
  lemma AlphabetIs(url: bool)
    ensures CharAt(0, url) == 65 && CharAt(25, url) == 90
    ensures CharAt(26, url) == 97 && CharAt(51, url) == 122
    ensures CharAt(52, url) == 48 && CharAt(61, url) == 57
    ensures CharAt(62, url) == (if url then 45 else 43) && CharAt(63, url) == (if url then 95 else 47)
    ensures forall v: Byte :: v < 61 && v != 25 && v != 51 ==> CharAt(v + 1, url) == CharAt(v, url) + 1
  {
  }

  /** The padding is "=", but "." in the form for URLs. */
  lemma PadIs(url: bool)
    ensures Pad(url) == if url then 46 else 61
  {
  }

  /** Only these are emitted, and the padding only at the end, in the amount
      that fills the last group. */
  lemma {:induction false} EmittedOnly(s: Bytes, url: bool)
    ensures var e := Encoded(s, url);
            var pads := (3 - |s| % 3) % 3;
            && |e| >= pads
            && (forall i :: 0 <= i < |e| - pads ==> exists v: Byte :: v < 64 && e[i] == CharAt(v, url))
            && (forall i :: |e| - pads <= i < |e| ==> e[i] == Pad(url))
  {
    if |s| >= 3 {
      EmittedOnly(s[3..], url);
      var e, head, rest := Encoded(s, url), Encoded(s[..3], url), Encoded(s[3..], url);
      EncodedSplit(s, url);
      GroupChars(s[..3], url, s[1], s[2]);
      assert e[..4] == head && forall i :: 4 <= i < |e| ==> e[i] == rest[i - 4];
      assert |s[3..]| % 3 == |s| % 3;
    }
  }

  /** Three bytes and their four sextets are the same 24 bits. */
  lemma SameBits(a: Byte, b: Byte, c: Byte)
    ensures ((a as bv24) << 16) | ((b as bv24) << 8) | (c as bv24)
         == ((Sextet1(a) as bv24) << 18) | ((Sextet2(a, b) as bv24) << 12) | ((Sextet3(b, c) as bv24) << 6) | (Sextet4(c) as bv24)
  {
  }

  ghost predicate InForm(c: Byte, url: bool) {
    exists v: Byte :: v < 64 && c == CharAt(v, url)
  }

  /** Decoding knows exactly the characters of the two alphabets. */
  lemma AlphabetsOnly(c: Byte)
    ensures InAlphabet(c) <==> InForm(c, false) || InForm(c, true)
  {
    if InAlphabet(c) {
      Reached(c, PosOfChar(c));
    } else {
      forall v: Byte, url | v < 64 ensures c != CharAt(v, url) {
        CharRoundTrip(v, url);
      }
    }
  }

  lemma Reached(c: Byte, v: Byte)
    requires PosOfChar(c) == v < 64
    ensures c == CharAt(v, false) || c == CharAt(v, true)
  {
  }

  /** Section 10 of RFC 4648: "foobar" and its shorter beginnings. */
  lemma TestVectors()
    ensures Encoded([102], false) == [90, 103, 61, 61]
    ensures Encoded([102, 111], false) == [90, 109, 56, 61]
    ensures Encoded([102, 111, 111], false) == [90, 109, 57, 118]
    ensures Encoded([102, 111, 111, 98, 97, 114], false) == [90, 109, 57, 118, 89, 109, 70, 121]
  {
    assert [102, 111, 111][3..] == [];
    assert [102, 111, 111, 98, 97, 114][3..] == [98, 97, 114] && [98, 97, 114][3..] == [];
  }

  /** The characters decoding looks up: the first two of every group, and the
      third and fourth up to a padding character. */
  predicate LookedUp(e: Bytes, i: nat)
    requires i < |e|
  {
    i % 4 < 2 || (i % 4 == 2 && !IsPad(e[i])) || (i % 4 == 3 && !IsPad(e[i - 1]) && !IsPad(e[i]))
  }

  lemma ChunkDecodes(q: Bytes)
    requires 0 < |q| <= 4
    ensures DecodeChunk(q).Bytes? <==> |q| != 1 && forall i :: 0 <= i < |q| && LookedUp(q, i) ==> InAlphabet(q[i])
  {
  }

  /** A text decodes exactly if no group is a single character and every
      character looked up is in one of the alphabets. */
  lemma {:induction false} DecodesExactly(e: Bytes)
    ensures Decode(e).Bytes? <==> |e| % 4 != 1 && forall i :: 0 <= i < |e| && LookedUp(e, i) ==> InAlphabet(e[i])
  {
    if |e| > 4 {
      var q, rest := e[..4], e[4..];
      ChunkDecodes(q);
      DecodesExactly(rest);
      SplitLookups(e);
    } else if e != [] {
      ChunkDecodes(e);
      assert e[..|e|] == e && e[|e|..] == [];
    }
  }

  lemma SplitLookups(e: Bytes)
    requires |e| > 4
    ensures (forall i :: 0 <= i < |e| && LookedUp(e, i) ==> InAlphabet(e[i])) <==>
            (forall i :: 0 <= i < 4 && LookedUp(e[..4], i) ==> InAlphabet(e[..4][i]))
            && (forall i :: 0 <= i < |e[4..]| && LookedUp(e[4..], i) ==> InAlphabet(e[4..][i]))
  {
    forall i | 0 <= i < 4 ensures LookedUp(e[..4], i) == LookedUp(e, i) && e[..4][i] == e[i] {
    }
    forall i | 4 <= i < |e| ensures LookedUp(e[4..], i - 4) == LookedUp(e, i) && e[4..][i - 4] == e[i] {
    }
    forall i | 0 <= i < |e[4..]| ensures LookedUp(e[4..], i) == LookedUp(e, i + 4) && e[4..][i] == e[i + 4] {
    }
  }
}
