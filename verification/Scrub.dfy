/**
 * Scrubbing a secret and its encodings out of command output
 * (crates/henosis-credential-store/src/resolve.rs). The encodings are base64 (section 4 of RFC 4648) and
 * base16 in both cases (section 8 of RFC 4648).
 */
module Scrub {
  import opened Base

  // ----- occurrences -----------------------------------------------------------------------------------

  predicate Starts(h: Text, p: Text) {
    |p| <= |h| && h[..|p|] == p
  }

  predicate Occurs(h: Text, p: Text) {
    exists i :: 0 <= i <= |h| && Starts(h[i..], p)
  }

  /** Neither contains the other, and no end of one is a beginning of the other. */
  ghost predicate NoOverlap(p: Text, m: Text) {
    && !Occurs(m, p) && !Occurs(p, m)
    && (forall i :: 0 < i < |m| ==> !Starts(p, m[i..]))
    && (forall i :: 0 < i < |p| ==> !Starts(m, p[i..]))
  }

  // ----- replacement -----------------------------------------------------------------------------------

  /** Leftmost non-overlapping replacement of a nonempty needle. */
  function ReplaceAll(h: Text, n: Text, m: Text): Text
    requires n != []
  {
    if h == [] then []
    else if Starts(h, n) then m + ReplaceAll(h[|n|..], n, m)
    else [h[0]] + ReplaceAll(h[1..], n, m)
  }

  function Replaced(h: Text, n: Text, m: Text): Text {
    if n == [] then h else ReplaceAll(h, n, m)
  }

  lemma {:induction false} ShortStays(h: Text, n: Text, m: Text)
    requires |h| < |n|
    ensures ReplaceAll(h, n, m) == h
  {
    if h != [] { ShortStays(h[1..], n, m); }
  }

  /** `replace_all_bytes`. */
  method ReplaceAllBytes(haystack: Text, needle: Text, replacement: Text) returns (out: Text)
    ensures out == Replaced(haystack, needle, replacement)
  {
    if needle == [] { return haystack; }
    if |haystack| < |needle| {
      ShortStays(haystack, needle, replacement);
      return haystack;
    }
    hide ReplaceAll;
    out := [];
    var i := 0;
    ghost var goal := ReplaceAll(haystack, needle, replacement);
    assert haystack[0..] == haystack && out + goal == goal;
    while i < |haystack|
      invariant 0 <= i <= |haystack|
      invariant out + ReplaceAll(haystack[i..], needle, replacement) == goal
    {
      ReplaceStep(haystack, needle, replacement, i);
      if i + |needle| <= |haystack| && haystack[i..i + |needle|] == needle {
        Regroup(out, replacement, ReplaceAll(haystack[i + |needle|..], needle, replacement));
        out, i := out + replacement, i + |needle|;
      } else {
        Regroup(out, [haystack[i]], ReplaceAll(haystack[i + 1..], needle, replacement));
        out, i := out + [haystack[i]], i + 1;
      }
    }
    NothingLeft(haystack, needle, replacement);
    assert out + [] == out;
  }

  lemma Regroup(a: Text, b: Text, c: Text)
    ensures a + (b + c) == a + b + c
  {
  }

  lemma NothingLeft(h: Text, n: Text, m: Text)
    requires n != []
    ensures ReplaceAll(h[|h|..], n, m) == []
  {
  }

  lemma ReplaceStep(h: Text, n: Text, m: Text, i: nat)
    requires n != [] && i < |h|
    ensures ReplaceAll(h[i..], n, m) ==
      if i + |n| <= |h| && h[i..i + |n|] == n then m + ReplaceAll(h[i + |n|..], n, m) else [h[i]] + ReplaceAll(h[i + 1..], n, m)
  {
    var rest := h[i..];
    assert rest[1..] == h[i + 1..];
    if i + |n| <= |h| {
      assert rest[..|n|] == h[i..i + |n|] && rest[|n|..] == h[i + |n|..];
    }
  }

  // ----- replacement as splitting and joining ------------------------------------------------------------

  /** The stretches between the occurrences that are replaced. */
  function Split(h: Text, n: Text): (ps: seq<Text>)
    requires n != []
    ensures ps != []
  {
    if h == [] then [[]]
    else if Starts(h, n) then [[]] + Split(h[|n|..], n)
    else
      var rest := Split(h[1..], n);
      [[h[0]] + rest[0]] + rest[1..]
  }

  function Join(ps: seq<Text>, m: Text): Text
    requires ps != []
  {
    if |ps| == 1 then ps[0] else ps[0] + m + Join(ps[1..], m)
  }

  lemma JoinLonger(x: byte, ps: seq<Text>, m: Text)
    requires ps != []
    ensures Join([[x] + ps[0]] + ps[1..], m) == [x] + Join(ps, m)
  {
    var qs := [[x] + ps[0]] + ps[1..];
    assert qs[1..] == ps[1..];
    if |ps| > 1 { assert [x] + ps[0] + m + Join(ps[1..], m) == [x] + (ps[0] + m + Join(ps[1..], m)); }
  }

  lemma JoinAfterEmpty(ps: seq<Text>, m: Text)
    requires ps != []
    ensures Join([[]] + ps, m) == m + Join(ps, m)
  {
    assert ([[]] + ps)[1..] == ps;
    assert [] + m + Join(ps, m) == m + Join(ps, m);
  }

  /** Only the occurrences change: the same stretches joined by the needle are the input, by the marker the output. */
  lemma {:induction false} ReplaceIsSplitAndJoin(h: Text, n: Text, m: Text)
    requires n != []
    ensures Join(Split(h, n), n) == h && Join(Split(h, n), m) == ReplaceAll(h, n, m)
  {
    if h != [] {
      if Starts(h, n) {
        ReplaceIsSplitAndJoin(h[|n|..], n, m);
        JoinAfterEmpty(Split(h[|n|..], n), n);
        JoinAfterEmpty(Split(h[|n|..], n), m);
        assert h == n + h[|n|..];
      } else {
        ReplaceIsSplitAndJoin(h[1..], n, m);
        JoinLonger(h[0], Split(h[1..], n), n);
        JoinLonger(h[0], Split(h[1..], n), m);
      }
    }
  }

  /** No stretch holds the needle, so the replaced occurrences are all there are. */
  lemma {:induction false} StretchesAreClean(h: Text, n: Text, k: nat)
    requires n != [] && k < |Split(h, n)|
    ensures !Occurs(Split(h, n)[k], n)
  {
    if h == [] {
      assert Split(h, n)[k] == [];
    } else if Starts(h, n) {
      if k > 0 { StretchesAreClean(h[|n|..], n, k - 1); }
    } else {
      var rest := Split(h[1..], n);
      StretchesAreClean(h[1..], n, k);
      if k == 0 {
        SplitHead(h[1..], n);
        ConsClean(h, rest[0], n);
      }
    }
  }

  lemma {:induction false} SplitHead(h: Text, n: Text)
    requires n != []
    ensures Starts(h, Split(h, n)[0])
  {
    if h != [] && !Starts(h, n) { SplitHead(h[1..], n); }
  }

  lemma ConsClean(h: Text, p: Text, n: Text)
    requires h != [] && n != [] && !Starts(h, n) && Starts(h[1..], p) && !Occurs(p, n)
    ensures !Occurs([h[0]] + p, n)
  {
    var q := [h[0]] + p;
    forall i | 0 <= i <= |q| ensures !Starts(q[i..], n) {
      if i == 0 {
        StartsMeans(q, n);
        StartsMeans(h, n);
        StartsMeans(h[1..], p);
        assert forall k :: 0 <= k < |q| ==> q[k] == h[k];
      } else {
        assert q[i..] == p[i - 1..];
      }
    }
  }

  lemma {:induction false} NothingToReplace(h: Text, n: Text, m: Text)
    requires n != [] && !Occurs(h, n)
    ensures ReplaceAll(h, n, m) == h
  {
    if h != [] {
      assert h[0..] == h;
      TailFree(h, n, 1);
      NothingToReplace(h[1..], n, m);
    }
  }

  lemma TailFree(h: Text, p: Text, k: nat)
    requires !Occurs(h, p) && k <= |h|
    ensures !Occurs(h[k..], p)
  {
    forall i | 0 <= i <= |h| - k ensures !Starts(h[k..][i..], p) {
      assert h[k..][i..] == h[k + i..];
    }
  }

  // ----- what replacement removes, and what it cannot bring back -------------------------------------------

  lemma StartsMeans(h: Text, p: Text)
    ensures Starts(h, p) <==> |p| <= |h| && forall i :: 0 <= i < |p| ==> h[i] == p[i]
  {
    if |p| <= |h| && forall i :: 0 <= i < |p| ==> h[i] == p[i] { assert h[..|p|] == p; }
  }

  lemma StartsConcat(a: Text, b: Text, p: Text)
    requires Starts(a + b, p)
    ensures if |p| <= |a| then Starts(a, p) else Starts(p, a)
  {
    StartsMeans(a + b, p);
    StartsMeans(a, p);
    StartsMeans(p, a);
  }

  /** A text that starts with the marker cannot start with an end of a pattern that does not overlap it. */
  lemma MarkerBlocks(m: Text, rest: Text, p: Text, k: nat)
    requires NoOverlap(p, m) && k < |p|
    ensures !Starts(m + rest, p[k..])
  {
    assert m[0..] == m && p[0..] == p;
    assert !Starts(m, p[k..]) && !Starts(p[k..], m);
    if Starts(m + rest, p[k..]) { StartsConcat(m, rest, p[k..]); }
  }

  /** Whatever the output starts with, up to an end of the pattern, the input started with already. */
  lemma {:induction false} VerbatimStart(h: Text, n: Text, m: Text, p: Text, k: nat)
    requires n != [] && NoOverlap(p, m) && k <= |p| && Starts(ReplaceAll(h, n, m), p[k..])
    ensures Starts(h, p[k..])
    decreases |h|
  {
    if k < |p| && h != [] {
      if Starts(h, n) {
        MarkerBlocks(m, ReplaceAll(h[|n|..], n, m), p, k);
      } else {
        var r := ReplaceAll(h[1..], n, m);
        assert p[k..] == [p[k]] + p[k + 1..];
        assert ([h[0]] + r)[..|p| - k] == [h[0]] + r[..|p| - k - 1];
        VerbatimStart(h[1..], n, m, p, k + 1);
        assert h[..|p| - k] == [h[0]] + h[1..][..|p| - k - 1];
      }
    }
  }

  lemma MarkerClean(m: Text, rest: Text, p: Text)
    requires p != [] && NoOverlap(p, m) && !Occurs(rest, p)
    ensures !Occurs(m + rest, p)
  {
    var t := m + rest;
    forall i | 0 <= i <= |t| ensures !Starts(t[i..], p) {
      if i >= |m| {
        assert t[i..] == rest[i - |m|..];
      } else {
        assert t[i..] == m[i..] + rest;
        InsideMarker(m, rest, p, i);
      }
    }
  }

  lemma InsideMarker(m: Text, rest: Text, p: Text, i: nat)
    requires p != [] && NoOverlap(p, m) && i < |m|
    ensures !Starts(m[i..] + rest, p)
  {
    assert m[0..] == m && p[0..] == p;
    assert !Starts(m[i..], p) && !Starts(p, m[i..]);
    if Starts(m[i..] + rest, p) { StartsConcat(m[i..], rest, p); }
  }

  /**
   * If the pattern does not overlap the marker, then after replacing it, or after replacing anything in a
   * text free of it, the text is free of it.
   */
  lemma {:induction false} ReplacementIsFree(h: Text, n: Text, m: Text, p: Text)
    requires n != [] && p != [] && NoOverlap(p, m) && (n == p || !Occurs(h, p))
    ensures !Occurs(ReplaceAll(h, n, m), p)
    decreases |h|
  {
    var r := ReplaceAll(h, n, m);
    if h == [] {
      assert forall i :: 0 <= i <= |r| ==> |r[i..]| == 0;
    } else if Starts(h, n) {
      if n != p { TailFree(h, p, |n|); }
      ReplacementIsFree(h[|n|..], n, m, p);
      MarkerClean(m, ReplaceAll(h[|n|..], n, m), p);
    } else {
      if n != p { TailFree(h, p, 1); }
      ReplacementIsFree(h[1..], n, m, p);
      var rest := ReplaceAll(h[1..], n, m);
      assert h[0..] == h && p[0..] == p;
      if Starts(r, p) { VerbatimStart(h, n, m, p, 0); }
      forall i | 0 <= i <= |r| ensures !Starts(r[i..], p) {
        if i > 0 { assert r[i..] == rest[i - 1..]; } else { assert r[i..] == r; }
      }
    }
  }

  // ----- the encodings -------------------------------------------------------------------------------------

  type Sextet = x: int | 0 <= x < 64

  function Base64Char(x: Sextet): byte {
    if x < 26 then 0x41 + x else if x < 52 then 0x61 + (x - 26) else if x < 62 then 0x30 + (x - 52) else if x == 62 then 0x2B else 0x2F
  }

  // The four sextets of three bytes.
  function First(x: byte): Sextet { x / 4 }
  function Second(x: byte, y: byte): Sextet { x % 4 * 16 + y / 16 }
  function Third(y: byte, z: byte): Sextet { y % 16 * 4 + z / 64 }
  function Fourth(z: byte): Sextet { z % 64 }

  /** RFC 4648 section 4, with padding. */
  function Base64(s: Text): (t: Text)
    ensures |t| == (|s| + 2) / 3 * 4
  {
    if |s| == 0 then []
    else if |s| == 1 then [Base64Char(First(s[0])), Base64Char(Second(s[0], 0)), 0x3D, 0x3D]
    else if |s| == 2 then [Base64Char(First(s[0])), Base64Char(Second(s[0], s[1])), Base64Char(Third(s[1], 0)), 0x3D]
    else
      [Base64Char(First(s[0])), Base64Char(Second(s[0], s[1])), Base64Char(Third(s[1], s[2])), Base64Char(Fourth(s[2]))]
      + Base64(s[3..])
  }

  function HexDigit(x: int, upper: bool): byte
    requires 0 <= x < 16
  {
    if x < 10 then 0x30 + x else if upper then 0x41 + (x - 10) else 0x61 + (x - 10)
  }

  /** RFC 4648 section 8. */
  function Hex(s: Text, upper: bool): (t: Text)
    ensures |t| == 2 * |s|
  {
    if s == [] then [] else [HexDigit(s[0] / 16, upper), HexDigit(s[0] % 16, upper)] + Hex(s[1..], upper)
  }

  /** The value of a base16 character, either case (section 8). */
  function Nibble(c: byte): (x: int)
    ensures 0 <= x < 16
  {
    if 0x30 <= c <= 0x39 then c - 0x30 else if 0x41 <= c <= 0x46 then c - 0x41 + 10 else if 0x61 <= c <= 0x66 then c - 0x61 + 10 else 0
  }

  function FromHex(t: Text): Text {
    if |t| < 2 then [] else [16 * Nibble(t[0]) + Nibble(t[1])] + FromHex(t[2..])
  }

  /** Decoding gives the secret back, and each form keeps to its own letters. */
  lemma {:induction false} HexRoundTrip(s: Text, upper: bool)
    ensures FromHex(Hex(s, upper)) == s
    ensures forall i :: 0 <= i < |Hex(s, upper)| ==>
      var c := Hex(s, upper)[i]; 0x30 <= c <= 0x39 || (if upper then 0x41 <= c <= 0x46 else 0x61 <= c <= 0x66)
  {
    if s != [] {
      HexRoundTrip(s[1..], upper);
      DigitBack(s[0] / 16, upper);
      DigitBack(s[0] % 16, upper);
      var t := Hex(s, upper);
      assert t[2..] == Hex(s[1..], upper);
      assert s == [s[0]] + s[1..];
    }
  }

  lemma DigitBack(x: int, upper: bool)
    requires 0 <= x < 16
    ensures var c := HexDigit(x, upper); Nibble(c) == x && (0x30 <= c <= 0x39 || (if upper then 0x41 <= c <= 0x46 else 0x61 <= c <= 0x66))
  {
  }

  function Sextets(c: byte): Sextet {
    if 0x41 <= c <= 0x5A then c - 0x41 else if 0x61 <= c <= 0x7A then c - 0x61 + 26 else if 0x30 <= c <= 0x39 then c - 0x30 + 52
    else if c == 0x2B then 62 else if c == 0x2F then 63 else 0
  }

  lemma CharBack(x: Sextet)
    ensures Sextets(Base64Char(x)) == x && Base64Char(x) != 0x3D
  {
  }

  // The three bytes of four sextets.
  function High(a: Sextet, b: Sextet): byte { 4 * a + b / 16 }
  function Middle(b: Sextet, c: Sextet): byte { b % 16 * 16 + c / 4 }
  function Low(c: Sextet, d: Sextet): byte { c % 4 * 64 + d }

  /** Decoding by the same section: padding shortens the last group. */
  function FromBase64(t: Text): Text {
    if |t| < 4 then []
    else
      var a, b, c, d := Sextets(t[0]), Sextets(t[1]), Sextets(t[2]), Sextets(t[3]);
      if t[2] == 0x3D then [High(a, b)]
      else if t[3] == 0x3D then [High(a, b), Middle(b, c)]
      else [High(a, b), Middle(b, c), Low(c, d)] + FromBase64(t[4..])
  }

  lemma GroupBack(x: byte, y: byte, z: byte)
    ensures High(First(x), Second(x, y)) == x && Middle(Second(x, y), Third(y, z)) == y && Low(Third(y, z), Fourth(z)) == z
  {
  }

  lemma DecodeGroup(a: Sextet, b: Sextet, c: Sextet, d: Sextet, rest: Text)
    ensures FromBase64([Base64Char(a), Base64Char(b), Base64Char(c), Base64Char(d)] + rest)
      == [High(a, b), Middle(b, c), Low(c, d)] + FromBase64(rest)
  {
    CharBack(a);
    CharBack(b);
    CharBack(c);
    CharBack(d);
    hide Base64Char;
    hide Sextets;
    hide High;
    hide Middle;
    hide Low;
    var t := [Base64Char(a), Base64Char(b), Base64Char(c), Base64Char(d)] + rest;
    assert t[4..] == rest;
  }

  lemma DecodeTail(a: Sextet, b: Sextet, c: Sextet)
    ensures FromBase64([Base64Char(a), Base64Char(b), 0x3D, 0x3D]) == [High(a, b)]
    ensures FromBase64([Base64Char(a), Base64Char(b), Base64Char(c), 0x3D]) == [High(a, b), Middle(b, c)]
  {
    CharBack(a);
    CharBack(b);
    CharBack(c);
    hide Base64Char;
    hide Sextets;
    hide High;
    hide Middle;
    hide Low;
  }

  lemma {:induction false} Base64RoundTrip(s: Text)
    ensures FromBase64(Base64(s)) == s
    decreases |s|
  {
    hide First;
    hide Second;
    hide Third;
    hide Fourth;
    hide High;
    hide Middle;
    hide Low;
    hide Base64Char;
    hide Sextets;
    if |s| > 2 {
      Base64RoundTrip(s[3..]);
      GroupRoundTrip(s);
    } else if |s| == 2 {
      GroupBack(s[0], s[1], 0);
      DecodeTail(First(s[0]), Second(s[0], s[1]), Third(s[1], 0));
      hide FromBase64;
      assert s == [s[0], s[1]];
    } else if |s| == 1 {
      GroupBack(s[0], 0, 0);
      DecodeTail(First(s[0]), Second(s[0], 0), 0);
      hide FromBase64;
      assert s == [s[0]];
    }
  }

  lemma GroupRoundTrip(s: Text)
    requires |s| > 2 && FromBase64(Base64(s[3..])) == s[3..]
    ensures FromBase64(Base64(s)) == s
  {
    hide *;
    Base64Step(s);
    GroupDecodes(s[0], s[1], s[2], Base64(s[3..]), s[3..]);
    assert s == [s[0], s[1], s[2]] + s[3..];
  }

  lemma GroupDecodes(x: byte, y: byte, z: byte, rest: Text, t: Text)
    requires FromBase64(rest) == t
    ensures FromBase64([Base64Char(First(x)), Base64Char(Second(x, y)), Base64Char(Third(y, z)), Base64Char(Fourth(z))] + rest) == [x, y, z] + t
  {
    hide *;
    GroupBack(x, y, z);
    DecodeGroup(First(x), Second(x, y), Third(y, z), Fourth(z), rest);
  }

  lemma Base64Step(s: Text)
    requires |s| > 2
    ensures Base64(s) ==
      [Base64Char(First(s[0])), Base64Char(Second(s[0], s[1])), Base64Char(Third(s[1], s[2])), Base64Char(Fourth(s[2]))] + Base64(s[3..])
  {
  }

  /** No encoding uses a bracket. */
  ghost predicate BracketFree(t: Text) {
    forall i :: 0 <= i < |t| ==> t[i] != 0x5B && t[i] != 0x5D
  }

  lemma {:induction false} EncodingsBracketFree(s: Text, upper: bool)
    ensures BracketFree(Hex(s, upper)) && BracketFree(Base64(s))
    decreases |s|
  {
    HexBracketFree(s, upper);
    if |s| > 2 {
      EncodingsBracketFree(s[3..], upper);
    }
  }

  lemma {:induction false} HexBracketFree(s: Text, upper: bool)
    ensures BracketFree(Hex(s, upper))
  {
    if s != [] { HexBracketFree(s[1..], upper); }
  }

  // ----- the scrubber -----------------------------------------------------------------------------------------

  /** "[redacted]" */
  const MARKER: Text := [0x5B, 0x72, 0x65, 0x64, 0x61, 0x63, 0x74, 0x65, 0x64, 0x5D]

  lemma MarkerText()
    ensures MARKER == Ascii("[redacted]")
  {
    var t := Ascii("[redacted]");
    assert t == MARKER;
  }

  function Encodings(secret: Text): (r: seq<Text>)
    ensures |r| == 4
  {
    [secret, Base64(secret), Hex(secret, false), Hex(secret, true)]
  }

  /** The passes of `scrub_secret` up to pass `k`. */
  function Passes(output: Text, encodings: seq<Text>, k: nat): Text
    requires k <= |encodings|
  {
    if k == 0 then output else Replaced(Passes(output, encodings, k - 1), encodings[k - 1], MARKER)
  }

  /** Each later pass keeps what the earlier ones removed. */
  lemma {:induction false} PassesRemove(output: Text, es: seq<Text>, k: nat, j: nat)
    requires j < k <= |es| && forall e :: e in es ==> e != [] && NoOverlap(e, MARKER)
    ensures !Occurs(Passes(output, es, k), es[j])
  {
    assert es[j] in es && es[k - 1] in es;
    if j < k - 1 { PassesRemove(output, es, k - 1, j); }
    ReplacementIsFree(Passes(output, es, k - 1), es[k - 1], MARKER, es[j]);
  }

  ghost predicate Scrubbed(out: Text, secret: Text) {
    forall e :: e in Encodings(secret) ==> !Occurs(out, e)
  }

  // ----- a short secret that leaks ----------------------------------------------------------------------------

  /** A needle alone becomes the marker. */
  lemma WholeNeedle(n: Text)
    requires n != []
    ensures ReplaceAll(n, n, MARKER) == MARKER
  {
    assert n[..|n|] == n && n[|n|..] == [];
    assert ReplaceAll([], n, MARKER) == [];
  }

  /** Six bytes whose base64 form is the word inside the marker. */
  const SHORT: Text := [0xAD, 0xE7, 0x5A, 0x72, 0xD7, 0x9D]
  const REDACTED: Text := [0x72, 0x65, 0x64, 0x61, 0x63, 0x74, 0x65, 0x64]

  lemma ShortEncodesToWord()
    ensures Base64(SHORT) == REDACTED
  {
    assert SHORT[3..] == [0x72, 0xD7, 0x9D] && SHORT[3..][3..] == [];
    assert Base64([]) == [];
    assert Base64([0x72, 0xD7, 0x9D]) == [0x63, 0x74, 0x65, 0x64] + Base64([]);
  }

  lemma ShortNoOverlap()
    ensures NoOverlap(SHORT, MARKER) && !Occurs(REDACTED, SHORT)
  {
    forall i | 0 <= i <= |MARKER| ensures !Starts(MARKER[i..], SHORT) {
      StartsMeans(MARKER[i..], SHORT);
      assert SHORT[0] == 0xAD;
    }
    forall i | 0 <= i <= |REDACTED| ensures !Starts(REDACTED[i..], SHORT) {
      StartsMeans(REDACTED[i..], SHORT);
      assert SHORT[0] == 0xAD;
    }
    forall i | 0 <= i <= |SHORT| ensures !Starts(SHORT[i..], MARKER) {
    }
    forall i | 0 < i < |MARKER| ensures !Starts(SHORT, MARKER[i..]) {
      StartsMeans(SHORT, MARKER[i..]);
      assert SHORT[0] == 0xAD && MARKER[i..][0] == MARKER[i];
    }
    forall i | 0 < i < |SHORT| ensures !Starts(MARKER, SHORT[i..]) {
      StartsMeans(MARKER, SHORT[i..]);
      assert SHORT[i..][5 - i] == 0x9D;
    }
  }

  /** Overlap of the raw form is not the whole condition: this six-byte secret has none and still leaks. */
  lemma SixBytesCanLeak()
    ensures |SHORT| == 6 && NoOverlap(SHORT, MARKER) && !Scrubbed(Passes(REDACTED, Encodings(SHORT), 4), SHORT)
  {
    ShortEncodesToWord();
    ShortNoOverlap();
    hide Base64;
    hide Hex;
    hide ReplaceAll;
    hide NoOverlap;
    var es := Encodings(SHORT);
    NothingToReplace(REDACTED, SHORT, MARKER);
    WholeNeedle(REDACTED);
    ShortStays(MARKER, Hex(SHORT, false), MARKER);
    ShortStays(MARKER, Hex(SHORT, true), MARKER);
    assert Passes(REDACTED, es, 1) == REDACTED;
    assert Passes(REDACTED, es, 2) == MARKER;
    assert Passes(REDACTED, es, 3) == MARKER;
    assert MARKER[1..][..|REDACTED|] == REDACTED;
    assert es[1] in es && Starts(MARKER[1..], REDACTED);
  }
}
