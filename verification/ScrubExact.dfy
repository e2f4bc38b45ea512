/**
 * Exactly which secrets `scrub_secret` removes from every output
 * (crates/henosis-credential-store/src/resolve.rs): the condition, its sufficiency, and for every secret
 * outside it an output that leaks.
 */
module ScrubExact {
  import opened Base
  import opened Scrub

  /** The raw form does not overlap the marker, and the marker holds neither the base64 nor the lower-case hex form. */
  ghost predicate Removable(s: Text) {
    s != [] && NoOverlap(s, MARKER) && !Occurs(MARKER, Base64(s)) && !Occurs(MARKER, Hex(s, false))
  }

  ghost predicate AlwaysScrubbed(s: Text) {
    forall output :: Scrubbed(Passes(output, Encodings(s), 4), s)
  }

  // ----- characters of the encodings -----------------------------------------------------------------------

  predicate UpperHex(x: byte) {
    0x30 <= x <= 0x39 || 0x41 <= x <= 0x46
  }

  lemma {:induction false} HexAt(s: Text, upper: bool, i: nat)
    requires i < |s|
    ensures Hex(s, upper)[2 * i] == HexDigit(s[i] / 16, upper) && Hex(s, upper)[2 * i + 1] == HexDigit(s[i] % 16, upper)
    decreases |s|
  {
    if i > 0 { HexAt(s[1..], upper, i - 1); }
  }

  lemma {:induction false} UpperHexOnly(s: Text, i: nat)
    requires i < 2 * |s|
    ensures UpperHex(Hex(s, true)[i])
  {
    HexAt(s, true, i / 2);
    assert i == 2 * (i / 2) || i == 2 * (i / 2) + 1;
  }

  /** The place in the base64 text that an opening bracket at `i` decides. */
  function BracketPlace(i: nat): nat {
    4 * (i / 3) + if i % 3 == 0 then 0 else i % 3 + 1
  }

  /** There the base64 text has a character that hex does not use. */
  lemma {:induction false} BracketShows(s: Text, i: nat)
    requires i < |s| && s[i] == 0x5B
    ensures BracketPlace(i) < |Base64(s)| && !UpperHex(Base64(s)[BracketPlace(i)])
    decreases |s|
  {
    if i >= 3 {
      BracketShows(s[3..], i - 3);
      Base64Step(s);
      assert BracketPlace(i) == BracketPlace(i - 3) + 4;
    } else {
      BracketInGroup(s, i);
    }
  }

  lemma BracketInGroup(s: Text, i: nat)
    requires i < |s| && i < 3 && s[i] == 0x5B
    ensures BracketPlace(i) < |Base64(s)| && !UpperHex(Base64(s)[BracketPlace(i)])
  {
    GroupChars(s);
    BracketSextets(if |s| > 2 then s[2] else 0);
    hide Base64;
    hide Base64Char;
    hide First;
    hide Third;
    hide Fourth;
  }

  lemma GroupChars(s: Text)
    requires s != []
    ensures |Base64(s)| >= 4 && Base64(s)[0] == Base64Char(First(s[0]))
    ensures |s| > 1 ==> Base64(s)[2] == Base64Char(Third(s[1], if |s| > 2 then s[2] else 0))
    ensures |s| > 2 ==> Base64(s)[3] == Base64Char(Fourth(s[2]))
  {
    if |s| > 2 { Base64Step(s); }
  }

  lemma BracketSextets(z: byte)
    ensures !UpperHex(Base64Char(First(0x5B))) && !UpperHex(Base64Char(Third(0x5B, z))) && !UpperHex(Base64Char(Fourth(0x5B)))
  {
    assert 44 <= Third(0x5B, z) <= 47;
  }

  // ----- where a pattern cannot start --------------------------------------------------------------------------

  lemma StartsAt(h: Text, p: Text, k: nat, j: nat)
    requires k <= |h| && j < |p|
    ensures Starts(h[k..], p) ==> k + |p| <= |h| && h[k + j] == p[j]
  {
    StartsMeans(h[k..], p);
  }

  lemma FirstByteMissing(h: Text, p: Text)
    requires p != [] && forall i :: 0 <= i < |h| ==> h[i] != p[0]
    ensures !Occurs(h, p)
  {
    forall k | 0 <= k <= |h| ensures !Starts(h[k..], p) {
      StartsAt(h, p, k, 0);
    }
  }

  /** No character of the upper-case hex form is in the marker. */
  lemma MarkerHasNoUpperHex(s: Text)
    requires s != []
    ensures !Occurs(MARKER, Hex(s, true))
  {
    UpperHexOnly(s, 0);
    FirstByteMissing(MARKER, Hex(s, true));
  }

  // ----- secrets that hold an opening bracket ------------------------------------------------------------------

  /** The secret has a bracket after `x`, and `x` and `y` together are shorter than it. */
  ghost predicate BracketAfter(s: Text, x: Text, y: Text) {
    |x| + |y| < |s| && s[..|x|] == x && s[|x|] == 0x5B
  }

  lemma HexInside(s: Text, x: Text, y: Text, k: nat)
    requires |x| <= k < |x| + 2 * |s|
    ensures UpperHex((x + Hex(s, true) + y)[k])
  {
    UpperHexOnly(s, k - |x|);
  }

  lemma RawAbsent(s: Text, x: Text, y: Text)
    requires BracketAfter(s, x, y)
    ensures !Occurs(x + Hex(s, true) + y, s)
  {
    var out := x + Hex(s, true) + y;
    forall k | 0 <= k <= |out| ensures !Starts(out[k..], s) {
      StartsAt(out, s, k, |x|);
      if k < 2 * |s| { HexInside(s, x, y, k + |x|); }
    }
  }

  lemma Base64Absent(s: Text, x: Text, y: Text)
    requires BracketAfter(s, x, y)
    ensures !Occurs(x + Hex(s, true) + y, Base64(s))
  {
    var out, b, q := x + Hex(s, true) + y, Base64(s), BracketPlace(|x|);
    BracketShows(s, |x|);
    assert q >= |x| && |b| - q > |y|;
    forall k | 0 <= k <= |out| ensures !Starts(out[k..], b) {
      StartsAt(out, b, k, q);
      if k + q < |x| + 2 * |s| { HexInside(s, x, y, k + q); }
    }
  }

  lemma LowerHexAbsent(s: Text, x: Text, y: Text)
    requires BracketAfter(s, x, y)
    ensures !Occurs(x + Hex(s, true) + y, Hex(s, false))
  {
    var out, low, q := x + Hex(s, true) + y, Hex(s, false), 2 * |x| + 1;
    HexAt(s, false, |x|);
    forall k | 0 <= k <= |out| ensures !Starts(out[k..], low) {
      StartsAt(out, low, k, q);
      if k + q < |x| + 2 * |s| { HexInside(s, x, y, k + q); }
    }
  }

  /** The upper-case hex form does not start early: the prefix would have to be hex text, which its own hex form rules out. */
  lemma UpperHexNotEarly(s: Text, x: Text, y: Text, k: nat)
    requires BracketAfter(s, x, y) && k < |x|
    ensures !Starts((x + Hex(s, true) + y)[k..], Hex(s, true))
  {
    var h := Hex(s, true);
    var out, n, d := x + h + y, |x|, |x| - k;
    HexAt(s, true, n);
    assert h[2 * n] == 0x35 && h[2 * n + 1] == 0x42;
    var e := if d % 2 == 0 then 2 * n - d else 2 * n + 1 - d;
    assert e % 2 == 0 && 0 <= e;
    StartsAt(out, h, k, e + d);
    assert out[k + e + d] == h[e];
    if e < 2 * n {
      EarlyByte(s, x, y, k, e / 2);
    }
  }

  /** A byte of the prefix that an early start would make a hex character has the digit 3 or 4 in front. */
  lemma EarlyByte(s: Text, x: Text, y: Text, k: nat, j: nat)
    requires BracketAfter(s, x, y) && k <= j < |x|
    ensures Starts((x + Hex(s, true) + y)[k..], Hex(s, true)) ==> Hex(s, true)[2 * j] == 0x33 || Hex(s, true)[2 * j] == 0x34
  {
    var h := Hex(s, true);
    var out := x + h + y;
    StartsAt(out, h, k, j - k);
    assert out[j] == x[j] == s[j];
    UpperHexOnly(s, j - k);
    HexAt(s, true, j);
  }

  lemma {:induction false} FirstMatch(x: Text, n: Text, y: Text, m: Text)
    requires n != [] && forall k :: 0 <= k < |x| ==> !Starts((x + n + y)[k..], n)
    ensures ReplaceAll(x + n + y, n, m) == x + m + ReplaceAll(y, n, m)
    decreases |x|
  {
    var h := x + n + y;
    if x == [] {
      assert h == n + y && h[..|n|] == n && h[|n|..] == y;
      assert [] + m + ReplaceAll(y, n, m) == m + ReplaceAll(y, n, m);
    } else {
      assert h[0..] == h && h[1..] == x[1..] + n + y && h[0] == x[0];
      forall k | 0 <= k < |x[1..]| ensures !Starts((x[1..] + n + y)[k..], n) {
        assert (x[1..] + n + y)[k..] == h[k + 1..];
      }
      FirstMatch(x[1..], n, y, m);
      assert [x[0]] + (x[1..] + m + ReplaceAll(y, n, m)) == x + m + ReplaceAll(y, n, m);
    }
  }

  /** The four passes one after another. */
  lemma FourPasses(output: Text, s: Text, a: Text, b: Text, c: Text, d: Text)
    requires Replaced(output, s, MARKER) == a && Replaced(a, Base64(s), MARKER) == b
    requires Replaced(b, Hex(s, false), MARKER) == c && Replaced(c, Hex(s, true), MARKER) == d
    ensures Passes(output, Encodings(s), 4) == d
  {
    hide Replaced;
    hide Base64;
    hide Hex;
    var es := Encodings(s);
    assert Passes(output, es, 0) == output;
    assert Passes(output, es, 1) == a;
    assert Passes(output, es, 2) == b;
    assert Passes(output, es, 3) == c;
  }

  lemma Untouched(h: Text, n: Text)
    requires n != [] && !Occurs(h, n)
    ensures Replaced(h, n, MARKER) == h
  {
    NothingToReplace(h, n, MARKER);
  }

  /** Only the last pass finds anything, and it puts the marker between `x` and `y`. */
  lemma BracketOutput(s: Text, x: Text, y: Text)
    requires BracketAfter(s, x, y)
    ensures Passes(x + Hex(s, true) + y, Encodings(s), 4) == x + MARKER + y
  {
    var h := Hex(s, true);
    var out := x + h + y;
    RawAbsent(s, x, y);
    Untouched(out, s);
    Base64Absent(s, x, y);
    Untouched(out, Base64(s));
    LowerHexAbsent(s, x, y);
    Untouched(out, Hex(s, false));
    forall k | 0 <= k < |x| ensures !Starts(out[k..], h) {
      UpperHexNotEarly(s, x, y, k);
    }
    FirstMatch(x, h, y, MARKER);
    ShortStays(y, h, MARKER);
    FourPasses(out, s, out, out, out, x + MARKER + y);
  }

  // ----- a leak for every secret outside the condition -----------------------------------------------------------

  lemma RawLeaks(output: Text, s: Text)
    requires Occurs(Passes(output, Encodings(s), 4), s)
    ensures !AlwaysScrubbed(s)
  {
    assert Encodings(s)[0] in Encodings(s);
    assert !Scrubbed(Passes(output, Encodings(s), 4), s);
  }

  lemma OccursAt(h: Text, p: Text, k: nat)
    requires k + |p| <= |h| && h[k..k + |p|] == p
    ensures Occurs(h, p)
  {
    assert h[k..][..|p|] == h[k..k + |p|];
    assert Starts(h[k..], p);
  }

  /** The secret contains the whole marker. */
  lemma AroundMarkerLeaks(s: Text, i: nat)
    requires i <= |s| && Starts(s[i..], MARKER)
    ensures !AlwaysScrubbed(s)
  {
    var x, y := s[..i], s[i + 10..];
    assert s[i..][..10] == MARKER;
    assert s[i] == s[i..][..10][0] == MARKER[0];
    assert s == x + MARKER + y;
    BracketOutput(s, x, y);
    OccursAt(x + MARKER + y, s, 0);
    RawLeaks(x + Hex(s, true) + y, s);
  }

  /** The secret ends with a beginning of the marker. */
  lemma BeforeMarkerLeaks(s: Text, i: nat)
    requires 0 < i < |s| && Starts(MARKER, s[i..])
    ensures !AlwaysScrubbed(s)
  {
    var x := s[..i];
    var j := |s| - i;
    assert MARKER[..j] == s[i..];
    assert s[i] == s[i..][0] == MARKER[..j][0] == MARKER[0];
    BracketOutput(s, x, []);
    assert x + Hex(s, true) + [] == x + Hex(s, true) && x + MARKER + [] == x + MARKER;
    assert (x + MARKER)[..|s|] == x + MARKER[..j] == s;
    OccursAt(x + MARKER, s, 0);
    RawLeaks(x + Hex(s, true), s);
  }

  /** A bracket-free form that the marker does not hold cannot meet the marker anywhere. */
  lemma AbsentFormNoOverlap(p: Text)
    requires p != [] && BracketFree(p) && !Occurs(MARKER, p)
    ensures NoOverlap(p, MARKER)
  {
    forall i | 0 <= i <= |p| ensures !Starts(p[i..], MARKER) {
      StartsMeans(p[i..], MARKER);
      assert MARKER[0] == 0x5B;
    }
    forall i | 0 < i < |MARKER| ensures !Starts(p, MARKER[i..]) {
      StartsMeans(p, MARKER[i..]);
      assert MARKER[i..][9 - i] == 0x5D;
    }
    forall i | 0 < i < |p| ensures !Starts(MARKER, p[i..]) {
      StartsMeans(MARKER, p[i..]);
      assert MARKER[0] == 0x5B && p[i..][0] == p[i];
    }
  }

  /** After the marker and a tail shorter than the form, the form does not occur. */
  lemma FormAbsent(p: Text, t: Text)
    requires BracketFree(p) && |t| < |p| && !Occurs(MARKER, p)
    ensures Replaced(MARKER + t, p, MARKER) == MARKER + t
  {
    AbsentFormNoOverlap(p);
    forall k | 0 <= k <= |t| ensures !Starts(t[k..], p) {
    }
    MarkerClean(MARKER, t, p);
    Untouched(MARKER + t, p);
  }

  /** Once the first pass has produced the marker and a short tail, nothing more happens. */
  lemma MarkerStays(output: Text, s: Text, t: Text)
    requires s != [] && |t| < |s| && Replaced(output, s, MARKER) == MARKER + t
    requires !Occurs(MARKER, Base64(s)) && !Occurs(MARKER, Hex(s, false))
    ensures Passes(output, Encodings(s), 4) == MARKER + t
  {
    EncodingsBracketFree(s, false);
    EncodingsBracketFree(s, true);
    MarkerHasNoUpperHex(s);
    hide BracketFree;
    FormAbsent(Base64(s), t);
    FormAbsent(Hex(s, false), t);
    FormAbsent(Hex(s, true), t);
    FourPasses(output, s, MARKER + t, MARKER + t, MARKER + t, MARKER + t);
  }

  /** The marker contains the secret. */
  lemma InsideMarkerLeaks(s: Text)
    requires s != [] && Occurs(MARKER, s) && !Occurs(MARKER, Base64(s)) && !Occurs(MARKER, Hex(s, false))
    ensures !AlwaysScrubbed(s)
  {
    WholeNeedle(s);
    assert MARKER + [] == MARKER;
    MarkerStays(s, s, []);
    RawLeaks(s, s);
  }

  /** The secret starts with an end of the marker. */
  lemma AfterMarkerLeaks(s: Text, i: nat)
    requires 0 < i < |MARKER| && Starts(s, MARKER[i..]) && !Occurs(MARKER, Base64(s)) && !Occurs(MARKER, Hex(s, false))
    ensures !AlwaysScrubbed(s)
  {
    var t := s[|MARKER| - i..];
    assert s == MARKER[i..] + t;
    hide *;
    SecretThenTail(s, t);
    MarkerStays(s + t, s, t);
    assert |s| == |MARKER| - i + |t|;
    EndOfMarker(i, t);
    OccursAt(MARKER + t, s, i);
    RawLeaks(s + t, s);
  }

  lemma SecretThenTail(s: Text, t: Text)
    requires |t| < |s|
    ensures Replaced(s + t, s, MARKER) == MARKER + t
  {
    hide ReplaceAll;
    assert [] + s + t == s + t;
    FirstMatch([], s, t, MARKER);
    ShortStays(t, s, MARKER);
    assert [] + MARKER + t == MARKER + t;
  }

  lemma EndOfMarker(i: nat, t: Text)
    requires i <= |MARKER|
    ensures (MARKER + t)[i..i + |MARKER| - i + |t|] == MARKER[i..] + t
  {
  }

  /** The marker contains the lower-case hex form. */
  lemma LowerHexInMarkerLeaks(s: Text)
    requires s != [] && Occurs(MARKER, Hex(s, false))
    ensures !AlwaysScrubbed(s)
  {
    var low := Hex(s, false);
    LowerHexLetters(s);
    FirstByteMissing(low, s);
    Untouched(low, s);
    FirstByteMissing(low, Base64(s));
    Untouched(low, Base64(s));
    WholeNeedle(low);
    MarkerHasNoUpperHex(s);
    Untouched(MARKER, Hex(s, true));
    FourPasses(low, s, low, low, MARKER, MARKER);
    assert Encodings(s)[2] in Encodings(s);
    assert !Scrubbed(Passes(low, Encodings(s), 4), s);
  }

  /** A hex form inside the marker has no digit, so its secret starts above ASCII. */
  lemma LowerHexLetters(s: Text)
    requires s != [] && Occurs(MARKER, Hex(s, false))
    ensures forall i :: 0 <= i < 2 * |s| ==> 0x61 <= Hex(s, false)[i] <= 0x66
    ensures s[0] >= 0xA0
    ensures Base64(s) != [] && !(0x61 <= Base64(s)[0] <= 0x66)
  {
    forall i | 0 <= i < 2 * |s| ensures 0x61 <= Hex(s, false)[i] <= 0x66 {
      LowerHexLetter(s, i);
    }
    LowerHexLetter(s, 0);
    FirstBase64Char(s);
    HighFirstByte(s);
  }

  lemma LowerHexOnly(s: Text, i: nat)
    requires i < 2 * |s|
    ensures var x := Hex(s, false)[i]; 0x30 <= x <= 0x39 || 0x61 <= x <= 0x66
  {
    HexAt(s, false, i / 2);
    assert i == 2 * (i / 2) || i == 2 * (i / 2) + 1;
  }

  lemma LowerHexLetter(s: Text, i: nat)
    requires i < 2 * |s| && Occurs(MARKER, Hex(s, false))
    ensures 0x61 <= Hex(s, false)[i] <= 0x66
  {
    hide Hex;
    hide Occurs;
    LowerHexOnly(s, i);
    MarkerByte(Hex(s, false), i);
  }

  lemma HighFirstByte(s: Text)
    requires s != [] && 0x61 <= Hex(s, false)[0]
    ensures s[0] >= 0xA0 && !(0x61 <= Base64Char(First(s[0])) <= 0x66)
  {
    HexAt(s, false, 0);
    hide Hex;
  }

  lemma FirstBase64Char(s: Text)
    requires s != []
    ensures Base64(s) != [] && Base64(s)[0] == Base64Char(First(s[0]))
    ensures |Base64(s)| >= 2 && Base64(s)[1] == Base64Char(Second(s[0], if |s| > 1 then s[1] else 0))
  {
    if |s| > 2 { Base64Step(s); }
  }

  /** Every byte of a text inside the marker is one of the marker's bytes. */
  lemma MarkerByte(p: Text, j: nat)
    requires Occurs(MARKER, p) && j < |p|
    ensures p[j] in {0x5B, 0x72, 0x65, 0x64, 0x61, 0x63, 0x74, 0x5D}
  {
    var k :| 0 <= k <= |MARKER| && Starts(MARKER[k..], p);
    StartsAt(MARKER, p, k, j);
  }

  /** The marker contains the base64 form. */
  lemma Base64InMarkerLeaks(s: Text)
    requires s != [] && Occurs(MARKER, Base64(s)) && !Occurs(MARKER, Hex(s, false))
    ensures !AlwaysScrubbed(s)
  {
    var b := Base64(s);
    FirstBase64Char(s);
    NotInItsOwnBase64(s);
    Untouched(b, s);
    WholeNeedle(b);
    Untouched(MARKER, Hex(s, false));
    MarkerHasNoUpperHex(s);
    Untouched(MARKER, Hex(s, true));
    FourPasses(b, s, b, MARKER, MARKER, MARKER);
    assert Encodings(s)[1] in Encodings(s);
    assert !Scrubbed(Passes(b, Encodings(s), 4), s);
  }

  /** If the base64 form is part of the marker, the secret is not part of its base64 form. */
  lemma NotInItsOwnBase64(s: Text)
    requires s != [] && Occurs(MARKER, Base64(s))
    ensures !Occurs(Base64(s), s)
  {
    var b := Base64(s);
    EncodingsBracketFree(s, false);
    FirstBase64Char(s);
    MarkerByte(b, 0);
    MarkerByte(b, 1);
    forall k | 0 <= k <= |b| ensures !Starts(b[k..], s) {
      StartsAt(b, s, k, 0);
      if k < |b| { MarkerByte(b, k); }
      if |s| > 1 {
        StartsAt(b, s, k, 1);
        if k + 1 < |b| { MarkerByte(b, k + 1); }
      }
      TwoLetters(s);
    }
  }

  /** Two letters of the marker never encode to two letters of the marker. */
  lemma TwoLetters(s: Text)
    requires s != []
    ensures var y := if |s| > 1 then s[1] else 0;
      s[0] in {0x72, 0x65, 0x64, 0x61, 0x63, 0x74} && (y == 0 || y in {0x72, 0x65, 0x64, 0x61, 0x63, 0x74}) ==>
        !(Base64Char(First(s[0])) in {0x72, 0x65, 0x64, 0x61, 0x63, 0x74} && Base64Char(Second(s[0], y)) in {0x72, 0x65, 0x64, 0x61, 0x63, 0x74})
  {
  }

  lemma OutsideLeaks(s: Text)
    requires s != [] && !Removable(s)
    ensures !AlwaysScrubbed(s)
  {
    if Occurs(MARKER, Hex(s, false)) {
      LowerHexInMarkerLeaks(s);
    } else if Occurs(MARKER, Base64(s)) {
      Base64InMarkerLeaks(s);
    } else if Occurs(MARKER, s) {
      InsideMarkerLeaks(s);
    } else if i :| 0 <= i <= |s| && Starts(s[i..], MARKER) {
      AroundMarkerLeaks(s, i);
    } else if i :| 0 < i < |MARKER| && Starts(s, MARKER[i..]) {
      AfterMarkerLeaks(s, i);
    } else {
      var i :| 0 < i < |s| && Starts(MARKER, s[i..]);
      BeforeMarkerLeaks(s, i);
    }
  }

  lemma EmptyLeaks()
    ensures !AlwaysScrubbed([])
  {
    OccursAt(Passes([], Encodings([]), 4), [], 0);
    RawLeaks([], []);
  }

  lemma RemovableForms(s: Text)
    requires Removable(s)
    ensures forall e :: e in Encodings(s) ==> e != [] && NoOverlap(e, MARKER)
  {
    EncodingsBracketFree(s, false);
    EncodingsBracketFree(s, true);
    MarkerHasNoUpperHex(s);
    hide NoOverlap;
    hide BracketFree;
    AbsentFormNoOverlap(Base64(s));
    AbsentFormNoOverlap(Hex(s, false));
    AbsentFormNoOverlap(Hex(s, true));
  }

  /**
   * The exact condition, for every secret: no output keeps any form of it if and only if it is not empty, its raw
   * form does not overlap the marker, and the marker holds neither its base64 nor its lower-case hex form.
   */
  lemma ScrubExactly(s: Text)
    ensures AlwaysScrubbed(s) <==> Removable(s)
  {
    if Removable(s) {
      RemovableForms(s);
      forall output ensures Scrubbed(Passes(output, Encodings(s), 4), s) {
        PassesScrub(output, s);
      }
    } else if s == [] {
      EmptyLeaks();
    } else {
      OutsideLeaks(s);
    }
  }

  lemma PassesScrub(output: Text, s: Text)
    requires forall e :: e in Encodings(s) ==> e != [] && NoOverlap(e, MARKER)
    ensures Scrubbed(Passes(output, Encodings(s), 4), s)
  {
    hide NoOverlap;
    var es := Encodings(s);
    forall e | e in es ensures !Occurs(Passes(output, es, 4), e) {
      var j :| 0 <= j < |es| && es[j] == e;
      PassesRemove(output, es, 4, j);
    }
  }

  /** From seven bytes on, the raw form alone decides. */
  lemma LongSecretsExactly(s: Text)
    requires |s| >= 7
    ensures AlwaysScrubbed(s) <==> NoOverlap(s, MARKER)
  {
    ScrubExactly(s);
    TooLong(Base64(s));
    TooLong(Hex(s, false));
  }

  lemma TooLong(p: Text)
    requires |p| > |MARKER|
    ensures !Occurs(MARKER, p)
  {
    forall k | 0 <= k <= |MARKER| ensures !Starts(MARKER[k..], p) {
    }
  }

  /** What the scrubber looks for are the RFC 4648 forms: each decodes to the secret. */
  lemma FormsDecode(s: Text)
    ensures Encodings(s)[0] == s && FromBase64(Encodings(s)[1]) == s && FromHex(Encodings(s)[2]) == s && FromHex(Encodings(s)[3]) == s
    ensures forall i :: 0 <= i < |Encodings(s)[2]| ==> !(0x41 <= Encodings(s)[2][i] <= 0x46)
    ensures forall i :: 0 <= i < |Encodings(s)[3]| ==> !(0x61 <= Encodings(s)[3][i] <= 0x66)
  {
    Base64RoundTrip(s);
    HexRoundTrip(s, false);
    HexRoundTrip(s, true);
  }

  /** Two such secrets: one starts with the marker's last byte, one repeats its first. */
  lemma OverlappingSecretsLeak()
    ensures !AlwaysScrubbed([0x5D, 0x70, 0x61, 0x73, 0x73, 0x77, 0x6F, 0x72, 0x64])
    ensures !AlwaysScrubbed([0x5B, 0x5B, 0x5B, 0x5B, 0x5B, 0x5B, 0x5B])
  {
    hide AlwaysScrubbed;
    var a: Text, b: Text := [0x5D, 0x70, 0x61, 0x73, 0x73, 0x77, 0x6F, 0x72, 0x64], [0x5B, 0x5B, 0x5B, 0x5B, 0x5B, 0x5B, 0x5B];
    LongSecretsExactly(a);
    LongSecretsExactly(b);
    assert MARKER[9..] == [0x5D] == a[..1];
    assert Starts(a, MARKER[9..]);
    assert b[6..] == [0x5B] == MARKER[..1];
    assert Starts(MARKER, b[6..]);
  }

  /**
   * `scrub_secret`: every output loses every form of a removable secret. For any other secret, some output keeps
   * one, by `ScrubExactly`. An output without any form is returned as it is.
   */
  method ScrubSecret(output: Text, secret: Text) returns (out: Text)
    ensures out == Passes(output, Encodings(secret), 4)
    ensures Removable(secret) ==>
      !Occurs(out, secret) && !Occurs(out, Base64(secret)) && !Occurs(out, Hex(secret, false)) && !Occurs(out, Hex(secret, true))
    ensures !Occurs(output, secret) && !Occurs(output, Base64(secret)) && !Occurs(output, Hex(secret, false)) && !Occurs(output, Hex(secret, true)) ==>
      out == output
  {
    hide NoOverlap;
    var encodings := Encodings(secret);
    out := output;
    for k := 0 to |encodings|
      invariant out == Passes(output, encodings, k)
    {
      out := ReplaceAllBytes(out, encodings[k], MARKER);
    }
    if Removable(secret) {
      RemovableForms(secret);
      PassesScrub(output, secret);
      assert forall i :: 0 <= i < 4 ==> encodings[i] in Encodings(secret);
      assert encodings[0] == secret && encodings[1] == Base64(secret) && encodings[2] == Hex(secret, false) && encodings[3] == Hex(secret, true);
    }
    if !Occurs(output, secret) && !Occurs(output, Base64(secret)) && !Occurs(output, Hex(secret, false)) && !Occurs(output, Hex(secret, true)) {
      CleanStays(output, secret);
    }
  }

  lemma CleanStays(output: Text, secret: Text)
    requires !Occurs(output, secret) && !Occurs(output, Base64(secret)) && !Occurs(output, Hex(secret, false)) && !Occurs(output, Hex(secret, true))
    ensures Passes(output, Encodings(secret), 4) == output
  {
    assert secret == [] ==> Starts(output[0..], secret);
    Untouched(output, secret);
    GroupChars(secret);
    Untouched(output, Base64(secret));
    Untouched(output, Hex(secret, false));
    Untouched(output, Hex(secret, true));
    FourPasses(output, secret, output, output, output, output);
  }
}
