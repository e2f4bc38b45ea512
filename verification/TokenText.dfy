/**
 * The token identities that approvals accept: the text of version 4 UUIDs
 * (`canonical_token_identity`, crates/henosis-approval/src/lib.rs).
 */
module TokenText {
  import opened Base
  import opened Approvals
  import opened Scrub

  /** The hyphenated text of sixteen bytes, in lower-case hex. */
  function UuidText(u: Text): (t: Text)
    requires |u| == 16
    ensures |t| == 36
  {
    Hex(u[..4], false) + [0x2D] + Hex(u[4..6], false) + [0x2D] + Hex(u[6..8], false) + [0x2D] + Hex(u[8..10], false) + [0x2D] + Hex(u[10..], false)
  }

  predicate LowerDigit(x: byte) {
    0x30 <= x <= 0x39 || 0x61 <= x <= 0x66
  }

  /** Lower-case digits decode to bytes that print as those digits. */
  lemma {:induction false} DigitsBack(t: Text)
    requires |t| % 2 == 0 && forall i :: 0 <= i < |t| ==> LowerDigit(t[i])
    ensures 2 * |FromHex(t)| == |t| && Hex(FromHex(t), false) == t
    decreases |t|
  {
    if t != [] {
      DigitsBack(t[2..]);
      var u := FromHex(t);
      assert u[1..] == FromHex(t[2..]);
      assert u[0] / 16 == Nibble(t[0]) && u[0] % 16 == Nibble(t[1]);
      assert t == [t[0], t[1]] + t[2..];
    }
  }

  lemma UuidIsCanonical(u: Text)
    requires |u| == 16 && u[6] / 16 == 4
    ensures CanonicalToken(UuidText(u))
  {
    HexRoundTrip(u[..4], false);
    HexRoundTrip(u[4..6], false);
    HexRoundTrip(u[6..8], false);
    HexRoundTrip(u[8..10], false);
    HexRoundTrip(u[10..], false);
    assert Hex(u[6..8], false)[0] == 0x34;
    hide Hex;
    hide FromHex;
  }

  /** The text of the five groups between the hyphens. */
  lemma Groups(t: Text)
    requires |t| == 36 && t[8] == 0x2D && t[13] == 0x2D && t[18] == 0x2D && t[23] == 0x2D
    ensures t == t[..8] + [0x2D] + t[9..13] + [0x2D] + t[14..18] + [0x2D] + t[19..23] + [0x2D] + t[24..]
  {
  }

  lemma CanonicalIsUuid(t: Text) returns (u: Text)
    requires CanonicalToken(t)
    ensures |u| == 16 && u[6] / 16 == 4 && t == UuidText(u)
  {
    var a, b, c, d, e := t[..8], t[9..13], t[14..18], t[19..23], t[24..];
    DigitsBack(a);
    DigitsBack(b);
    DigitsBack(c);
    DigitsBack(d);
    DigitsBack(e);
    Groups(t);
    u := FromHex(a) + FromHex(b) + FromHex(c) + FromHex(d) + FromHex(e);
    assert FromHex(c)[0] == 16 * Nibble(t[14]) + Nibble(t[15]);
    assert u[..4] == FromHex(a) && u[4..6] == FromHex(b) && u[6..8] == FromHex(c) && u[8..10] == FromHex(d) && u[10..] == FromHex(e);
    hide FromHex;
    hide Hex;
  }

  /** A token identity is accepted exactly when it is the text of a version 4 UUID. */
  lemma TokensAreUuids(t: Text)
    ensures CanonicalToken(t) <==> exists u: Text :: |u| == 16 && u[6] / 16 == 4 && t == UuidText(u)
  {
    if CanonicalToken(t) {
      var u := CanonicalIsUuid(t);
    }
    if u: Text :| |u| == 16 && u[6] / 16 == 4 && t == UuidText(u) {
      UuidIsCanonical(u);
    }
  }
}
