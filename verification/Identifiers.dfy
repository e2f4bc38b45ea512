/**
 * What `validate_identifier` accepts (crates/henosis-audit/src/lib.rs), said of the characters of a text instead of
 * its bytes: UTF-8 as in section 3 of RFC 3629.
 */
module Identifiers {
  import opened Base
  import opened AuditChain

  type Scalar = c: int | 0 <= c < 0xD800 || 0xE000 <= c < 0x11_0000

  function Encode(c: Scalar): (t: Text)
    ensures 1 <= |t| <= 4
  {
    if c < 0x80 then [c]
    else if c < 0x800 then [0xC0 + c / 64, 0x80 + c % 64]
    else if c < 0x1_0000 then [0xE0 + c / 4096, 0x80 + c / 64 % 64, 0x80 + c % 64]
    else [0xF0 + c / 26_2144, 0x80 + c / 4096 % 64, 0x80 + c / 64 % 64, 0x80 + c % 64]
  }

  function EncodeAll(cs: seq<Scalar>): Text {
    if cs == [] then [] else Encode(cs[0]) + EncodeAll(cs[1..])
  }

  /** The Unicode property White_Space. */
  predicate WhiteSpace(c: Scalar) {
    || 0x09 <= c <= 0x0D || c == 0x20 || c == 0x85 || c == 0xA0 || c == 0x1680 || 0x2000 <= c <= 0x200A
    || c == 0x2028 || c == 0x2029 || c == 0x202F || c == 0x205F || c == 0x3000
  }

  /** The Unicode category Control. */
  predicate Control(c: Scalar) {
    c < 0x20 || 0x7F <= c <= 0x9F
  }

  lemma Leads(c: Scalar, rest: Text)
    ensures LeadingSpace(Encode(c) + rest) == if WhiteSpace(c) then |Encode(c)| else 0
  {
  }

  lemma {:induction false} BlankMeans(cs: seq<Scalar>)
    ensures Blank(EncodeAll(cs)) <==> forall i :: 0 <= i < |cs| ==> WhiteSpace(cs[i])
    decreases |cs|
  {
    if cs != [] {
      var t, rest := Encode(cs[0]), EncodeAll(cs[1..]);
      BlankMeans(cs[1..]);
      Leads(cs[0], rest);
      assert (t + rest)[|t|..] == rest;
      assert cs == [cs[0]] + cs[1..];
      hide Encode;
      hide LeadingSpace;
    }
  }

  /** One byte of a control character, or its two. */
  predicate ControlAt(v: Text, i: int) {
    0 <= i < |v| && (v[i] < 0x20 || v[i] == 0x7F || (i + 1 < |v| && v[i] == 0xC2 && 0x80 <= v[i + 1] < 0xA0))
  }

  lemma ControlsAt(v: Text)
    ensures HasControl(v) <==> exists i :: ControlAt(v, i)
  {
    if HasControl(v) {
      if i :| 0 <= i < |v| && (v[i] < 0x20 || v[i] == 0x7F) {
        assert ControlAt(v, i);
      } else {
        var i, j :| 0 <= i < |v| && j == i + 1 && j < |v| && v[i] == 0xC2 && 0x80 <= v[j] < 0xA0;
        assert ControlAt(v, i);
      }
    }
  }

  lemma FirstControl(c: Scalar, rest: Text)
    ensures Control(c) <==> exists i :: 0 <= i < |Encode(c)| && ControlAt(Encode(c) + rest, i)
  {
    if Control(c) { assert ControlAt(Encode(c) + rest, 0); }
  }

  lemma {:induction false} ControlMeans(cs: seq<Scalar>)
    ensures HasControl(EncodeAll(cs)) <==> exists i :: 0 <= i < |cs| && Control(cs[i])
    decreases |cs|
  {
    ControlsAt(EncodeAll(cs));
    if cs != [] {
      var t, rest := Encode(cs[0]), EncodeAll(cs[1..]);
      ControlMeans(cs[1..]);
      ControlsAt(rest);
      FirstControl(cs[0], rest);
      hide Encode;
      hide HasControl;
      hide Control;
      ControlsSplit(t, rest);
      assert cs == [cs[0]] + cs[1..];
    }
  }

  lemma ControlsSplit(t: Text, rest: Text)
    ensures (exists i :: ControlAt(t + rest, i)) <==> (exists i :: 0 <= i < |t| && ControlAt(t + rest, i)) || exists i :: ControlAt(rest, i)
  {
    var v := t + rest;
    if i :| ControlAt(v, i) {
      if i >= |t| { assert ControlAt(rest, i - |t|); }
    }
    if i :| ControlAt(rest, i) {
      assert ControlAt(v, |t| + i);
    }
  }

  /** An identifier has at most 512 bytes, some character that is not white space, and no control character. */
  lemma IdentifiersMean(cs: seq<Scalar>)
    ensures ValidIdentifier(EncodeAll(cs)) <==>
      && |EncodeAll(cs)| <= 512
      && (exists i :: 0 <= i < |cs| && !WhiteSpace(cs[i]))
      && (forall i :: 0 <= i < |cs| ==> !Control(cs[i]))
  {
    BlankMeans(cs);
    ControlMeans(cs);
    hide Blank;
    hide HasControl;
    hide WhiteSpace;
    hide Control;
  }
}
