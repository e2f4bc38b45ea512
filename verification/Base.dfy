/** Types shared by every component: optional values, fallible results and byte text. */
module Base {

  datatype Option<+T> = None | Some(value: T)

  datatype Result<+T, +E> = Ok(value: T) | Err(error: E)

  type byte = x: int | 0 <= x < 256

  /** Stored text is the UTF-8 byte sequence that the database and the digests see. */
  type Text = seq<byte>

  /** The bytes of an ASCII literal. */
  function Ascii(s: string): (t: Text)
    ensures |t| == |s|
    ensures forall i :: 0 <= i < |s| ==> t[i] == s[i] as int % 256
  {
    seq(|s|, i requires 0 <= i < |s| => s[i] as int % 256)
  }

  const WORD: int := 0x1_0000_0000_0000_0000

  /** The byte length of the Unicode White_Space character that starts `v`, or 0. */
  function LeadingSpace(v: Text): (n: nat)
    ensures n <= |v|
  {
    if |v| == 0 then 0
    else if 9 <= v[0] <= 13 || v[0] == 0x20 then 1
    else if |v| >= 2 && v[0] == 0xC2 && (v[1] == 0x85 || v[1] == 0xA0) then 2
    else if |v| < 3 then 0
    else if v[0] == 0xE1 && v[1] == 0x9A && v[2] == 0x80 then 3
    else if v[0] == 0xE2 && v[1] == 0x80 &&
            (0x80 <= v[2] <= 0x8A || v[2] == 0xA8 || v[2] == 0xA9 || v[2] == 0xAF) then 3
    else if v[0] == 0xE2 && v[1] == 0x81 && v[2] == 0x9F then 3
    else if v[0] == 0xE3 && v[1] == 0x80 && v[2] == 0x80 then 3
    else 0
  }

  /** `value.trim().is_empty()` */
  predicate Blank(v: Text)
    decreases |v|
  {
    v == [] || (LeadingSpace(v) > 0 && Blank(v[LeadingSpace(v)..]))
  }
}
