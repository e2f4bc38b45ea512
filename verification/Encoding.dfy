/**
 * The length-prefixed encoding under every audit digest and signature
 * (`hash_field`, `append_field`) and its injectivity.
 */
module Encoding {
  import opened Base

  ghost function Pow256(k: nat): (p: int)
    ensures p > 0
  {
    if k == 0 then 1 else 256 * Pow256(k - 1)
  }

  /** The k low-order bytes of n, most significant first. */
  function BigEndian(n: nat, k: nat): (b: Text)
    ensures |b| == k
    decreases k
  {
    if k == 0 then [] else BigEndian(n / 256, k - 1) + [n % 256]
  }

  /** `u64::to_be_bytes`. */
  function U64(n: nat): (b: Text)
    ensures |b| == 8
  {
    BigEndian(n, 8)
  }

  /** `i64::to_be_bytes`: two's complement. */
  function I64(n: int): (b: Text)
    ensures |b| == 8
  {
    U64(n % WORD)
  }

  lemma {:induction false} BigEndianInjective(n: nat, m: nat, k: nat)
    requires n < Pow256(k) && m < Pow256(k)
    requires BigEndian(n, k) == BigEndian(m, k)
    ensures n == m
    decreases k
  {
    if k > 0 {
      var a, b := BigEndian(n / 256, k - 1), BigEndian(m / 256, k - 1);
      assert BigEndian(n, k)[..k - 1] == a && BigEndian(m, k)[..k - 1] == b;
      assert BigEndian(n, k)[k - 1] == n % 256 && BigEndian(m, k)[k - 1] == m % 256;
      BigEndianInjective(n / 256, m / 256, k - 1);
    }
  }

  lemma WordIsPow256()
    ensures Pow256(8) == WORD
  {
    assert Pow256(4) == 0x1_0000_0000;
    assert Pow256(6) == 0x1_0000_0000_0000;
  }

  lemma U64Injective(n: nat, m: nat)
    requires n < WORD && m < WORD && U64(n) == U64(m)
    ensures n == m
  {
    WordIsPow256();
    BigEndianInjective(n, m, 8);
  }

  lemma TwosComplement(n: int)
    requires -WORD / 2 <= n < WORD / 2
    ensures n % WORD == if n < 0 then n + WORD else n
  {
  }

  lemma I64Injective(n: int, m: int)
    requires -WORD / 2 <= n < WORD / 2 && -WORD / 2 <= m < WORD / 2
    requires I64(n) == I64(m)
    ensures n == m
  {
    TwosComplement(n);
    TwosComplement(m);
    U64Injective(n % WORD, m % WORD);
  }

  /** One length-prefixed field. */
  function Field(f: Text): (b: Text)
    ensures |b| == 8 + |f|
  {
    U64(|f|) + f
  }

  function Fields(fs: seq<Text>): Text {
    if fs == [] then [] else Field(fs[0]) + Fields(fs[1..])
  }

  /** A length prefix can express every field length. */
  ghost predicate AllFit(fs: seq<Text>) {
    forall i :: 0 <= i < |fs| ==> |fs[i]| < WORD
  }

  lemma FieldIsSelfDelimiting(f: Text, g: Text, r: Text, s: Text)
    requires |f| < WORD && |g| < WORD
    requires Field(f) + r == Field(g) + s
    ensures f == g && r == s
  {
    var x, y := Field(f) + r, Field(g) + s;
    assert x[..8] == U64(|f|) && y[..8] == U64(|g|);
    U64Injective(|f|, |g|);
    assert x[8..8 + |f|] == f && y[8..8 + |g|] == g;
    assert x[8 + |f|..] == r && y[8 + |g|..] == s;
  }

  /** Two field lists with the same bytes are the same list, whatever their lengths. */
  lemma {:induction false} FieldsInjective(fs: seq<Text>, gs: seq<Text>)
    requires AllFit(fs) && AllFit(gs)
    requires Fields(fs) == Fields(gs)
    ensures fs == gs
    decreases |fs|
  {
    if fs != [] && gs != [] {
      FieldIsSelfDelimiting(fs[0], gs[0], Fields(fs[1..]), Fields(gs[1..]));
      FieldsInjective(fs[1..], gs[1..]);
      assert fs == [fs[0]] + fs[1..] && gs == [gs[0]] + gs[1..];
    }
  }

  // ----- reading back ---------------------------------------------------------------------------

  /** The number that bytes spell, most significant first. */
  function Value(b: Text): (n: nat) {
    if b == [] then 0 else 256 * Value(b[..|b| - 1]) + b[|b| - 1]
  }

  /** The number that eight bytes spell in two's complement. */
  function SignedValue(b: Text): int {
    if |b| > 0 && b[0] >= 128 then Value(b) - WORD else Value(b)
  }

  lemma {:induction false} BigEndianReadsBack(n: nat, k: nat)
    requires n < Pow256(k)
    ensures Value(BigEndian(n, k)) == n
    decreases k
  {
    if k > 0 {
      var b := BigEndian(n, k);
      assert b[..k - 1] == BigEndian(n / 256, k - 1) && b[k - 1] == n % 256;
      BigEndianReadsBack(n / 256, k - 1);
    }
  }

  lemma U64ReadsBack(n: nat)
    requires n < WORD
    ensures Value(U64(n)) == n
  {
    WordIsPow256();
    BigEndianReadsBack(n, 8);
  }

  /** The leading byte holds the highest bits. */
  lemma {:induction false} LeadingByte(b: Text)
    requires b != []
    ensures b[0] * Pow256(|b| - 1) <= Value(b) < (b[0] + 1) * Pow256(|b| - 1)
    decreases |b|
  {
    if |b| == 1 {
      assert Value(b[..0]) == 0 && Value(b) == b[0] && Pow256(0) == 1;
    } else {
      var c := b[..|b| - 1];
      LeadingByte(c);
      ScaleUp(b[0], Pow256(|c| - 1), Value(c), b[|b| - 1]);
      assert Pow256(|b| - 1) == 256 * Pow256(|c| - 1);
    }
  }

  lemma ScaleUp(x: int, p: int, v: int, last: int)
    requires x * p <= v < (x + 1) * p && 0 <= last < 256
    ensures x * (256 * p) <= 256 * v + last < (x + 1) * (256 * p)
  {
    assert x * (256 * p) == 256 * (x * p) && (x + 1) * (256 * p) == 256 * ((x + 1) * p);
  }

  lemma I64ReadsBack(n: int)
    requires -WORD / 2 <= n < WORD / 2
    ensures SignedValue(I64(n)) == n
  {
    TwosComplement(n);
    U64ReadsBack(n % WORD);
    LeadingByte(I64(n));
    SevenBytes();
  }

  lemma SevenBytes()
    ensures Pow256(7) == 0x100_0000_0000_0000
  {
    assert Pow256(4) == 0x1_0000_0000;
    assert Pow256(6) == 0x1_0000_0000_0000;
  }

  /** The fields of a length-prefixed text, or nothing if the lengths do not add up. */
  function ReadFields(t: Text, count: nat): Option<seq<Text>>
    decreases count
  {
    if count == 0 then if t == [] then Some([]) else None
    else if |t| < 8 || |t| < 8 + Value(t[..8]) then None
    else
      var n := Value(t[..8]);
      var more := ReadFields(t[8 + n..], count - 1);
      if more.None? then None else Some([t[8..8 + n]] + more.value)
  }

  /** Reading gives the fields back, in their order. */
  lemma {:induction false} FieldsReadBack(fs: seq<Text>)
    requires AllFit(fs)
    ensures ReadFields(Fields(fs), |fs|) == Some(fs)
    decreases |fs|
  {
    if fs != [] {
      var f, rest := fs[0], Fields(fs[1..]);
      FieldsReadBack(fs[1..]);
      U64ReadsBack(|f|);
      FieldParts(f, rest);
      hide U64;
      hide Value;
      hide Field;
      assert fs == [f] + fs[1..];
      assert Fields(fs) == Field(f) + rest;
      hide Fields;
    }
  }

  lemma FieldParts(f: Text, rest: Text)
    ensures var t := Field(f) + rest; |t| >= 8 + |f| && t[..8] == U64(|f|) && t[8..8 + |f|] == f && t[8 + |f|..] == rest
  {
    hide U64;
  }
}
