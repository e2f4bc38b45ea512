/**
 * JSON values and the two canonical printers: the sorting serializer of the audit crate
 * (crates/henosis-audit/src/lib.rs) and the depth-bounded writer of the approval crate
 * (crates/henosis-approval/src/lib.rs). Section numbers are those of RFC 8259.
 */
module CanonicalJson {
  import opened Base

  /**
   * A parsed JSON value. Object entries keep their iteration order, and a number is its printed
   * decimal text.
   */
  datatype Json =
    | Null
    | Bool(b: bool)
    | Number(literal: Text)
    | String(text: Text)
    | Array(items: seq<Json>)
    | Object(entries: seq<Entry>)

  datatype Entry = Entry(key: Text, value: Json)

  /** What a JSON text denotes: objects are unordered (section 4). */
  datatype Tree =
    | TNull
    | TBool(b: bool)
    | TNumber(literal: Text)
    | TString(text: Text)
    | TArray(items: seq<Tree>)
    | TObject(fields: map<Text, Tree>)

  const MAX_DEPTH: nat := 128

  predicate NumberByte(x: byte) {
    0x30 <= x <= 0x39 || x == 0x2B || x == 0x2D || x == 0x2E || x == 0x45 || x == 0x65
  }

  predicate DistinctKeys(es: seq<Entry>) {
    forall i, j :: 0 <= i < j < |es| ==> es[i].key != es[j].key
  }

  /** What a parsed value guarantees: unique keys, and number text made of number bytes. */
  predicate WellFormed(v: Json) {
    match v
    case Number(n) => n != [] && (forall i :: 0 <= i < |n| ==> NumberByte(n[i])) && (n[0] == 0x2D || 0x30 <= n[0] <= 0x39)
    case Array(items) => forall x :: x in items ==> WellFormed(x)
    case Object(es) => DistinctKeys(es) && forall e :: e in es ==> WellFormed(e.value)
    case _ => true
  }

  // ----- strings (section 7) -----------------------------------------------------------------

  function HexDigit(n: nat): (d: byte)
    requires n < 16
  {
    if n < 10 then 0x30 + n else 0x57 + n
  }

  function EscapeByte(x: byte): (e: Text)
    ensures e != [] && e[0] != 0x22
  {
    if x == 0x22 then [0x5C, 0x22]
    else if x == 0x5C then [0x5C, 0x5C]
    else if x == 0x08 then [0x5C, 0x62]
    else if x == 0x0C then [0x5C, 0x66]
    else if x == 0x0A then [0x5C, 0x6E]
    else if x == 0x0D then [0x5C, 0x72]
    else if x == 0x09 then [0x5C, 0x74]
    else if x < 0x20 then [0x5C, 0x75, 0x30, 0x30, HexDigit(x / 16), HexDigit(x % 16)]
    else [x]
  }

  function EscapeAll(s: Text): Text {
    if s == [] then [] else EscapeByte(s[0]) + EscapeAll(s[1..])
  }

  /** `serde_json::to_string` of a string. */
  function Quote(s: Text): (q: Text)
    ensures |q| >= 2 && q[0] == 0x22
  {
    [0x22] + EscapeAll(s) + [0x22]
  }

  lemma EscapeByteIsPrefixFree(x: byte, y: byte, r: Text, s: Text)
    requires EscapeByte(x) + r == EscapeByte(y) + s
    ensures x == y && r == s
  {
    var a, b := EscapeByte(x) + r, EscapeByte(y) + s;
    assert a[0] == EscapeByte(x)[0] && b[0] == EscapeByte(y)[0];
    if a[0] == 0x5C {
      assert a[1] == EscapeByte(x)[1] && b[1] == EscapeByte(y)[1];
      if a[1] == 0x75 {
        assert a[4] == EscapeByte(x)[4] && b[4] == EscapeByte(y)[4];
        assert a[5] == EscapeByte(x)[5] && b[5] == EscapeByte(y)[5];
      }
    }
    assert a[|EscapeByte(x)|..] == r && b[|EscapeByte(y)|..] == s;
  }

  /** The closing quote is the first unescaped quote. */
  lemma EscapedHead(a: Text, r: Text)
    ensures a == [] ==> EscapeAll(a) + [0x22] + r == [0x22] + r
    ensures a != [] ==> EscapeAll(a) + [0x22] + r == EscapeByte(a[0]) + (EscapeAll(a[1..]) + [0x22] + r)
    ensures (EscapeAll(a) + [0x22] + r)[0] == 0x22 <==> a == []
  {
  }

  lemma {:induction false} EscapedIsSelfDelimiting(a: Text, b: Text, r: Text, s: Text)
    requires EscapeAll(a) + [0x22] + r == EscapeAll(b) + [0x22] + s
    ensures a == b && r == s
  {
    EscapedHead(a, r);
    EscapedHead(b, s);
    if a == [] {
      assert ([0x22] + r)[1..] == r && ([0x22] + s)[1..] == s;
    } else {
      EscapeByteIsPrefixFree(a[0], b[0], EscapeAll(a[1..]) + [0x22] + r, EscapeAll(b[1..]) + [0x22] + s);
      EscapedIsSelfDelimiting(a[1..], b[1..], r, s);
      assert a == [a[0]] + a[1..] && b == [b[0]] + b[1..];
    }
  }

  lemma QuoteIsSelfDelimiting(a: Text, b: Text, r: Text, s: Text)
    requires Quote(a) + r == Quote(b) + s
    ensures a == b && r == s
  {
    var x, y := Quote(a) + r, Quote(b) + s;
    assert x[1..] == EscapeAll(a) + [0x22] + r && y[1..] == EscapeAll(b) + [0x22] + s;
    EscapedIsSelfDelimiting(a, b, r, s);
  }

  // ----- the order-preserving printer --------------------------------------------------------

  /** `serde_json::to_string`: prints entries in their iteration order. */
  function Raw(v: Json): Text {
    Put(v, [])
  }

  /** The text of `v` followed by `k`. */
  function Put(v: Json, k: Text): (t: Text)
    decreases v, 2
  {
    match v
    case Null => Ascii("null") + k
    case Bool(b) => (if b then Ascii("true") else Ascii("false")) + k
    case Number(n) => n + k
    case String(s) => Quote(s) + k
    case Array(items) => [0x5B] + PutItems(items, true, k)
    case Object(es) => [0x7B] + PutEntries(es, true, k)
  }

  /** The remaining items, the closing bracket and `k`; every item but the first follows a comma. */
  function PutItems(items: seq<Json>, first: bool, k: Text): (t: Text)
    decreases items, 0
  {
    if items == [] then [0x5D] + k
    else if first then Put(items[0], PutItems(items[1..], false, k))
    else [0x2C] + Put(items[0], PutItems(items[1..], false, k))
  }

  function PutEntry(e: Entry, k: Text): Text
    decreases e, 3
  {
    Quote(e.key) + ([0x3A] + Put(e.value, k))
  }

  function PutEntries(es: seq<Entry>, first: bool, k: Text): (t: Text)
    decreases es, 0
  {
    if es == [] then [0x7D] + k
    else if first then PutEntry(es[0], PutEntries(es[1..], false, k))
    else [0x2C] + PutEntry(es[0], PutEntries(es[1..], false, k))
  }

  /** What may follow a value: nothing, or a delimiter. */
  predicate Ends(r: Text) {
    r == [] || r[0] == 0x2C || r[0] == 0x5D || r[0] == 0x7D
  }

  lemma KeywordHeads()
    ensures Ascii("null")[0] == 0x6E && Ascii("true")[0] == 0x74 && Ascii("false")[0] == 0x66
  {
    var n, t, f := "null", "true", "false";
    assert n[0] == 'n' && t[0] == 't' && f[0] == 'f';
  }

  function FirstByte(v: Json): byte
    requires WellFormed(v)
  {
    match v
    case Null => 0x6E
    case Bool(b) => if b then 0x74 else 0x66
    case Number(n) => n[0]
    case String(_) => 0x22
    case Array(_) => 0x5B
    case Object(_) => 0x7B
  }

  lemma PutHead(v: Json, k: Text)
    requires WellFormed(v)
    ensures Put(v, k) != [] && Put(v, k)[0] == FirstByte(v)
  {
    KeywordHeads();
  }

  function NumberRun(t: Text): (n: nat)
    ensures n <= |t|
  {
    if t != [] && NumberByte(t[0]) then 1 + NumberRun(t[1..]) else 0
  }

  lemma {:induction false} NumberRunStops(n: Text, r: Text)
    requires (forall i :: 0 <= i < |n| ==> NumberByte(n[i])) && Ends(r)
    ensures NumberRun(n + r) == |n|
  {
    if n == [] {
      assert n + r == r;
    } else {
      assert (n + r)[1..] == n[1..] + r;
      NumberRunStops(n[1..], r);
    }
  }

  lemma NumberIsSelfDelimiting(m: Text, n: Text, r: Text, s: Text)
    requires WellFormed(Number(m)) && WellFormed(Number(n)) && Ends(r) && Ends(s)
    requires m + r == n + s
    ensures m == n && r == s
  {
    NumberRunStops(m, r);
    NumberRunStops(n, s);
    assert (m + r)[..|m|] == m && (n + s)[..|n|] == n;
    assert (m + r)[|m|..] == r && (n + s)[|n|..] == s;
  }

  lemma Uncons(x: byte, y: byte, r: Text, s: Text)
    requires [x] + r == [y] + s
    ensures x == y && r == s
  {
    assert ([x] + r)[0] == x && ([y] + s)[0] == y;
    assert ([x] + r)[1..] == r && ([y] + s)[1..] == s;
  }

  lemma SamePrefix(p: Text, r: Text, s: Text)
    requires p + r == p + s
    ensures r == s
  {
    assert (p + r)[|p|..] == r && (p + s)[|p|..] == s;
  }

  predicate AllWellFormed(items: seq<Json>) {
    forall x :: x in items ==> WellFormed(x)
  }

  predicate EntriesWellFormed(es: seq<Entry>) {
    forall e :: e in es ==> WellFormed(e.value)
  }

  /** A printed value is self-delimiting: nothing but the value itself prints as its text. */
  lemma {:induction false} PutIsSelfDelimiting(a: Json, b: Json, r: Text, s: Text)
    requires WellFormed(a) && WellFormed(b) && Ends(r) && Ends(s)
    requires Put(a, r) == Put(b, s)
    ensures a == b && r == s
    decreases a, 2
  {
    PutHead(a, r);
    PutHead(b, s);
    match a {
      case Null => SamePrefix(Ascii("null"), r, s);
      case Bool(v) => SamePrefix(if v then Ascii("true") else Ascii("false"), r, s);
      case Number(m) => NumberIsSelfDelimiting(m, b.literal, r, s);
      case String(m) => QuoteIsSelfDelimiting(m, b.text, r, s);
      case Array(xs) =>
        Uncons(0x5B, 0x5B, PutItems(xs, true, r), PutItems(b.items, true, s));
        ItemsAreSelfDelimiting(xs, b.items, true, r, s);
      case Object(xs) =>
        Uncons(0x7B, 0x7B, PutEntries(xs, true, r), PutEntries(b.entries, true, s));
        EntriesAreSelfDelimiting(xs, b.entries, true, r, s);
    }
  }

  lemma ItemsHead(xs: seq<Json>, first: bool, k: Text)
    requires AllWellFormed(xs)
    ensures PutItems(xs, first, k) != [] && (PutItems(xs, first, k)[0] == 0x5D <==> xs == [])
    ensures !first ==> Ends(PutItems(xs, first, k))
  {
    if xs != [] { PutHead(xs[0], PutItems(xs[1..], false, k)); }
  }

  lemma {:induction false} ItemsAreSelfDelimiting(xs: seq<Json>, ys: seq<Json>, first: bool, r: Text, s: Text)
    requires AllWellFormed(xs) && AllWellFormed(ys) && Ends(r) && Ends(s)
    requires PutItems(xs, first, r) == PutItems(ys, first, s)
    ensures xs == ys && r == s
    decreases xs, 0
  {
    ItemsHead(xs, first, r);
    ItemsHead(ys, first, s);
    if xs == [] {
      Uncons(0x5D, 0x5D, r, s);
    } else {
      var u, w := PutItems(xs[1..], false, r), PutItems(ys[1..], false, s);
      if !first { Uncons(0x2C, 0x2C, Put(xs[0], u), Put(ys[0], w)); }
      ItemsHead(xs[1..], false, r);
      ItemsHead(ys[1..], false, s);
      PutIsSelfDelimiting(xs[0], ys[0], u, w);
      ItemsAreSelfDelimiting(xs[1..], ys[1..], false, r, s);
      assert xs == [xs[0]] + xs[1..] && ys == [ys[0]] + ys[1..];
    }
  }

  lemma EntriesHead(es: seq<Entry>, first: bool, k: Text)
    ensures PutEntries(es, first, k) != [] && (PutEntries(es, first, k)[0] == 0x7D <==> es == [])
    ensures !first ==> Ends(PutEntries(es, first, k))
  {
  }

  lemma {:induction false} EntriesAreSelfDelimiting(xs: seq<Entry>, ys: seq<Entry>, first: bool, r: Text, s: Text)
    requires EntriesWellFormed(xs) && EntriesWellFormed(ys) && Ends(r) && Ends(s)
    requires PutEntries(xs, first, r) == PutEntries(ys, first, s)
    ensures xs == ys && r == s
    decreases xs, 0
  {
    EntriesHead(xs, first, r);
    EntriesHead(ys, first, s);
    if xs == [] {
      Uncons(0x7D, 0x7D, r, s);
    } else {
      var u, w := PutEntries(xs[1..], false, r), PutEntries(ys[1..], false, s);
      if !first { Uncons(0x2C, 0x2C, PutEntry(xs[0], u), PutEntry(ys[0], w)); }
      EntriesHead(xs[1..], false, r);
      EntriesHead(ys[1..], false, s);
      EntryIsSelfDelimiting(xs[0], ys[0], u, w);
      EntriesAreSelfDelimiting(xs[1..], ys[1..], false, r, s);
      assert xs == [xs[0]] + xs[1..] && ys == [ys[0]] + ys[1..];
    }
  }

  lemma {:induction false} EntryIsSelfDelimiting(d: Entry, e: Entry, r: Text, s: Text)
    requires WellFormed(d.value) && WellFormed(e.value) && Ends(r) && Ends(s)
    requires PutEntry(d, r) == PutEntry(e, s)
    ensures d == e && r == s
    decreases d, 3
  {
    var u, w := Put(d.value, r), Put(e.value, s);
    QuoteIsSelfDelimiting(d.key, e.key, [0x3A] + u, [0x3A] + w);
    Uncons(0x3A, 0x3A, u, w);
    PutIsSelfDelimiting(d.value, e.value, r, s);
  }

  // ----- key order -----------------------------------------------------------------------------

  /** Lexicographic byte order, the order of `str` and of `[u8]`. */
  predicate LexLess(a: Text, b: Text) {
    b != [] && (a == [] || a[0] < b[0] || (a[0] == b[0] && LexLess(a[1..], b[1..])))
  }

  lemma {:induction false} LexTotal(a: Text, b: Text)
    ensures LexLess(a, b) || LexLess(b, a) || a == b
    ensures !(LexLess(a, b) && LexLess(b, a))
    ensures !LexLess(a, a)
  {
    if a != [] { LexTotal(a[1..], a[1..]); }
    if a != [] && b != [] {
      LexTotal(a[1..], b[1..]);
      assert a == [a[0]] + a[1..] && b == [b[0]] + b[1..];
    }
  }

  lemma {:induction false} LexTransitive(a: Text, b: Text, c: Text)
    requires LexLess(a, b) && LexLess(b, c)
    ensures LexLess(a, c)
  {
    if a != [] && a[0] == b[0] == c[0] { LexTransitive(a[1..], b[1..], c[1..]); }
  }

  ghost predicate Sorted(es: seq<Entry>) {
    es != [] ==> (forall e :: e in es[1..] ==> LexLess(es[0].key, e.key)) && Sorted(es[1..])
  }

  function Insert(e: Entry, es: seq<Entry>): seq<Entry> {
    if es == [] || LexLess(e.key, es[0].key) then [e] + es else [es[0]] + Insert(e, es[1..])
  }

  function SortEntries(es: seq<Entry>): seq<Entry> {
    if es == [] then [] else Insert(es[0], SortEntries(es[1..]))
  }

  lemma {:induction false} InsertMembers(e: Entry, es: seq<Entry>)
    ensures forall x :: x in Insert(e, es) <==> x == e || x in es
    ensures |Insert(e, es)| == |es| + 1
  {
    if es != [] && !LexLess(e.key, es[0].key) {
      InsertMembers(e, es[1..]);
      assert es == [es[0]] + es[1..];
    }
  }

  lemma {:induction false} SortMembers(es: seq<Entry>)
    ensures forall x :: x in SortEntries(es) <==> x in es
    ensures |SortEntries(es)| == |es|
  {
    if es != [] {
      SortMembers(es[1..]);
      InsertMembers(es[0], SortEntries(es[1..]));
      assert es == [es[0]] + es[1..];
    }
  }

  lemma {:induction false} InsertSorted(e: Entry, es: seq<Entry>)
    requires Sorted(es) && forall x :: x in es ==> x.key != e.key
    ensures Sorted(Insert(e, es))
  {
    if es != [] {
      LexTotal(e.key, es[0].key);
      if LexLess(e.key, es[0].key) {
        assert ([e] + es)[1..] == es;
        forall x | x in es ensures LexLess(e.key, x.key) {
          if x != es[0] {
            assert x in es[1..];
            LexTransitive(e.key, es[0].key, x.key);
          }
        }
      } else {
        InsertSorted(e, es[1..]);
        InsertMembers(e, es[1..]);
        assert ([es[0]] + Insert(e, es[1..]))[1..] == Insert(e, es[1..]);
      }
    }
  }

  lemma {:induction false} SortSorts(es: seq<Entry>)
    requires DistinctKeys(es)
    ensures Sorted(SortEntries(es))
  {
    if es != [] {
      SortSorts(es[1..]);
      SortMembers(es[1..]);
      InsertSorted(es[0], SortEntries(es[1..]));
    }
  }

  lemma {:induction false} SortedIsUnique(xs: seq<Entry>, ys: seq<Entry>)
    requires Sorted(xs) && Sorted(ys) && forall e :: e in xs <==> e in ys
    ensures xs == ys
  {
    if xs != [] { assert xs[0] in ys; }
    if ys != [] { assert ys[0] in xs; }
    if xs != [] {
      assert xs == [xs[0]] + xs[1..] && ys == [ys[0]] + ys[1..];
      LexTotal(xs[0].key, ys[0].key);
      assert xs[0] == ys[0];
      LexTotal(xs[0].key, xs[0].key);
      assert xs[0] !in xs[1..] && ys[0] !in ys[1..];
      forall e ensures e in xs[1..] <==> e in ys[1..] {
        assert e in xs[1..] <==> e in xs && e != xs[0];
        assert e in ys[1..] <==> e in ys && e != ys[0];
      }
      SortedIsUnique(xs[1..], ys[1..]);
    }
  }

  // ----- the sorting printer of the audit crate ------------------------------------------------

  /** `canonicalize`: rebuilds every object in key order. */
  function Canonicalize(v: Json): Json
    decreases v, 2
  {
    match v
    case Array(items) => Array(CanonItems(items))
    case Object(es) => Object(SortEntries(CanonEntries(es)))
    case _ => v
  }

  function CanonItems(items: seq<Json>): (c: seq<Json>)
    ensures |c| == |items|
    ensures forall i :: 0 <= i < |items| ==> c[i] == Canonicalize(items[i])
    decreases items, 0
  {
    if items == [] then [] else [Canonicalize(items[0])] + CanonItems(items[1..])
  }

  function CanonEntry(e: Entry): Entry
    decreases e, 3
  {
    Entry(e.key, Canonicalize(e.value))
  }

  function CanonEntries(es: seq<Entry>): (c: seq<Entry>)
    ensures |c| == |es|
    ensures forall i :: 0 <= i < |es| ==> c[i] == CanonEntry(es[i])
    decreases es, 0
  {
    if es == [] then [] else [CanonEntry(es[0])] + CanonEntries(es[1..])
  }

  /** `canonical_json_string` */
  function Canonical(v: Json): Text {
    Raw(Canonicalize(v))
  }

  lemma {:induction false} InsertCanonCommute(e: Entry, es: seq<Entry>)
    ensures CanonEntries(Insert(e, es)) == Insert(CanonEntry(e), CanonEntries(es))
  {
    if es != [] && !LexLess(e.key, es[0].key) {
      InsertCanonCommute(e, es[1..]);
      assert Insert(e, es)[1..] == Insert(e, es[1..]);
      assert CanonEntries(es)[1..] == CanonEntries(es[1..]);
    } else {
      assert ([e] + es)[1..] == es;
    }
  }

  lemma {:induction false} SortCanonCommute(es: seq<Entry>)
    ensures CanonEntries(SortEntries(es)) == SortEntries(CanonEntries(es))
  {
    if es != [] {
      SortCanonCommute(es[1..]);
      InsertCanonCommute(es[0], SortEntries(es[1..]));
      assert CanonEntries(es)[1..] == CanonEntries(es[1..]);
    }
  }

  lemma {:induction false} CanonicalizeWellFormed(v: Json)
    requires WellFormed(v)
    ensures WellFormed(Canonicalize(v))
  {
    match v {
      case Array(items) =>
        forall x | x in items ensures WellFormed(Canonicalize(x)) { CanonicalizeWellFormed(x); }
      case Object(es) =>
        var c := CanonEntries(es);
        forall i | 0 <= i < |es| ensures WellFormed(c[i].value) {
          CanonicalizeWellFormed(es[i].value);
        }
        assert DistinctKeys(c);
        SortMembers(c);
        SortSorts(c);
        SortedIsDistinct(SortEntries(c));
      case _ =>
    }
  }

  lemma {:induction false} SortedIsDistinct(es: seq<Entry>)
    requires Sorted(es)
    ensures DistinctKeys(es)
  {
    if es != [] {
      SortedIsDistinct(es[1..]);
      forall j | 0 < j < |es| ensures es[0].key != es[j].key {
        assert es[j] in es[1..];
        LexTotal(es[0].key, es[0].key);
      }
    }
  }

  // ----- meaning -------------------------------------------------------------------------------

  function Meaning(v: Json): Tree
    decreases v, 2
  {
    match v
    case Null => TNull
    case Bool(b) => TBool(b)
    case Number(n) => TNumber(n)
    case String(s) => TString(s)
    case Array(items) => TArray(ItemMeanings(items))
    case Object(es) => TObject(FieldMeanings(es))
  }

  function ItemMeanings(items: seq<Json>): (m: seq<Tree>)
    ensures |m| == |items|
    ensures forall i :: 0 <= i < |items| ==> m[i] == Meaning(items[i])
    decreases items, 0
  {
    if items == [] then [] else [Meaning(items[0])] + ItemMeanings(items[1..])
  }

  function EntryMeaning(e: Entry): Tree
    decreases e, 3
  {
    Meaning(e.value)
  }

  function FieldMeanings(es: seq<Entry>): map<Text, Tree>
    decreases es, 0
  {
    if es == [] then map[] else FieldMeanings(es[1..])[es[0].key := EntryMeaning(es[0])]
  }

  lemma {:induction false} FieldMeaningsHolds(es: seq<Entry>, i: nat)
    requires DistinctKeys(es) && i < |es|
    ensures es[i].key in FieldMeanings(es) && FieldMeanings(es)[es[i].key] == Meaning(es[i].value)
  {
    if i > 0 {
      FieldMeaningsHolds(es[1..], i - 1);
      assert es[1..][i - 1] == es[i];
    }
  }

  lemma {:induction false} FieldMeaningsOnly(es: seq<Entry>, k: Text) returns (i: nat)
    requires k in FieldMeanings(es)
    ensures i < |es| && es[i].key == k
  {
    if k == es[0].key {
      i := 0;
    } else {
      i := FieldMeaningsOnly(es[1..], k);
      i := i + 1;
    }
  }

  /** Values with the same meaning canonicalize to the same value: key order is forgotten. */
  lemma {:induction false} MeaningDeterminesCanonical(a: Json, b: Json)
    requires WellFormed(a) && WellFormed(b) && Meaning(a) == Meaning(b)
    ensures Canonicalize(a) == Canonicalize(b)
  {
    match a {
      case Array(xs) =>
        forall i | 0 <= i < |xs| ensures Canonicalize(xs[i]) == Canonicalize(b.items[i]) {
          assert ItemMeanings(xs)[i] == ItemMeanings(b.items)[i];
          MeaningDeterminesCanonical(xs[i], b.items[i]);
        }
      case Object(xs) =>
        var ys := b.entries;
        forall i, j | 0 <= i < |xs| && 0 <= j < |ys| && xs[i].key == ys[j].key ensures CanonEntry(xs[i]) == CanonEntry(ys[j]) {
          FieldMeaningsHolds(xs, i);
          FieldMeaningsHolds(ys, j);
          MeaningDeterminesCanonical(xs[i].value, ys[j].value);
        }
        SameCanonEntries(xs, ys);
        SameCanonEntries(ys, xs);
        DistinctAfterCanon(xs);
        DistinctAfterCanon(ys);
        SortedIsUnique(SortEntries(CanonEntries(xs)), SortEntries(CanonEntries(ys)));
      case _ =>
    }
  }

  lemma SameCanonEntries(xs: seq<Entry>, ys: seq<Entry>)
    requires DistinctKeys(xs) && DistinctKeys(ys) && FieldMeanings(xs) == FieldMeanings(ys)
    requires forall i, j :: 0 <= i < |xs| && 0 <= j < |ys| && xs[i].key == ys[j].key ==> CanonEntry(xs[i]) == CanonEntry(ys[j])
    ensures forall e :: e in CanonEntries(xs) ==> e in CanonEntries(ys)
  {
    forall e | e in CanonEntries(xs) ensures e in CanonEntries(ys) {
      var i :| 0 <= i < |xs| && CanonEntries(xs)[i] == e;
      FieldMeaningsHolds(xs, i);
      var j := FieldMeaningsOnly(ys, xs[i].key);
      assert CanonEntries(ys)[j] == CanonEntry(ys[j]) == e;
    }
  }

  lemma DistinctAfterCanon(es: seq<Entry>)
    requires DistinctKeys(es)
    ensures Sorted(SortEntries(CanonEntries(es)))
    ensures forall e :: e in SortEntries(CanonEntries(es)) <==> e in CanonEntries(es)
  {
    SortSorts(CanonEntries(es));
    SortMembers(CanonEntries(es));
  }

  /** Canonicalizing changes no value's meaning. */
  lemma {:induction false} CanonicalizeKeepsMeaning(v: Json)
    requires WellFormed(v)
    ensures Meaning(Canonicalize(v)) == Meaning(v)
  {
    match v {
      case Array(items) =>
        forall i | 0 <= i < |items| ensures Meaning(Canonicalize(items[i])) == Meaning(items[i]) {
          CanonicalizeKeepsMeaning(items[i]);
        }
        assert ItemMeanings(CanonItems(items)) == ItemMeanings(items);
      case Object(es) =>
        forall e | e in es ensures Meaning(Canonicalize(e.value)) == Meaning(e.value) {
          CanonicalizeKeepsMeaning(e.value);
        }
        CanonicalizeWellFormed(v);
        SameFieldMeanings(es, SortEntries(CanonEntries(es)));
      case _ =>
    }
  }

  lemma SameFieldMeanings(es: seq<Entry>, cs: seq<Entry>)
    requires DistinctKeys(es) && DistinctKeys(cs) && cs == SortEntries(CanonEntries(es))
    requires forall e :: e in es ==> Meaning(Canonicalize(e.value)) == Meaning(e.value)
    ensures FieldMeanings(cs) == FieldMeanings(es)
  {
    SortMembers(CanonEntries(es));
    var m, n := FieldMeanings(es), FieldMeanings(cs);
    forall k | k in m ensures k in n && n[k] == m[k] {
      var i := FieldMeaningsOnly(es, k);
      FieldMeaningsHolds(es, i);
      assert CanonEntries(es)[i] in cs;
      var j :| 0 <= j < |cs| && cs[j] == CanonEntries(es)[i];
      FieldMeaningsHolds(cs, j);
    }
    forall k | k in n ensures k in m {
      var j := FieldMeaningsOnly(cs, k);
      assert cs[j] in CanonEntries(es);
      var i :| 0 <= i < |es| && CanonEntries(es)[i] == cs[j];
      FieldMeaningsHolds(es, i);
    }
    assert m.Keys == n.Keys;
  }

  /** Canonical text is injective and blind to key order: equal text exactly when equal meaning. */
  lemma CanonicalTextIsMeaning(a: Json, b: Json)
    requires WellFormed(a) && WellFormed(b)
    ensures Canonical(a) == Canonical(b) <==> Meaning(a) == Meaning(b)
  {
    if Canonical(a) == Canonical(b) {
      CanonicalizeWellFormed(a);
      CanonicalizeWellFormed(b);
      PutIsSelfDelimiting(Canonicalize(a), Canonicalize(b), [], []);
      CanonicalizeKeepsMeaning(a);
      CanonicalizeKeepsMeaning(b);
    }
    if Meaning(a) == Meaning(b) {
      MeaningDeterminesCanonical(a, b);
    }
  }

  // ----- the depth-bounded writer of the approval crate ----------------------------------------

  /** No node of `v` lies more than `d` levels below it. */
  predicate Within(v: Json, d: int) {
    d >= 0 &&
    match v
    case Array(items) => forall x :: x in items ==> Within(x, d - 1)
    case Object(es) => forall e :: e in es ==> Within(e.value, d - 1)
    case _ => true
  }

  lemma {:induction false} PutAppends(v: Json, k: Text)
    ensures Put(v, k) == Raw(v) + k
    decreases v, 2
  {
    match v {
      case Array(items) => ItemsAppend(items, true, k);
      case Object(es) => EntriesAppend(es, true, k);
      case _ =>
    }
  }

  lemma {:induction false} ItemsAppend(items: seq<Json>, first: bool, k: Text)
    ensures PutItems(items, first, k) == PutItems(items, first, []) + k
    decreases items, 0
  {
    if items != [] {
      ItemsAppend(items[1..], false, k);
      PutAppends(items[0], PutItems(items[1..], false, k));
      PutAppends(items[0], PutItems(items[1..], false, []));
    }
  }

  lemma {:induction false} EntriesAppend(es: seq<Entry>, first: bool, k: Text)
    ensures PutEntries(es, first, k) == PutEntries(es, first, []) + k
    decreases es, 0
  {
    if es != [] {
      EntriesAppend(es[1..], false, k);
      EntryAppends(es[0], PutEntries(es[1..], false, k));
      EntryAppends(es[0], PutEntries(es[1..], false, []));
    }
  }

  lemma {:induction false} EntryAppends(e: Entry, k: Text)
    ensures PutEntry(e, k) == Quote(e.key) + [0x3A] + Raw(e.value) + k
    decreases e, 3
  {
    PutAppends(e.value, k);
  }

  function Comma(i: nat): Text {
    if i != 0 then [0x2C] else []
  }

  /** Writing item `i` consumes exactly the matching part of the text still to be written. */
  lemma ItemsStep(items: seq<Json>, i: nat, out: Text, goal: Text)
    requires i < |items| && out + PutItems(items[i..], i == 0, []) == goal
    ensures out + Comma(i) + Raw(items[i]) + PutItems(items[i + 1..], false, []) == goal
  {
    assert items[i..][1..] == items[i + 1..];
    PutAppends(items[i], PutItems(items[i + 1..], false, []));
  }

  lemma EntriesStep(es: seq<Entry>, i: nat, out: Text, goal: Text)
    requires i < |es| && out + PutEntries(es[i..], i == 0, []) == goal
    ensures out + Comma(i) + Quote(es[i].key) + [0x3A] + Raw(es[i].value) + PutEntries(es[i + 1..], false, []) == goal
  {
    var rest := PutEntries(es[i + 1..], false, []);
    assert es[i..][1..] == es[i + 1..];
    EntryAppends(es[i], rest);
    assert PutEntries(es[i..], i == 0, []) == Comma(i) + PutEntry(es[i], rest);
    Regroup(out, Comma(i), Quote(es[i].key), [0x3A], Raw(es[i].value), rest);
  }

  lemma Regroup(a: Text, b: Text, c: Text, d: Text, e: Text, f: Text)
    ensures a + (b + (c + d + e + f)) == a + b + c + d + e + f
  {
  }

  /**
   * `write_canonical_json`: appends to a buffer and fails, returning nothing, exactly when some node
   * lies deeper than the bound; otherwise the appended text is the audit crate's canonical text.
   */
  method WriteCanonicalJson(value: Json, output: Text, depth: nat) returns (r: Option<Text>)
    ensures r.Some? <==> Within(value, 128 - depth)
    ensures r.Some? ==> r.value == output + Canonical(value)
    decreases value, 2
  {
    if depth > MAX_DEPTH { return None; }
    match value {
      case Null => return Some(output + Ascii("null"));
      case Bool(b) => return Some(output + if b then Ascii("true") else Ascii("false"));
      case String(s) => return Some(output + Quote(s));
      case Number(n) => return Some(output + n);
      case Array(items) => r := WriteItems(items, output, depth);
      case Object(entries) => r := WriteEntries(entries, output, depth);
    }
  }

  lemma ArrayText(items: seq<Json>, output: Text)
    ensures output + Canonical(Array(items)) == output + [0x5B] + PutItems(CanonItems(items), true, [])
  {
  }

  lemma WithinItems(items: seq<Json>, d: nat)
    ensures Within(Array(items), d) <==> forall j :: 0 <= j < |items| ==> Within(items[j], d - 1)
  {
    if forall j :: 0 <= j < |items| ==> Within(items[j], d - 1) {
      forall x | x in items ensures Within(x, d - 1) {
        var j :| 0 <= j < |items| && items[j] == x;
      }
    }
    if Within(Array(items), d) {
      forall j | 0 <= j < |items| ensures Within(items[j], d - 1) {
        assert items[j] in items;
      }
    }
  }

  lemma ItemsEnd(items: seq<Json>)
    ensures PutItems(items[|items|..], |items| == 0, []) == [0x5D]
  {
    assert items[|items|..] == [];
  }

  method WriteItems(items: seq<Json>, output: Text, depth: nat) returns (r: Option<Text>)
    requires depth <= MAX_DEPTH
    ensures r.Some? <==> Within(Array(items), MAX_DEPTH - depth)
    ensures r.Some? ==> r.value == output + Canonical(Array(items))
    decreases items, 0
  {
    hide Raw;
    hide Canonicalize;
    hide Quote;
    hide Within;
    hide PutItems;
    WithinItems(items, MAX_DEPTH - depth);
    var out := output + [0x5B];
    ghost var canon, goal := CanonItems(items), out + PutItems(CanonItems(items), true, []);
    ArrayText(items, output);
    assert canon[0..] == canon;
    for i := 0 to |items|
      invariant out + PutItems(canon[i..], i == 0, []) == goal
      invariant forall j :: 0 <= j < i ==> Within(items[j], MAX_DEPTH - depth - 1)
    {
      ItemsStep(canon, i, out, goal);
      var w := WriteCanonicalJson(items[i], out + Comma(i), depth + 1);
      if w.None? { return None; }
      out := w.value;
    }
    ItemsEnd(canon);
    return Some(out + [0x5D]);
  }

  lemma ObjectText(entries: seq<Entry>, output: Text)
    ensures output + Canonical(Object(entries)) == output + [0x7B] + PutEntries(CanonEntries(SortEntries(entries)), true, [])
  {
    SortCanonCommute(entries);
  }

  lemma WithinSorted(entries: seq<Entry>, d: nat)
    ensures Within(Object(entries), d) <==> forall e :: e in SortEntries(entries) ==> Within(e.value, d - 1)
  {
    SortMembers(entries);
  }

  method WriteEntries(entries: seq<Entry>, output: Text, depth: nat) returns (r: Option<Text>)
    requires depth <= MAX_DEPTH
    ensures r.Some? <==> Within(Object(entries), MAX_DEPTH - depth)
    ensures r.Some? ==> r.value == output + Canonical(Object(entries))
    decreases entries, 1
  {
    var sorted := SortEntries(entries);
    SortMembers(entries);
    ObjectText(entries, output);
    WithinSorted(entries, MAX_DEPTH - depth);
    r := WriteSorted(entries, sorted, output + [0x7B], depth);
  }

  method WriteSorted(ghost entries: seq<Entry>, sorted: seq<Entry>, output: Text, depth: nat) returns (r: Option<Text>)
    requires depth <= MAX_DEPTH && forall e :: e in sorted ==> e in entries
    ensures r.Some? <==> forall e :: e in sorted ==> Within(e.value, MAX_DEPTH - depth - 1)
    ensures r.Some? ==> r.value == output + PutEntries(CanonEntries(sorted), true, [])
    decreases entries, 0
  {
    hide Raw;
    hide Canonicalize;
    hide Quote;
    ghost var canon, goal := CanonEntries(sorted), output + PutEntries(CanonEntries(sorted), true, []);
    var out := output;
    assert canon[0..] == canon;
    for i := 0 to |sorted|
      invariant out + PutEntries(canon[i..], i == 0, []) == goal
      invariant forall j :: 0 <= j < i ==> Within(sorted[j].value, MAX_DEPTH - depth - 1)
    {
      EntriesStep(canon, i, out, goal);
      assert sorted[i] in sorted;
      var w := WriteCanonicalJson(sorted[i].value, out + Comma(i) + Quote(sorted[i].key) + [0x3A], depth + 1);
      if w.None? { return None; }
      out := w.value;
    }
    assert canon[|sorted|..] == [];
    return Some(out + [0x7D]);
  }
}
