/**
 * A reader for the texts the two canonical printers write, following RFC 8259: it gives back the value that was
 * printed, so what is hashed is the JSON text of that value (crates/henosis-audit/src/lib.rs,
 * crates/henosis-approval/src/lib.rs).
 */
module JsonParser {
  import opened Base
  import opened CanonicalJson

  datatype Parsed<T> = Parsed(value: T, rest: Text)

  // ----- strings (section 7) -------------------------------------------------------------------------------

  function HexValue(c: byte): Option<nat> {
    if 0x30 <= c <= 0x39 then Some(c - 0x30)
    else if 0x61 <= c <= 0x66 then Some(c - 0x57)
    else if 0x41 <= c <= 0x46 then Some(c - 0x37)
    else None
  }

  /** The character of a two-character escape. */
  function Unescape(c: byte): Option<byte> {
    if c == 0x22 || c == 0x5C || c == 0x2F then Some(c)
    else if c == 0x62 then Some(0x08)
    else if c == 0x66 then Some(0x0C)
    else if c == 0x6E then Some(0x0A)
    else if c == 0x72 then Some(0x0D)
    else if c == 0x74 then Some(0x09)
    else None
  }

  /** One character of a string and what follows it; a `\u` escape stands for an ASCII character here. */
  function ParseChar(t: Text): (r: Option<Parsed<byte>>)
    ensures r.Some? ==> |r.value.rest| < |t|
  {
    if t == [] || t[0] < 0x20 || t[0] == 0x22 then None
    else if t[0] != 0x5C then Some(Parsed(t[0], t[1..]))
    else if |t| < 2 then None
    else if t[1] == 0x75 then
      if |t| < 6 || t[2] != 0x30 || t[3] != 0x30 then None
      else
        var hi, lo := HexValue(t[4]), HexValue(t[5]);
        if hi.None? || lo.None? || hi.value >= 8 then None else Some(Parsed(16 * hi.value + lo.value, t[6..]))
    else
      var c := Unescape(t[1]);
      if c.None? then None else Some(Parsed(c.value, t[2..]))
  }

  /** The characters up to the closing quote. */
  function ParseChars(t: Text): (r: Option<Parsed<Text>>)
    ensures r.Some? ==> |r.value.rest| < |t|
    decreases |t|
  {
    if t == [] then None
    else if t[0] == 0x22 then Some(Parsed([], t[1..]))
    else
      var c := ParseChar(t);
      if c.None? then None
      else
        var more := ParseChars(c.value.rest);
        if more.None? then None else Some(Parsed([c.value.value] + more.value.value, more.value.rest))
  }

  // ----- values (sections 3 to 6) ---------------------------------------------------------------------------

  predicate StartsWith(t: Text, p: Text) {
    |p| <= |t| && t[..|p|] == p
  }

  function ParseValue(t: Text): (r: Option<Parsed<Json>>)
    ensures r.Some? ==> |r.value.rest| < |t|
    decreases |t|, 0
  {
    if t == [] then None
    else if t[0] == 0x22 then
      var s := ParseChars(t[1..]);
      if s.None? then None else Some(Parsed(String(s.value.value), s.value.rest))
    else if t[0] == 0x5B then
      var items := ParseItems(t[1..], true);
      if items.None? then None else Some(Parsed(Array(items.value.value), items.value.rest))
    else if t[0] == 0x7B then
      var es := ParseEntries(t[1..], true);
      if es.None? then None else Some(Parsed(Object(es.value.value), es.value.rest))
    else if StartsWith(t, [0x6E, 0x75, 0x6C, 0x6C]) then Some(Parsed(Null, t[4..]))
    else if StartsWith(t, [0x74, 0x72, 0x75, 0x65]) then Some(Parsed(Bool(true), t[4..]))
    else if StartsWith(t, [0x66, 0x61, 0x6C, 0x73, 0x65]) then Some(Parsed(Bool(false), t[5..]))
    else
      var n := NumberRun(t);
      if n == 0 then None else Some(Parsed(Number(t[..n]), t[n..]))
  }

  /** The remaining items of an array, up to its closing bracket. */
  function ParseItems(t: Text, first: bool): (r: Option<Parsed<seq<Json>>>)
    ensures r.Some? ==> |r.value.rest| < |t|
    decreases |t|, 1
  {
    if t == [] then None
    else if t[0] == 0x5D then Some(Parsed([], t[1..]))
    else if !first && t[0] != 0x2C then None
    else
      var v := ParseValue(if first then t else t[1..]);
      if v.None? then None
      else
        var more := ParseItems(v.value.rest, false);
        if more.None? then None else Some(Parsed([v.value.value] + more.value.value, more.value.rest))
  }

  /** The remaining members of an object, up to its closing brace. */
  function ParseEntries(t: Text, first: bool): (r: Option<Parsed<seq<Entry>>>)
    ensures r.Some? ==> |r.value.rest| < |t|
    decreases |t|, 1
  {
    if t == [] then None
    else if t[0] == 0x7D then Some(Parsed([], t[1..]))
    else if !first && t[0] != 0x2C then None
    else
      var e := ParseEntry(if first then t else t[1..]);
      if e.None? then None
      else
        var more := ParseEntries(e.value.rest, false);
        if more.None? then None else Some(Parsed([e.value.value] + more.value.value, more.value.rest))
  }

  function ParseEntry(t: Text): (r: Option<Parsed<Entry>>)
    ensures r.Some? ==> |r.value.rest| < |t|
    decreases |t|, 0
  {
    if t == [] || t[0] != 0x22 then None
    else
      var k := ParseChars(t[1..]);
      if k.None? || k.value.rest == [] || k.value.rest[0] != 0x3A then None
      else
        var v := ParseValue(k.value.rest[1..]);
        if v.None? then None else Some(Parsed(Entry(k.value.value, v.value.value), v.value.rest))
  }

  // ----- reading back what was printed ----------------------------------------------------------------------

  lemma ParseOne(x: byte, r: Text)
    ensures ParseChar(EscapeByte(x) + r) == Some(Parsed(x, r)) && EscapeByte(x)[0] != 0x22
  {
    var t := EscapeByte(x) + r;
    assert t[|EscapeByte(x)|..] == r;
  }

  lemma ParseCharsStep(t: Text, x: byte, rest: Text, more: Text, r: Text)
    requires t != [] && t[0] != 0x22 && ParseChar(t) == Some(Parsed(x, rest)) && ParseChars(rest) == Some(Parsed(more, r))
    ensures ParseChars(t) == Some(Parsed([x] + more, r))
  {
    hide ParseChar;
  }

  lemma ParseCharsEnd(r: Text)
    ensures ParseChars([0x22] + r) == Some(Parsed([], r))
  {
    assert ([0x22] + r)[1..] == r;
  }

  lemma EscapeStep(s: Text, tail: Text)
    requires s != []
    ensures EscapeAll(s) + tail == EscapeByte(s[0]) + (EscapeAll(s[1..]) + tail)
  {
  }

  lemma {:induction false} ParseEscaped(s: Text, r: Text)
    ensures ParseChars(EscapeAll(s) + ([0x22] + r)) == Some(Parsed(s, r))
    decreases |s|
  {
    var tail := [0x22] + r;
    if s == [] {
      assert EscapeAll(s) + tail == tail;
      ParseCharsEnd(r);
    } else {
      hide *;
      var rest := EscapeAll(s[1..]) + tail;
      ParseEscaped(s[1..], r);
      EscapeStep(s, tail);
      ParseOne(s[0], rest);
      ParseCharsStep(EscapeByte(s[0]) + rest, s[0], rest, s[1..], r);
      assert s == [s[0]] + s[1..];
    }
  }

  lemma QuoteTail(s: Text, r: Text)
    ensures Quote(s) + r != [] && (Quote(s) + r)[0] == 0x22 && (Quote(s) + r)[1..] == EscapeAll(s) + ([0x22] + r)
  {
    hide EscapeAll;
  }

  lemma ParseQuoted(s: Text, r: Text)
    ensures Quote(s) + r != [] && (Quote(s) + r)[0] == 0x22 && ParseChars((Quote(s) + r)[1..]) == Some(Parsed(s, r))
  {
    hide *;
    ParseEscaped(s, r);
    QuoteTail(s, r);
  }

  lemma Keywords(k: Text)
    ensures ParseValue(Ascii("null") + k) == Some(Parsed(Null, k))
    ensures ParseValue(Ascii("true") + k) == Some(Parsed(Bool(true), k))
    ensures ParseValue(Ascii("false") + k) == Some(Parsed(Bool(false), k))
  {
    assert Ascii("null") == [0x6E, 0x75, 0x6C, 0x6C];
    assert Ascii("true") == [0x74, 0x72, 0x75, 0x65];
    assert Ascii("false") == [0x66, 0x61, 0x6C, 0x73, 0x65];
    Prefix([0x6E, 0x75, 0x6C, 0x6C], k);
    Prefix([0x74, 0x72, 0x75, 0x65], k);
    Prefix([0x66, 0x61, 0x6C, 0x73, 0x65], k);
  }

  lemma Prefix(p: Text, k: Text)
    ensures StartsWith(p + k, p) && (p + k)[|p|..] == k
  {
  }

  lemma NumberFirst(n: Text, k: Text)
    requires WellFormed(Number(n))
    ensures n != [] && n + k != [] && (n + k)[0] == n[0] && (n[0] == 0x2D || 0x30 <= n[0] <= 0x39) && (n + k)[..|n|] == n
    ensures !StartsWith(n + k, [0x6E, 0x75, 0x6C, 0x6C]) && !StartsWith(n + k, [0x74, 0x72, 0x75, 0x65])
    ensures !StartsWith(n + k, [0x66, 0x61, 0x6C, 0x73, 0x65])
  {
    assert (n + k)[0] == n[0];
    FirstOf(n + k, [0x6E, 0x75, 0x6C, 0x6C]);
    FirstOf(n + k, [0x74, 0x72, 0x75, 0x65]);
    FirstOf(n + k, [0x66, 0x61, 0x6C, 0x73, 0x65]);
  }

  lemma FirstOf(t: Text, p: Text)
    requires p != []
    ensures StartsWith(t, p) ==> t != [] && t[0] == p[0]
  {
    if StartsWith(t, p) { assert t[..|p|][0] == t[0]; }
  }

  lemma ParseNumber(n: Text, k: Text)
    requires WellFormed(Number(n)) && Ends(k)
    ensures ParseValue(n + k) == Some(Parsed(Number(n), k))
  {
    NumberRunStops(n, k);
    Prefix(n, k);
    NumberFirst(n, k);
    hide NumberRun;
    hide WellFormed;
  }

  /** The reader inverts the printer. */
  lemma {:induction false} ParseInverts(v: Json, k: Text)
    requires WellFormed(v) && Ends(k)
    ensures ParseValue(Put(v, k)) == Some(Parsed(v, k))
    decreases v, 2
  {
    match v {
      case Null => Keywords(k);
      case Bool(_) => Keywords(k);
      case Number(n) => ParseNumber(n, k);
      case String(s) => ParseQuoted(s, k);
      case Array(items) =>
        ItemsInvert(items, true, k);
        assert Put(v, k)[1..] == PutItems(items, true, k);
      case Object(es) =>
        EntriesInvert(es, true, k);
        assert Put(v, k)[1..] == PutEntries(es, true, k);
    }
  }

  lemma {:induction false} ItemsInvert(items: seq<Json>, first: bool, k: Text)
    requires AllWellFormed(items)
    ensures ParseItems(PutItems(items, first, k), first) == Some(Parsed(items, k))
    decreases items, 0
  {
    var t := PutItems(items, first, k);
    if items == [] {
      assert t[1..] == k;
    } else {
      var rest := PutItems(items[1..], false, k);
      var body := Put(items[0], rest);
      assert items[0] in items;
      ItemsHead(items[1..], false, k);
      PutHead(items[0], rest);
      ParseInverts(items[0], rest);
      ItemsInvert(items[1..], false, k);
      if !first { assert t[1..] == body; }
      assert items == [items[0]] + items[1..];
    }
  }

  lemma {:induction false} EntriesInvert(es: seq<Entry>, first: bool, k: Text)
    requires EntriesWellFormed(es)
    ensures ParseEntries(PutEntries(es, first, k), first) == Some(Parsed(es, k))
    decreases es, 0
  {
    hide Quote;
    var t := PutEntries(es, first, k);
    if es == [] {
      assert t[1..] == k;
    } else {
      var rest := PutEntries(es[1..], false, k);
      assert es[0] in es;
      EntriesHead(es[1..], false, k);
      EntryInverts(es[0], rest);
      EntriesInvert(es[1..], false, k);
      if !first { assert t[1..] == PutEntry(es[0], rest); }
      assert es == [es[0]] + es[1..];
    }
  }

  lemma {:induction false} EntryInverts(e: Entry, k: Text)
    requires WellFormed(e.value) && Ends(k)
    ensures PutEntry(e, k) != [] && PutEntry(e, k)[0] == 0x22 && ParseEntry(PutEntry(e, k)) == Some(Parsed(e, k))
    decreases e, 3
  {
    var after := [0x3A] + Put(e.value, k);
    ParseQuoted(e.key, after);
    ParseInverts(e.value, k);
    assert after[1..] == Put(e.value, k);
  }

  // ----- key order ---------------------------------------------------------------------------------------------

  /** Plain byte order: at the first difference the smaller byte wins, and a prefix comes first. */
  ghost predicate Before(a: Text, b: Text) {
    exists k :: 0 <= k <= |a| && k < |b| && a[..k] == b[..k] && (k == |a| || a[k] < b[k])
  }

  lemma FirstBytes(a: Text, b: Text)
    requires Before(a, b) && a != []
    ensures a[0] <= b[0]
  {
    var k :| 0 <= k <= |a| && k < |b| && a[..k] == b[..k] && (k == |a| || a[k] < b[k]);
    if k > 0 { assert a[..k][0] == b[..k][0]; }
  }

  lemma {:induction false} KeyOrder(a: Text, b: Text)
    ensures LexLess(a, b) <==> Before(a, b)
    decreases |a|
  {
    if a == [] {
      if b != [] { assert a[..0] == b[..0]; }
    } else if b != [] {
      if a[0] == b[0] {
        KeyOrder(a[1..], b[1..]);
        if Before(a[1..], b[1..]) {
          var k :| 0 <= k <= |a[1..]| && k < |b[1..]| && a[1..][..k] == b[1..][..k] && (k == |a[1..]| || a[1..][k] < b[1..][k]);
          assert a[..k + 1] == [a[0]] + a[1..][..k] && b[..k + 1] == [b[0]] + b[1..][..k];
        }
        if Before(a, b) {
          var k :| 0 <= k <= |a| && k < |b| && a[..k] == b[..k] && (k == |a| || a[k] < b[k]);
          assert a[1..][..k - 1] == a[..k][1..] && b[1..][..k - 1] == b[..k][1..];
        }
      } else if a[0] < b[0] {
        assert a[..0] == b[..0];
      } else if Before(a, b) {
        FirstBytes(a, b);
      }
    }
  }

  /** Every object of the value lists its keys in plain byte order. */
  ghost predicate KeysAscend(v: Json) {
    match v
    case Array(items) => forall x :: x in items ==> KeysAscend(x)
    case Object(es) => (forall i, j :: 0 <= i < j < |es| ==> Before(es[i].key, es[j].key)) && forall e :: e in es ==> KeysAscend(e.value)
    case _ => true
  }

  lemma {:induction false} SortedAscends(es: seq<Entry>, i: nat, j: nat)
    requires Sorted(es) && i < j < |es|
    ensures LexLess(es[i].key, es[j].key)
  {
    if i == 0 {
      assert es[j] in es[1..] by { assert es[1..][j - 1] == es[j]; }
    } else {
      SortedAscends(es[1..], i - 1, j - 1);
    }
  }

  lemma {:induction false} CanonicalAscends(v: Json)
    requires WellFormed(v)
    ensures KeysAscend(Canonicalize(v))
    decreases v
  {
    match v {
      case Array(items) =>
        var c := CanonItems(items);
        forall x | x in c ensures KeysAscend(x) {
          var i :| 0 <= i < |c| && c[i] == x;
          assert items[i] in items;
          CanonicalAscends(items[i]);
        }
      case Object(es) => ObjectAscends(es);
      case _ =>
    }
  }

  lemma {:induction false} ObjectAscends(es: seq<Entry>)
    requires WellFormed(Object(es))
    ensures KeysAscend(Canonicalize(Object(es)))
    decreases Object(es), 0
  {
    var cs := Canonicalize(Object(es)).entries;
    CanonicalizeWellFormed(Object(es));
    DistinctAfterCanon(es);
    SortSorts(CanonEntries(es));
    SortMembers(CanonEntries(es));
    forall i, j | 0 <= i < j < |cs| ensures Before(cs[i].key, cs[j].key) {
      SortedAscends(cs, i, j);
      KeyOrder(cs[i].key, cs[j].key);
    }
    forall e | e in cs ensures KeysAscend(e.value) {
      var i :| 0 <= i < |es| && CanonEntries(es)[i] == e;
      assert es[i] in es;
      CanonicalAscends(es[i].value);
    }
  }

  /**
   * What is hashed is JSON: a reader of the canonical text finds exactly one value, with the meaning of the value
   * that was printed and with every object's keys in plain byte order.
   */
  lemma CanonicalTextReadsBack(v: Json)
    requires WellFormed(v)
    ensures ParseValue(Canonical(v)) == Some(Parsed(Canonicalize(v), []))
    ensures Meaning(Canonicalize(v)) == Meaning(v) && KeysAscend(Canonicalize(v))
  {
    CanonicalizeWellFormed(v);
    CanonicalizeKeepsMeaning(v);
    CanonicalAscends(v);
    ParseInverts(Canonicalize(v), []);
  }
}
