/**
 * The Eidolon output filter: a worklist that overwrites a result in place
 * (crates/henosis-eidolon/src/output_filter.rs). The stack of mutable references is a stack of paths into the
 * result; lower-casing and the content patterns are functions.
 */
module OutputFilter {
  import opened Base
  import opened CanonicalJson
  import opened JsonTrees
  import Scrub

  datatype Policy = Policy(normalize: Text -> Text, patterns: seq<Text>, scrub: Text -> Text)

  /** "[redacted]" */
  const REDACTED: Json := String(Scrub.MARKER)

  /** `is_sensitive` */
  predicate Sensitive(p: Policy, key: Text) {
    exists i :: 0 <= i < |p.patterns| && Scrub.Occurs(p.normalize(key), p.patterns[i])
  }

  ghost predicate StandsAt(name: Text, k: int, pattern: Text) {
    0 <= k && k + |pattern| <= |name| && name[k..k + |pattern|] == pattern
  }

  /** The lowered name contains one of the patterns. */
  ghost predicate NamesSecret(p: Policy, key: Text) {
    exists i, k :: 0 <= i < |p.patterns| && StandsAt(p.normalize(key), k, p.patterns[i])
  }

  lemma OccursMeans(name: Text, pattern: Text)
    ensures Scrub.Occurs(name, pattern) <==> exists k :: StandsAt(name, k, pattern)
  {
    if Scrub.Occurs(name, pattern) {
      var k :| 0 <= k <= |name| && Scrub.Starts(name[k..], pattern);
      assert name[k..][..|pattern|] == name[k..k + |pattern|];
      assert StandsAt(name, k, pattern);
    }
    if k :| StandsAt(name, k, pattern) {
      assert name[k..][..|pattern|] == name[k..k + |pattern|];
      assert Scrub.Starts(name[k..], pattern);
    }
  }

  lemma SensitiveMeans(p: Policy, key: Text)
    ensures Sensitive(p, key) <==> NamesSecret(p, key)
  {
    hide Scrub.Occurs, StandsAt;
    var name := p.normalize(key);
    forall i | 0 <= i < |p.patterns|
      ensures Scrub.Occurs(name, p.patterns[i]) <==> exists k :: StandsAt(name, k, p.patterns[i])
    {
      OccursMeans(name, p.patterns[i]);
    }
  }

  // ----- the recursive redaction ---------------------------------------------------------------------------

  function Redact(p: Policy, v: Json): Json
    decreases v, 1
  {
    match v
    case Array(items) => Array(RedactAll(p, items))
    case Object(es) => Object(RedactEntries(p, es))
    case String(s) => String(p.scrub(s))
    case _ => v
  }

  function RedactAll(p: Policy, items: seq<Json>): (r: seq<Json>)
    ensures |r| == |items| && forall i :: 0 <= i < |items| ==> r[i] == Redact(p, items[i])
    decreases items, 0
  {
    if items == [] then []
    else RedactAll(p, items[..|items| - 1]) + [Redact(p, items[|items| - 1])]
  }

  function RedactEntry(p: Policy, e: Entry): Entry
    decreases e, 2
  {
    e.(value := if Sensitive(p, e.key) then REDACTED else Redact(p, e.value))
  }

  function RedactEntries(p: Policy, es: seq<Entry>): (r: seq<Entry>)
    ensures |r| == |es| && forall i :: 0 <= i < |es| ==> r[i] == RedactEntry(p, es[i])
    decreases es, 0
  {
    if es == [] then []
    else RedactEntries(p, es[..|es| - 1]) + [RedactEntry(p, es[|es| - 1])]
  }

  ghost predicate ScrubIsIdempotent(p: Policy) {
    forall s :: p.scrub(p.scrub(s)) == p.scrub(s)
  }

  /** Filtering twice is filtering once, whenever scrubbing text twice is scrubbing it once. */
  lemma {:induction false} RedactIdempotent(p: Policy, v: Json)
    requires ScrubIsIdempotent(p)
    ensures Redact(p, Redact(p, v)) == Redact(p, v)
    decreases v
  {
    match v {
      case Array(items) =>
        var once := RedactAll(p, items);
        forall i | 0 <= i < |items| ensures RedactAll(p, once)[i] == once[i] {
          RedactIdempotent(p, items[i]);
        }
        assert RedactAll(p, once) == once;
      case Object(es) =>
        var once := RedactEntries(p, es);
        forall i | 0 <= i < |es| ensures RedactEntries(p, once)[i] == once[i] {
          RedactIdempotent(p, es[i].value);
        }
        assert RedactEntries(p, once) == once;
      case _ =>
    }
  }

  /** Nothing to hide: no text changes under the scrubber, and every field with a secret name holds the marker already. */
  ghost predicate Quiet(p: Policy, v: Json) {
    match v
    case Array(items) => forall x :: x in items ==> Quiet(p, x)
    case Object(es) => forall e :: e in es ==> if NamesSecret(p, e.key) then e.value == String(Ascii("[redacted]")) else Quiet(p, e.value)
    case String(s) => p.scrub(s) == s
    case _ => true
  }

  /** Exactly the results with nothing to hide pass unchanged. */
  lemma {:induction false} QuietPasses(p: Policy, v: Json)
    ensures Redact(p, v) == v <==> Quiet(p, v)
    decreases v
  {
    match v {
      case Array(items) =>
        forall i | 0 <= i < |items| ensures RedactAll(p, items)[i] == items[i] <==> Quiet(p, items[i]) {
          QuietPasses(p, items[i]);
        }
        ItemsQuiet(p, items);
      case Object(es) =>
        forall i | 0 <= i < |es| ensures RedactEntries(p, es)[i] == es[i] <==> EntryQuiet(p, es[i]) {
          if !Sensitive(p, es[i].key) { QuietPasses(p, es[i].value); }
          SensitiveMeans(p, es[i].key);
          Scrub.MarkerText();
        }
        EntriesQuiet(p, es);
      case _ =>
    }
  }

  ghost predicate EntryQuiet(p: Policy, e: Entry) {
    if NamesSecret(p, e.key) then e.value == String(Ascii("[redacted]")) else Quiet(p, e.value)
  }

  lemma ItemsQuiet(p: Policy, items: seq<Json>)
    requires forall i :: 0 <= i < |items| ==> (RedactAll(p, items)[i] == items[i] <==> Quiet(p, items[i]))
    ensures RedactAll(p, items) == items <==> forall x :: x in items ==> Quiet(p, x)
  {
    hide Quiet;
    hide Redact;
    var r := RedactAll(p, items);
    if forall x :: x in items ==> Quiet(p, x) {
      forall i | 0 <= i < |items| ensures r[i] == items[i] {
        assert items[i] in items;
      }
    }
  }

  lemma EntriesQuiet(p: Policy, es: seq<Entry>)
    requires forall i :: 0 <= i < |es| ==> (RedactEntries(p, es)[i] == es[i] <==> EntryQuiet(p, es[i]))
    ensures RedactEntries(p, es) == es <==> forall e :: e in es ==> EntryQuiet(p, e)
  {
    hide EntryQuiet;
    hide RedactEntry;
    var r := RedactEntries(p, es);
    if forall e :: e in es ==> EntryQuiet(p, e) {
      forall i | 0 <= i < |es| ensures r[i] == es[i] {
        assert es[i] in es;
      }
    }
  }

  /** Whatever is nested in a filtered result, a field whose lowered name contains a pattern holds the marker. */
  lemma NothingSensitiveSurvives(p: Policy, v: Json, e: Entry)
    requires Nested(Redact(p, v), e) && NamesSecret(p, e.key)
    ensures e.value == String(Ascii("[redacted]"))
  {
    SensitiveMeans(p, e.key);
    Scrub.MarkerText();
    SensitiveIsMarked(p, v, e);
  }

  lemma {:induction false} SensitiveIsMarked(p: Policy, v: Json, e: Entry)
    requires Nested(Redact(p, v), e) && Sensitive(p, e.key)
    ensures e.value == REDACTED
    decreases v
  {
    match v {
      case Array(items) =>
        var all := RedactAll(p, items);
        var x :| x in all && Nested(x, e);
        var i :| 0 <= i < |items| && all[i] == x;
        SensitiveIsMarked(p, items[i], e);
      case Object(es) =>
        var all := RedactEntries(p, es);
        var x :| x in all && (x == e || Nested(x.value, e));
        var i :| 0 <= i < |es| && all[i] == x;
        if x != e {
          NotNestedInMarker(e);
          assert x == RedactEntry(p, es[i]);
          SensitiveIsMarked(p, es[i].value, e);
        }
      case _ =>
    }
  }

  lemma NotNestedInMarker(e: Entry)
    ensures !Nested(REDACTED, e)
  {
  }

  /** Two results that differ only below sensitive fields. */
  ghost predicate Similar(p: Policy, v: Json, w: Json)
    decreases v
  {
    match v
    case Array(items) => w.Array? && |items| == |w.items| && forall i :: 0 <= i < |items| ==> Similar(p, items[i], w.items[i])
    case Object(es) =>
      w.Object? && |es| == |w.entries|
      && forall i :: 0 <= i < |es| ==> es[i].key == w.entries[i].key && (Sensitive(p, es[i].key) || Similar(p, es[i].value, w.entries[i].value))
    case _ => v == w
  }

  /** The filtered result does not depend on anything below a sensitive field. */
  lemma {:induction false} SecretsDoNotFlow(p: Policy, v: Json, w: Json)
    requires Similar(p, v, w)
    ensures Redact(p, v) == Redact(p, w)
    decreases v
  {
    match v {
      case Array(items) =>
        forall i | 0 <= i < |items| ensures RedactAll(p, items)[i] == RedactAll(p, w.items)[i] {
          SecretsDoNotFlow(p, items[i], w.items[i]);
        }
        assert RedactAll(p, items) == RedactAll(p, w.items);
      case Object(es) =>
        forall i | 0 <= i < |es| ensures RedactEntries(p, es)[i] == RedactEntries(p, w.entries)[i] {
          if !Sensitive(p, es[i].key) { SecretsDoNotFlow(p, es[i].value, w.entries[i].value); }
        }
        assert RedactEntries(p, es) == RedactEntries(p, w.entries);
      case _ =>
    }
  }

  // ----- places inside a value ----------------------------------------------------------------------------

  type Path = seq<nat>

  /** The direct children of a node. */
  function Child(v: Json, i: nat): Option<Json> {
    match v
    case Array(items) => if i < |items| then Some(items[i]) else None
    case Object(es) => if i < |es| then Some(es[i].value) else None
    case _ => None
  }

  function WithChild(v: Json, i: nat, x: Json): Json {
    match v
    case Array(items) => if i < |items| then Array(items[i := x]) else v
    case Object(es) => if i < |es| then Object(es[i := es[i].(value := x)]) else v
    case _ => v
  }

  function At(v: Json, at: Path): Option<Json>
    decreases |at|
  {
    if at == [] then Some(v)
    else
      var c := Child(v, at[0]);
      if c.None? then None else At(c.value, at[1..])
  }

  /** The value after overwriting one place; a place that does not exist changes nothing. */
  function Put(v: Json, at: Path, x: Json): Json
    decreases |at|
  {
    if at == [] then x
    else
      var c := Child(v, at[0]);
      if c.None? then v else WithChild(v, at[0], Put(c.value, at[1..], x))
  }

  ghost predicate Apart(a: Path, b: Path) {
    exists i :: 0 <= i < |a| && i < |b| && a[i] != b[i] && a[..i] == b[..i]
  }

  lemma ChildFacts(v: Json, i: nat, j: nat, x: Json, y: Json)
    ensures Child(v, i).Some? ==> Child(WithChild(v, i, x), i) == Some(x) && WithChild(WithChild(v, i, x), i, y) == WithChild(v, i, y)
    ensures i != j ==> Child(WithChild(v, i, x), j) == Child(v, j)
    ensures Child(v, i) == Some(x) ==> WithChild(v, i, x) == v
  {
  }

  lemma {:induction false} PutPut(v: Json, at: Path, x: Json, y: Json)
    ensures Put(Put(v, at, x), at, y) == Put(v, at, y)
    ensures At(v, at).Some? ==> At(Put(v, at, x), at) == Some(x)
    ensures At(v, at) == Some(x) ==> Put(v, at, x) == v
    decreases |at|
  {
    if at != [] {
      hide Child;
      hide WithChild;
      var c := Child(v, at[0]);
      if c.Some? {
        PutPut(c.value, at[1..], x, y);
        ChildFacts(v, at[0], 0, Put(c.value, at[1..], x), Put(c.value, at[1..], y));
        ChildFacts(v, at[0], 0, c.value, c.value);
      }
    }
  }

  lemma {:induction false} PutBelow(v: Json, at: Path, below: Path, x: Json)
    requires At(v, at).Some?
    ensures At(v, at + below) == At(At(v, at).value, below)
    ensures Put(v, at + below, x) == Put(v, at, Put(At(v, at).value, below, x))
    decreases |at|
  {
    if at == [] {
      assert at + below == below;
    } else {
      hide Child;
      hide WithChild;
      assert (at + below)[0] == at[0] && (at + below)[1..] == at[1..] + below;
      PutBelow(Child(v, at[0]).value, at[1..], below, x);
    }
  }

  lemma {:induction false} PutElsewhere(v: Json, at: Path, other: Path, x: Json)
    requires Apart(at, other)
    ensures At(Put(v, at, x), other) == At(v, other)
    decreases |at|
  {
    hide Child;
    hide WithChild;
    var i :| 0 <= i < |at| && i < |other| && at[i] != other[i] && at[..i] == other[..i];
    var c := Child(v, at[0]);
    if c.Some? {
      ChildFacts(v, at[0], other[0], Put(c.value, at[1..], x), c.value);
      if i > 0 {
        assert at[..i][0] == other[..i][0];
        assert at[1..][i - 1] != other[1..][i - 1] && at[1..][..i - 1] == at[..i][1..] == other[..i][1..] == other[1..][..i - 1];
        assert Apart(at[1..], other[1..]);
        PutElsewhere(c.value, at[1..], other[1..], x);
      }
    }
  }

  lemma ApartBelow(a: Path, b: Path, i: nat, j: nat)
    ensures Apart(a, b) ==> Apart(a + [i], b) && Apart(a, b + [i])
    ensures i != j ==> Apart(a + [i], a + [j])
  {
    if Apart(a, b) {
      var k :| 0 <= k < |a| && k < |b| && a[k] != b[k] && a[..k] == b[..k];
      assert (a + [i])[k] == a[k] && (a + [i])[..k] == a[..k];
      assert (b + [i])[k] == b[k] && (b + [i])[..k] == b[..k];
    }
    if i != j {
      assert (a + [i])[|a|] != (a + [j])[|a|] && (a + [i])[..|a|] == (a + [j])[..|a|];
    }
  }

  // ----- finishing a worklist -------------------------------------------------------------------------------

  function RedactPlace(p: Policy, v: Json, at: Path): Json {
    if At(v, at).Some? then Put(v, at, Redact(p, At(v, at).value)) else v
  }

  /** The value once every place of the worklist has been redacted, the top of the stack first. */
  function Finish(p: Policy, v: Json, stack: seq<Path>): Json
    decreases |stack|
  {
    if stack == [] then v else Finish(p, RedactPlace(p, v, stack[|stack| - 1]), stack[..|stack| - 1])
  }

  lemma {:induction false} FinishConcat(p: Policy, v: Json, a: seq<Path>, b: seq<Path>)
    ensures Finish(p, v, a + b) == Finish(p, Finish(p, v, b), a)
    decreases |b|
  {
    if b == [] {
      assert a + b == a;
    } else {
      var n := |b| - 1;
      assert (a + b)[|a + b| - 1] == b[n] && (a + b)[..|a + b| - 1] == a + b[..n];
      hide RedactPlace;
      FinishConcat(p, RedactPlace(p, v, b[n]), a, b[..n]);
    }
  }

  /** The places of some children of the node at `at`. */
  function Below(at: Path, idx: seq<nat>): (r: seq<Path>)
    ensures |r| == |idx| && forall k :: 0 <= k < |idx| ==> r[k] == at + [idx[k]]
  {
    seq(|idx|, k requires 0 <= k < |idx| => at + [idx[k]])
  }

  function RedactChild(p: Policy, g: Json, i: nat): Json {
    if Child(g, i).Some? then WithChild(g, i, Redact(p, Child(g, i).value)) else g
  }

  /** The same, on the node alone. */
  function FinishNode(p: Policy, g: Json, idx: seq<nat>): Json
    decreases |idx|
  {
    if idx == [] then g else FinishNode(p, RedactChild(p, g, idx[|idx| - 1]), idx[..|idx| - 1])
  }

  lemma PutChild(v: Json, at: Path, i: nat, x: Json)
    requires At(v, at).Some?
    ensures At(v, at + [i]) == Child(At(v, at).value, i)
    ensures Put(v, at + [i], x) == Put(v, at, WithChild(At(v, at).value, i, x)) || Child(At(v, at).value, i).None?
  {
    PutBelow(v, at, [i], x);
    var g := At(v, at).value;
    assert [i][1..] == [];
    if Child(g, i).Some? {
      assert At(Child(g, i).value, []) == Some(Child(g, i).value);
      assert Put(g, [i], x) == WithChild(g, i, Put(Child(g, i).value, [], x));
    }
  }

  lemma {:induction false} ChildrenFinish(p: Policy, v: Json, at: Path, idx: seq<nat>)
    requires At(v, at).Some?
    ensures Finish(p, v, Below(at, idx)) == Put(v, at, FinishNode(p, At(v, at).value, idx))
    decreases |idx|
  {
    var g := At(v, at).value;
    if idx == [] {
      PutPut(v, at, g, g);
    } else {
      hide At;
      hide Put;
      hide Child;
      hide WithChild;
      hide Redact;
      var n := |idx| - 1;
      var i := idx[n];
      assert Below(at, idx)[n] == at + [i] && Below(at, idx)[..n] == Below(at, idx[..n]);
      var next := RedactPlace(p, v, at + [i]);
      var node := RedactChild(p, g, i);
      PutPut(v, at, g, g);
      PutPut(v, at, node, FinishNode(p, node, idx[..n]));
      PutChild(v, at, i, if Child(g, i).Some? then Redact(p, Child(g, i).value) else g);
      assert next == Put(v, at, node);
      ChildrenFinish(p, next, at, idx[..n]);
    }
  }

  // ----- one node ---------------------------------------------------------------------------------------------

  function UpTo(k: nat): (r: seq<nat>)
    ensures |r| == k && forall i :: 0 <= i < k ==> r[i] == i
  {
    seq(k, i => i)
  }

  lemma RedactedAt(p: Policy, items: seq<Json>, k: nat)
    requires k < |items|
    ensures var next := items[k := Redact(p, items[k])];
      RedactAll(p, next[..k]) + next[k..] == RedactAll(p, items[..k + 1]) + items[k + 1..]
  {
    hide Redact;
    var next := items[k := Redact(p, items[k])];
    assert next[..k] == items[..k];
    assert next[k..] == [Redact(p, items[k])] + items[k + 1..];
    assert items[..k + 1][..k] == items[..k] && items[..k + 1][k] == items[k];
  }

  lemma {:induction false} ArrayFinish(p: Policy, items: seq<Json>, k: nat)
    requires k <= |items|
    ensures FinishNode(p, Array(items), UpTo(k)) == Array(RedactAll(p, items[..k]) + items[k..])
    decreases k
  {
    hide Redact;
    hide RedactAll;
    if k == 0 {
      assert RedactAll(p, items[..0]) + items[0..] == items;
    } else {
      var next := items[k - 1 := Redact(p, items[k - 1])];
      assert UpTo(k)[..k - 1] == UpTo(k - 1) && UpTo(k)[k - 1] == k - 1;
      assert RedactChild(p, Array(items), k - 1) == Array(next);
      hide RedactChild;
      ArrayFinish(p, next, k - 1);
      RedactedAt(p, items, k - 1);
    }
  }

  /** The children of an object that are pushed: those under keys that are not sensitive. */
  function Kept(p: Policy, es: seq<Entry>, k: nat): seq<nat>
    requires k <= |es|
  {
    if k == 0 then [] else Kept(p, es, k - 1) + (if Sensitive(p, es[k - 1].key) then [] else [k - 1])
  }

  lemma {:induction false} KeptFacts(p: Policy, es: seq<Entry>, k: nat)
    requires k <= |es|
    ensures forall j :: 0 <= j < |Kept(p, es, k)| ==> Kept(p, es, k)[j] < k
    ensures Increasing(Kept(p, es, k))
  {
    hide Sensitive;
    if k > 0 { KeptFacts(p, es, k - 1); }
  }

  /** The first `k` entries with their sensitive values overwritten. */
  function Masked(p: Policy, es: seq<Entry>, k: nat): (r: seq<Entry>)
    requires k <= |es|
    ensures |r| == |es|
    ensures forall i :: 0 <= i < |es| ==> r[i] == if i < k && Sensitive(p, es[i].key) then es[i].(value := REDACTED) else es[i]
  {
    seq(|es|, i requires 0 <= i < |es| => if i < k && Sensitive(p, es[i].key) then es[i].(value := REDACTED) else es[i])
  }

  /** The first `k` entries with their other values redacted. */
  function Treated(p: Policy, es: seq<Entry>, k: nat): (r: seq<Entry>)
    requires k <= |es|
    ensures |r| == |es|
    ensures forall i :: 0 <= i < |es| ==> r[i] == if i < k && !Sensitive(p, es[i].key) then es[i].(value := Redact(p, es[i].value)) else es[i]
  {
    seq(|es|, i requires 0 <= i < |es| => if i < k && !Sensitive(p, es[i].key) then es[i].(value := Redact(p, es[i].value)) else es[i])
  }

  lemma {:induction false} KeptByKeys(p: Policy, es: seq<Entry>, fs: seq<Entry>, k: nat)
    requires k <= |es| == |fs| && forall i :: 0 <= i < |es| ==> es[i].key == fs[i].key
    ensures Kept(p, es, k) == Kept(p, fs, k)
  {
    if k > 0 { KeptByKeys(p, es, fs, k - 1); }
  }

  lemma KeptStep(p: Policy, es: seq<Entry>, k: nat)
    requires 0 < k <= |es|
    ensures Kept(p, es, k) == if Sensitive(p, es[k - 1].key) then Kept(p, es, k - 1) else Kept(p, es, k - 1) + [k - 1]
  {
  }

  lemma FinishNodeStep(p: Policy, g: Json, idx: seq<nat>, i: nat)
    ensures FinishNode(p, g, idx + [i]) == FinishNode(p, RedactChild(p, g, i), idx)
  {
    assert (idx + [i])[..|idx|] == idx;
  }

  function TreatOne(p: Policy, es: seq<Entry>, i: nat): (r: seq<Entry>)
    requires i < |es|
    ensures |r| == |es|
  {
    es[i := es[i].(value := Redact(p, es[i].value))]
  }

  lemma TreatStep(p: Policy, es: seq<Entry>, k: nat)
    requires 0 < k <= |es|
    ensures RedactChild(p, Object(es), k - 1) == Object(TreatOne(p, es, k - 1))
    ensures Treated(p, es, k) == if Sensitive(p, es[k - 1].key) then Treated(p, es, k - 1) else Treated(p, TreatOne(p, es, k - 1), k - 1)
    ensures Kept(p, TreatOne(p, es, k - 1), k - 1) == Kept(p, es, k - 1)
  {
    hide Sensitive;
    hide Redact;
    KeptByKeys(p, es, TreatOne(p, es, k - 1), k - 1);
  }

  lemma NothingTreated(p: Policy, es: seq<Entry>)
    ensures FinishNode(p, Object(es), Kept(p, es, 0)) == Object(Treated(p, es, 0))
  {
    assert Kept(p, es, 0) == [] && Treated(p, es, 0) == es;
  }

  lemma {:induction false} ObjectFinish(p: Policy, es: seq<Entry>, k: nat)
    requires k <= |es|
    ensures FinishNode(p, Object(es), Kept(p, es, k)) == Object(Treated(p, es, k))
    decreases k
  {
    hide *;
    if k == 0 {
      NothingTreated(p, es);
    } else {
      KeptStep(p, es, k);
      TreatStep(p, es, k);
      if Sensitive(p, es[k - 1].key) {
        ObjectFinish(p, es, k - 1);
      } else {
        var next := TreatOne(p, es, k - 1);
        FinishNodeStep(p, Object(es), Kept(p, es, k - 1), k - 1);
        ObjectFinish(p, next, k - 1);
      }
    }
  }

  lemma MaskedThenTreated(p: Policy, es: seq<Entry>)
    ensures var m := Masked(p, es, |es|);
      Kept(p, m, |es|) == Kept(p, es, |es|) && FinishNode(p, Object(m), Kept(p, es, |es|)) == Redact(p, Object(es))
  {
    var m := Masked(p, es, |es|);
    hide Sensitive;
    hide Kept;
    KeptByKeys(p, m, es, |es|);
    ObjectFinish(p, m, |es|);
    hide FinishNode;
    TreatedMasked(p, es);
  }

  lemma TreatedMasked(p: Policy, es: seq<Entry>)
    ensures Treated(p, Masked(p, es, |es|), |es|) == RedactEntries(p, es)
  {
    hide Sensitive;
    hide Redact;
    var m := Masked(p, es, |es|);
    forall i | 0 <= i < |es| ensures Treated(p, m, |es|)[i] == RedactEntries(p, es)[i] {
    }
  }

  // ----- the worklist -------------------------------------------------------------------------------------------

  ghost predicate AllApart(stack: seq<Path>) {
    forall j, k :: 0 <= j < k < |stack| ==> Apart(stack[j], stack[k]) && Apart(stack[k], stack[j])
  }

  ghost predicate AllValid(v: Json, stack: seq<Path>) {
    forall k :: 0 <= k < |stack| ==> At(v, stack[k]).Some?
  }

  /** The references on the stack are valid and never alias: no place is inside another. */
  ghost predicate Sound(v: Json, stack: seq<Path>) {
    AllValid(v, stack) && AllApart(stack)
  }

  /** The weight of everything still to be visited. */
  ghost function Total(v: Json, stack: seq<Path>): nat
    decreases |stack|
  {
    if stack == [] then 0
    else
      var last := At(v, stack[|stack| - 1]);
      Total(v, stack[..|stack| - 1]) + if last.Some? then Weight(last.value) else 0
  }

  lemma {:induction false} TotalConcat(v: Json, a: seq<Path>, b: seq<Path>)
    ensures Total(v, a + b) == Total(v, a) + Total(v, b)
    decreases |b|
  {
    if b == [] {
      assert a + b == a;
    } else {
      var n := |b| - 1;
      assert (a + b)[|a + b| - 1] == b[n] && (a + b)[..|a + b| - 1] == a + b[..n];
      TotalConcat(v, a, b[..n]);
    }
  }

  lemma {:induction false} TotalFrame(v: Json, w: Json, stack: seq<Path>)
    requires forall k :: 0 <= k < |stack| ==> At(v, stack[k]) == At(w, stack[k])
    ensures Total(v, stack) == Total(w, stack)
    decreases |stack|
  {
    if stack != [] {
      hide At;
      TotalFrame(v, w, stack[..|stack| - 1]);
    }
  }

  ghost function ChildWeights(g: Json, idx: seq<nat>): nat
    decreases |idx|
  {
    if idx == [] then 0
    else
      var c := Child(g, idx[|idx| - 1]);
      ChildWeights(g, idx[..|idx| - 1]) + if c.Some? then Weight(c.value) else 0
  }

  lemma {:induction false} TotalBelow(v: Json, at: Path, idx: seq<nat>)
    requires At(v, at).Some?
    ensures Total(v, Below(at, idx)) == ChildWeights(At(v, at).value, idx)
    decreases |idx|
  {
    if idx != [] {
      var n := |idx| - 1;
      PutChild(v, at, idx[n], v);
      hide At;
      hide Child;
      TotalBelow(v, at, idx[..n]);
      assert Below(at, idx)[..n] == Below(at, idx[..n]);
    }
  }

  ghost predicate Increasing(idx: seq<nat>) {
    forall i, j :: 0 <= i < j < |idx| ==> idx[i] < idx[j]
  }

  ghost predicate HasChildren(g: Json, idx: seq<nat>) {
    forall k :: 0 <= k < |idx| ==> Child(g, idx[k]).Some?
  }

  ghost predicate AllApartFrom(rest: seq<Path>, at: Path) {
    forall k :: 0 <= k < |rest| ==> Apart(rest[k], at) && Apart(at, rest[k])
  }

  lemma SoundParts(v: Json, rest: seq<Path>, at: Path)
    requires Sound(v, rest + [at])
    ensures AllApart(rest) && AllValid(v, rest) && AllApartFrom(rest, at) && At(v, at).Some?
  {
    hide Apart;
    hide At;
    var stack, n := rest + [at], |rest|;
    assert stack[n] == at && forall k :: 0 <= k < n ==> stack[k] == rest[k];
    forall k | 0 <= k < n ensures Apart(rest[k], at) && Apart(at, rest[k]) {
      assert Apart(stack[k], stack[n]) && Apart(stack[n], stack[k]);
    }
  }

  /** Overwriting one place leaves every place apart from it as it was. */
  lemma RestUnchanged(v: Json, rest: seq<Path>, at: Path, node: Json)
    requires AllApartFrom(rest, at)
    ensures forall k :: 0 <= k < |rest| ==> At(Put(v, at, node), rest[k]) == At(v, rest[k])
  {
    forall k | 0 <= k < |rest| ensures At(Put(v, at, node), rest[k]) == At(v, rest[k]) {
      PutElsewhere(v, at, rest[k], node);
    }
  }

  lemma PushedApart(rest: seq<Path>, at: Path, idx: seq<nat>)
    requires AllApart(rest) && AllApartFrom(rest, at) && Increasing(idx)
    ensures AllApart(rest + Below(at, idx))
  {
    hide Apart;
    var stack, n := rest + Below(at, idx), |rest|;
    forall j, k | 0 <= j < k < |stack| ensures Apart(stack[j], stack[k]) && Apart(stack[k], stack[j]) {
      if k < n {
        assert Apart(rest[j], rest[k]) && Apart(rest[k], rest[j]);
      } else if j < n {
        ApartBelow(at, rest[j], idx[k - n], 0);
        ApartBelow(rest[j], at, idx[k - n], 0);
      } else {
        ApartBelow(at, at, idx[j - n], idx[k - n]);
        ApartBelow(at, at, idx[k - n], idx[j - n]);
      }
    }
  }

  lemma SoundFrom(v: Json, rest: seq<Path>, pushed: seq<Path>)
    requires AllValid(v, rest) && AllValid(v, pushed) && AllApart(rest + pushed)
    ensures Sound(v, rest + pushed)
  {
    hide Apart;
    hide At;
  }

  lemma SameValid(v: Json, w: Json, rest: seq<Path>)
    requires AllValid(v, rest) && forall k :: 0 <= k < |rest| ==> At(w, rest[k]) == At(v, rest[k])
    ensures AllValid(w, rest)
  {
    hide At;
  }

  /** Overwriting a node and pushing some of its children keeps the other references valid and apart. */
  lemma ExpandSound(v: Json, rest: seq<Path>, at: Path, node: Json, idx: seq<nat>)
    requires Sound(v, rest + [at]) && Increasing(idx) && HasChildren(node, idx)
    ensures Sound(Put(v, at, node), rest + Below(at, idx))
    ensures Total(Put(v, at, node), rest + Below(at, idx)) == Total(v, rest) + ChildWeights(node, idx)
  {
    hide *;
    var next := Put(v, at, node);
    SoundParts(v, rest, at);
    PutPut(v, at, node, node);
    RestUnchanged(v, rest, at, node);
    SameValid(v, next, rest);
    TotalFrame(v, next, rest);
    TotalConcat(next, rest, Below(at, idx));
    TotalBelow(next, at, idx);
    BelowSound(next, at, idx);
    PushedApart(rest, at, idx);
    SoundFrom(next, rest, Below(at, idx));
  }

  lemma BelowSound(v: Json, at: Path, idx: seq<nat>)
    requires At(v, at).Some? && HasChildren(At(v, at).value, idx)
    ensures AllValid(v, Below(at, idx))
  {
    forall k | 0 <= k < |idx| ensures At(v, Below(at, idx)[k]).Some? {
      PutChild(v, at, idx[k], v);
    }
  }

  /** It also leaves the same finished value, when the children finish the node. */
  lemma ExpandFinishes(p: Policy, v: Json, rest: seq<Path>, at: Path, node: Json, idx: seq<nat>)
    requires At(v, at).Some? && FinishNode(p, node, idx) == Redact(p, At(v, at).value)
    ensures Finish(p, Put(v, at, node), rest + Below(at, idx)) == Finish(p, v, rest + [at])
  {
    var next := Put(v, at, node);
    FinishConcat(p, next, rest, Below(at, idx));
    FinishConcat(p, v, rest, [at]);
    PutPut(v, at, node, Redact(p, At(v, at).value));
    ChildrenFinish(p, next, at, idx);
    FinishOne(p, v, at);
    hide *;
  }

  lemma FinishOne(p: Policy, v: Json, at: Path)
    requires At(v, at).Some?
    ensures Finish(p, v, [at]) == Put(v, at, Redact(p, At(v, at).value))
  {
    assert [at][..0] == [];
    assert Finish(p, RedactPlace(p, v, at), []) == RedactPlace(p, v, at);
  }

  lemma {:induction false} ArrayWeights(items: seq<Json>, k: nat)
    requires k <= |items|
    ensures ChildWeights(Array(items), UpTo(k)) == WeightAll(items[..k]) && HasChildren(Array(items), UpTo(k)) && Increasing(UpTo(k))
    decreases k
  {
    if k > 0 {
      ArrayWeights(items, k - 1);
      hide Weight;
      assert UpTo(k)[..k - 1] == UpTo(k - 1) && items[..k][..k - 1] == items[..k - 1];
    } else {
      assert items[..0] == [];
    }
  }

  lemma ChildWeightsStep(g: Json, idx: seq<nat>, i: nat)
    requires Child(g, i).Some?
    ensures ChildWeights(g, idx + [i]) == ChildWeights(g, idx) + Weight(Child(g, i).value)
  {
    assert (idx + [i])[..|idx|] == idx;
  }

  lemma EntryWeightsStep(es: seq<Entry>, k: nat)
    requires 0 < k <= |es|
    ensures WeightEntries(es[..k]) == WeightEntries(es[..k - 1]) + Weight(es[k - 1].value)
  {
    assert es[..k][..k - 1] == es[..k - 1];
  }

  lemma MaskedChild(p: Policy, es: seq<Entry>, i: nat)
    requires i < |es| && !Sensitive(p, es[i].key)
    ensures Child(Object(Masked(p, es, |es|)), i) == Some(es[i].value)
  {
  }

  lemma NoWeights(p: Policy, es: seq<Entry>)
    ensures ChildWeights(Object(Masked(p, es, |es|)), Kept(p, es, 0)) == 0
  {
  }

  lemma {:induction false} ObjectWeights(p: Policy, es: seq<Entry>, k: nat)
    requires k <= |es|
    ensures ChildWeights(Object(Masked(p, es, |es|)), Kept(p, es, k)) <= WeightEntries(es[..k])
    decreases k
  {
    hide *;
    if k == 0 {
      NoWeights(p, es);
    } else {
      ObjectWeights(p, es, k - 1);
      KeptStep(p, es, k);
      EntryWeightsStep(es, k);
      if !Sensitive(p, es[k - 1].key) {
        MaskedChild(p, es, k - 1);
        ChildWeightsStep(Object(Masked(p, es, |es|)), Kept(p, es, k - 1), k - 1);
      }
    }
  }

  /** What one iteration must establish. */
  ghost predicate Advances(p: Policy, v: Json, stack: seq<Path>, w: Json, next: seq<Path>) {
    Sound(w, next) && Finish(p, w, next) == Finish(p, v, stack) && Total(w, next) < Total(v, stack)
  }

  lemma TotalPop(v: Json, rest: seq<Path>, at: Path)
    requires At(v, at).Some?
    ensures Total(v, rest + [at]) == Total(v, rest) + Weight(At(v, at).value)
  {
    TotalConcat(v, rest, [at]);
    assert [at][..0] == [] && Total(v, []) == 0;
  }

  lemma ObjectAdvances(p: Policy, v: Json, rest: seq<Path>, at: Path, es: seq<Entry>)
    requires Sound(v, rest + [at]) && At(v, at) == Some(Object(es))
    ensures Advances(p, v, rest + [at], Put(v, at, Object(Masked(p, es, |es|))), rest + Below(at, Kept(p, es, |es|)))
  {
    var m, idx := Object(Masked(p, es, |es|)), Kept(p, es, |es|);
    KeptFacts(p, es, |es|);
    assert HasChildren(m, idx);
    MaskedThenTreated(p, es);
    ObjectWeights(p, es, |es|);
    assert es[..|es|] == es;
    assert Weight(Object(es)) == 1 + WeightEntries(es);
    hide *;
    ExpandSound(v, rest, at, m, idx);
    ExpandFinishes(p, v, rest, at, m, idx);
    TotalPop(v, rest, at);
    AdvancesFrom(p, v, rest + [at], Put(v, at, m), rest + Below(at, idx));
  }

  lemma AdvancesFrom(p: Policy, v: Json, stack: seq<Path>, w: Json, next: seq<Path>)
    requires Sound(w, next) && Finish(p, w, next) == Finish(p, v, stack) && Total(w, next) < Total(v, stack)
    ensures Advances(p, v, stack, w, next)
  {
  }

  lemma ArrayAdvances(p: Policy, v: Json, rest: seq<Path>, at: Path, items: seq<Json>)
    requires Sound(v, rest + [at]) && At(v, at) == Some(Array(items))
    ensures Advances(p, v, rest + [at], v, rest + Below(at, UpTo(|items|)))
  {
    var idx := UpTo(|items|);
    ArrayFinish(p, items, |items|);
    ArrayWeights(items, |items|);
    assert items[..|items|] == items && items[|items|..] == [];
    assert RedactAll(p, items) + [] == RedactAll(p, items);
    assert Weight(Array(items)) == 1 + WeightAll(items);
    assert Redact(p, Array(items)) == Array(RedactAll(p, items));
    PutPut(v, at, Array(items), Array(items));
    hide *;
    ExpandSound(v, rest, at, Array(items), idx);
    ExpandFinishes(p, v, rest, at, Array(items), idx);
    TotalPop(v, rest, at);
    AdvancesFrom(p, v, rest + [at], v, rest + Below(at, idx));
  }

  lemma LeafAdvances(p: Policy, v: Json, rest: seq<Path>, at: Path, leaf: Json)
    requires Sound(v, rest + [at]) && At(v, at) == Some(leaf) && !leaf.Array? && !leaf.Object?
    ensures Advances(p, v, rest + [at], Put(v, at, Redact(p, leaf)), rest)
  {
    var w := Redact(p, leaf);
    assert FinishNode(p, w, []) == w && ChildWeights(w, []) == 0 && Weight(leaf) == 1;
    assert Increasing([]) && HasChildren(w, []);
    assert rest + Below(at, []) == rest;
    hide *;
    ExpandSound(v, rest, at, w, []);
    ExpandFinishes(p, v, rest, at, w, []);
    TotalPop(v, rest, at);
    AdvancesFrom(p, v, rest + [at], Put(v, at, w), rest);
  }

  /** `filter`: the in-place worklist terminates and leaves the recursive redaction of the result. */
  method Filter(p: Policy, original: Json) returns (result: Json)
    ensures result == Redact(p, original)
  {
    result := original;
    var stack: seq<Path> := [[]];
    FinishOne(p, result, []);
    assert Sound(result, stack);
    while stack != []
      invariant Sound(result, stack) && Finish(p, result, stack) == Redact(p, original)
      decreases Total(result, stack)
    {
      hide *;
      var rest, at := stack[..|stack| - 1], stack[|stack| - 1];
      assert stack == rest + [at];
      SoundTop(result, rest, at);
      ghost var before := result;
      match At(result, at).value {
        case Object(es) =>
          ObjectAdvances(p, result, rest, at, es);
          var pushed;
          result, pushed := MaskEntries(p, result, at, es);
          stack := rest + pushed;
        case Array(items) =>
          ArrayAdvances(p, result, rest, at, items);
          stack := rest + Below(at, UpTo(|items|));
        case String(s) =>
          LeafAdvances(p, result, rest, at, String(s));
          RedactLeaf(p, String(s));
          result := Put(result, at, String(p.scrub(s)));
          stack := rest;
        case leaf =>
          LeafAdvances(p, result, rest, at, leaf);
          RedactLeaf(p, leaf);
          PutSame(result, at);
          stack := rest;
      }
      Advanced(p, before, rest + [at], result, stack);
    }
  }

  lemma SoundTop(v: Json, rest: seq<Path>, at: Path)
    requires Sound(v, rest + [at])
    ensures At(v, at).Some?
  {
    assert (rest + [at])[|rest|] == at;
  }

  lemma RedactLeaf(p: Policy, v: Json)
    requires !v.Array? && !v.Object?
    ensures Redact(p, v) == if v.String? then String(p.scrub(v.text)) else v
  {
  }

  lemma PutSame(v: Json, at: Path)
    requires At(v, at).Some?
    ensures Put(v, at, At(v, at).value) == v
  {
    PutPut(v, at, At(v, at).value, v);
  }

  lemma Advanced(p: Policy, v: Json, stack: seq<Path>, w: Json, next: seq<Path>)
    requires Advances(p, v, stack, w, next)
    ensures Sound(w, next) && Finish(p, w, next) == Finish(p, v, stack) && Total(w, next) < Total(v, stack)
  {
  }

  lemma MaskStart(p: Policy, v: Json, at: Path, es: seq<Entry>)
    requires At(v, at) == Some(Object(es))
    ensures v == Put(v, at, Object(Masked(p, es, 0))) && [] == Below(at, Kept(p, es, 0))
  {
    assert Masked(p, es, 0) == es;
    PutSame(v, at);
  }

  lemma MaskStep(p: Policy, v: Json, at: Path, es: seq<Entry>, i: nat)
    requires At(v, at) == Some(Object(es)) && i < |es|
    ensures var w, pushed := Put(v, at, Object(Masked(p, es, i))), Below(at, Kept(p, es, i));
      if Sensitive(p, es[i].key) then
        Put(w, at + [i], REDACTED) == Put(v, at, Object(Masked(p, es, i + 1))) && pushed == Below(at, Kept(p, es, i + 1))
      else
        w == Put(v, at, Object(Masked(p, es, i + 1))) && pushed + [at + [i]] == Below(at, Kept(p, es, i + 1))
  {
    hide At;
    hide Put;
    hide Sensitive;
    var m := Masked(p, es, i);
    KeptStep(p, es, i + 1);
    hide Kept;
    if Sensitive(p, es[i].key) {
      PutPut(v, at, Object(m), Object(Masked(p, es, i + 1)));
      PutChild(Put(v, at, Object(m)), at, i, REDACTED);
      assert WithChild(Object(m), i, REDACTED) == Object(Masked(p, es, i + 1));
    } else {
      assert Masked(p, es, i + 1) == m;
    }
  }

  /** The scan of one object: sensitive values are overwritten, the others are pushed. */
  method MaskEntries(p: Policy, v: Json, at: Path, es: seq<Entry>) returns (w: Json, pushed: seq<Path>)
    requires At(v, at) == Some(Object(es))
    ensures w == Put(v, at, Object(Masked(p, es, |es|))) && pushed == Below(at, Kept(p, es, |es|))
  {
    hide *;
    w, pushed := v, [];
    MaskStart(p, v, at, es);
    for i := 0 to |es|
      invariant w == Put(v, at, Object(Masked(p, es, i))) && pushed == Below(at, Kept(p, es, i))
    {
      MaskStep(p, v, at, es, i);
      if Sensitive(p, es[i].key) {
        w := Put(w, at + [i], REDACTED);
      } else {
        pushed := pushed + [at + [i]];
      }
    }
  }
}
