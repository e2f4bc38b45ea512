/**
 * What the audit event of an operator's conclusion says, as somebody reading the stream finds it: the verdict, the
 * evidence and the execution it is about (`execution_resolution_event`, crates/henosis-audit/src/lib.rs).
 */
module ResolutionRecord {
  import opened Base
  import opened AuditChain
  import opened AuditLedger
  import J = CanonicalJson
  import opened JsonParser

  // ----- numerals --------------------------------------------------------------------------------------------

  ghost predicate Digits(t: Text) {
    t != [] && forall i :: 0 <= i < |t| ==> 0x30 <= t[i] <= 0x39
  }

  /** The number a decimal numeral stands for. */
  ghost function NumeralValue(t: Text): int {
    if t == [] then 0 else 10 * NumeralValue(t[..|t| - 1]) + t[|t| - 1] - 0x30
  }

  lemma {:induction false} DecimalReadsBack(n: nat)
    ensures Digits(Decimal(n)) && NumeralValue(Decimal(n)) == n
  {
    var t := Decimal(n);
    if n < 10 {
      assert t[..0] == [];
    } else {
      DecimalReadsBack(n / 10);
      assert t[..|t| - 1] == Decimal(n / 10);
    }
  }

  // ----- what a reader finds ---------------------------------------------------------------------------------

  /** The text is one JSON object; `f` are its members. */
  ghost predicate ReadsAs(t: Text, f: map<Text, J.Tree>) {
    exists v :: ParseValue(t) == Some(Parsed(v, [])) && J.Meaning(v) == J.TObject(f)
  }

  ghost predicate Says(f: map<Text, J.Tree>, name: string, value: Text) {
    Ascii(name) in f && f[Ascii(name)] == J.TString(value)
  }

  /** The payload of the event: verdict, evidence, and the request and intent it concludes. */
  ghost predicate PayloadStates(f: map<Text, J.Tree>, i: ResolutionInput, x: Execution) {
    && |f| == 7
    && Says(f, "decision", if i.kind == Executed then Ascii("executed") else Ascii("not_executed"))
    && Says(f, "outcome", Ascii("indeterminate_resolved")) && Says(f, "reason_code", Ascii("external_evidence_digest"))
    && Says(f, "target_request_hash", x.requestHash) && Says(f, "evidence_sha256", i.evidence)
    && Says(f, "policy_version", Ascii("henosis-execution-resolution-v1"))
    && Counts(f, x.intentSequence)
  }

  /** The request whose digest the event carries. */
  ghost predicate RequestStates(f: map<Text, J.Tree>, i: ResolutionInput, x: Execution) {
    && |f| == 5
    && Says(f, "target_principal_id", i.target.principal) && Says(f, "target_idempotency_key", i.target.key)
    && Says(f, "target_request_hash", x.requestHash)
    && Says(f, "resolution", if i.kind == Executed then Ascii("executed") else Ascii("not_executed"))
    && Says(f, "evidence_sha256", i.evidence)
  }

  /** The event records this conclusion about this execution, in its text and in its request digest. */
  ghost predicate StatesConclusion(c: Crypto, e: Record, i: ResolutionInput, x: Execution) {
    && e.principal == i.resolvedBy && e.action == Ascii("audit.execution_resolution") && e.phase == Outcome
    && (exists f :: ReadsAs(e.payload, f) && PayloadStates(f, i, x))
    && (exists text, f :: e.requestHash == c.digest(text) && ReadsAs(text, f) && RequestStates(f, i, x))
  }

  // ----- the two objects ---------------------------------------------------------------------------------------

  lemma HeadKeyIsNew(es: seq<J.Entry>)
    requires J.DistinctKeys(es) && es != []
    ensures es[0].key !in J.FieldMeanings(es[1..])
  {
    if es[0].key in J.FieldMeanings(es[1..]) { var i := J.FieldMeaningsOnly(es[1..], es[0].key); }
  }

  lemma {:induction false} MeaningSize(es: seq<J.Entry>)
    requires J.DistinctKeys(es)
    ensures |J.FieldMeanings(es)| == |es|
  {
    if es != [] {
      MeaningSize(es[1..]);
      HeadKeyIsNew(es);
      assert J.FieldMeanings(es) == J.FieldMeanings(es[1..])[es[0].key := J.EntryMeaning(es[0])];
    }
  }

  lemma PrintedReadsAs(es: seq<J.Entry>)
    requires J.WellFormed(J.Object(es))
    ensures ReadsAs(J.Canonical(J.Object(es)), J.FieldMeanings(es)) && |J.FieldMeanings(es)| == |es|
  {
    CanonicalTextReadsBack(J.Object(es));
    MeaningSize(es);
    hide ParseValue;
    hide J.Canonicalize;
    assert J.Meaning(J.Object(es)) == J.TObject(J.FieldMeanings(es));
  }

  lemma MemberSays(es: seq<J.Entry>, k: nat, name: string, value: Text)
    requires J.DistinctKeys(es) && k < |es| && es[k] == Member(name, value)
    ensures Says(J.FieldMeanings(es), name, value)
  {
    J.FieldMeaningsHolds(es, k);
  }

  /** A number that tells the member names apart: their length and one of their letters. */
  ghost function Code(k: Text, pos: nat): int {
    1000 * |k| + if pos < |k| then k[pos] else 0
  }

  lemma FiveNames(es: seq<J.Entry>)
    requires |es| == 5 && forall k :: 0 <= k < 5 ==> J.WellFormed(es[k].value)
    requires Code(es[0].key, 7) == 19112 && Code(es[1].key, 7) == 22105 && Code(es[2].key, 7) == 19114 && Code(es[3].key, 7) == 10105
    requires Code(es[4].key, 7) == 15101
    ensures J.WellFormed(J.Object(es))
  {
    hide Code;
  }

  lemma SevenNames(es: seq<J.Entry>)
    requires |es| == 7 && forall k :: 0 <= k < 7 ==> J.WellFormed(es[k].value)
    requires Code(es[0].key, 0) == 8100 && Code(es[1].key, 0) == 7111 && Code(es[2].key, 0) == 11114 && Code(es[3].key, 0) == 19116
    requires Code(es[4].key, 0) == 15101 && Code(es[5].key, 0) == 15105 && Code(es[6].key, 0) == 14112
    ensures J.WellFormed(J.Object(es))
  {
    hide Code;
  }

  lemma RequestCodes()
    ensures Code(Ascii("target_principal_id"), 7) == 19112 && Code(Ascii("target_idempotency_key"), 7) == 22105
    ensures Code(Ascii("target_request_hash"), 7) == 19114 && Code(Ascii("resolution"), 7) == 10105 && Code(Ascii("evidence_sha256"), 7) == 15101
  {
    var n0, n1, n2, n3, n4 := "target_principal_id", "target_idempotency_key", "target_request_hash", "resolution", "evidence_sha256";
    assert n0[7] == 'p' && n1[7] == 'i' && n2[7] == 'r' && n3[7] == 'i' && n4[7] == 'e';
  }

  lemma PayloadCodes()
    ensures Code(Ascii("decision"), 0) == 8100 && Code(Ascii("outcome"), 0) == 7111 && Code(Ascii("reason_code"), 0) == 11114
    ensures Code(Ascii("target_request_hash"), 0) == 19116 && Code(Ascii("evidence_sha256"), 0) == 15101
    ensures Code(Ascii("intent_sequence"), 0) == 15105 && Code(Ascii("policy_version"), 0) == 14112
  {
    var n0, n1, n2, n3 := "decision", "outcome", "reason_code", "target_request_hash";
    var n4, n5, n6 := "evidence_sha256", "intent_sequence", "policy_version";
    assert n0[0] == 'd' && n1[0] == 'o' && n2[0] == 'r' && n3[0] == 't' && n4[0] == 'e' && n5[0] == 'i' && n6[0] == 'p';
  }

  function RequestEntries(i: ResolutionInput, x: Execution): seq<J.Entry> {
    [Member("target_principal_id", i.target.principal), Member("target_idempotency_key", i.target.key),
     Member("target_request_hash", x.requestHash), Member("resolution", KindName(i.kind)),
     Member("evidence_sha256", i.evidence)]
  }

  function PayloadEntries(i: ResolutionInput, x: Execution): seq<J.Entry> {
    [Member("decision", KindName(i.kind)), Member("outcome", Ascii("indeterminate_resolved")),
     Member("reason_code", Ascii("external_evidence_digest")), Member("target_request_hash", x.requestHash),
     Member("evidence_sha256", i.evidence), J.Entry(Ascii("intent_sequence"), J.Number(Decimal(x.intentSequence))),
     Member("policy_version", Ascii("henosis-execution-resolution-v1"))]
  }

  /** The members of the request, by position. */
  lemma RequestList(i: ResolutionInput, x: Execution)
    ensures var es := RequestEntries(i, x);
      && |es| == 5 && es[0] == Member("target_principal_id", i.target.principal) && es[1] == Member("target_idempotency_key", i.target.key)
      && es[2] == Member("target_request_hash", x.requestHash)
      && es[3] == Member("resolution", if i.kind == Executed then Ascii("executed") else Ascii("not_executed"))
      && es[4] == Member("evidence_sha256", i.evidence)
  {
  }

  /** The members of the payload, by position. */
  lemma PayloadList(i: ResolutionInput, x: Execution)
    ensures var es := PayloadEntries(i, x);
      && |es| == 7 && es[0] == Member("decision", if i.kind == Executed then Ascii("executed") else Ascii("not_executed"))
      && es[1] == Member("outcome", Ascii("indeterminate_resolved")) && es[2] == Member("reason_code", Ascii("external_evidence_digest"))
      && es[3] == Member("target_request_hash", x.requestHash) && es[4] == Member("evidence_sha256", i.evidence)
      && es[5] == J.Entry(Ascii("intent_sequence"), J.Number(Decimal(x.intentSequence)))
      && es[6] == Member("policy_version", Ascii("henosis-execution-resolution-v1"))
  {
    hide Decimal;
  }

  lemma RequestKeys(i: ResolutionInput, x: Execution)
    ensures J.WellFormed(J.Object(RequestEntries(i, x)))
  {
    hide Ascii;
    hide Code;
    var es := RequestEntries(i, x);
    RequestList(i, x);
    RequestCodes();
    hide RequestEntries;
    assert forall k :: 0 <= k < 5 ==> J.WellFormed(es[k].value);
    FiveNames(es);
  }

  lemma PayloadKeys(i: ResolutionInput, x: Execution)
    ensures J.WellFormed(J.Object(PayloadEntries(i, x)))
  {
    hide Ascii;
    hide Code;
    hide Decimal;
    var es := PayloadEntries(i, x);
    PayloadList(i, x);
    PayloadCodes();
    NumeralWellFormed(x.intentSequence);
    hide PayloadEntries;
    assert forall k :: 0 <= k < 7 ==> J.WellFormed(es[k].value);
    SevenNames(es);
  }

  lemma NumeralWellFormed(n: nat)
    ensures J.WellFormed(J.Number(Decimal(n)))
  {
    DecimalReadsBack(n);
  }

  lemma RequestSays(i: ResolutionInput, x: Execution)
    ensures var es := RequestEntries(i, x); ReadsAs(J.Canonical(J.Object(es)), J.FieldMeanings(es)) && RequestStates(J.FieldMeanings(es), i, x)
  {
    var es := RequestEntries(i, x);
    RequestKeys(i, x);
    assert J.DistinctKeys(es);
    hide *;
    RequestList(i, x);
    PrintedReadsAs(es);
    MemberSays(es, 0, "target_principal_id", i.target.principal);
    MemberSays(es, 1, "target_idempotency_key", i.target.key);
    MemberSays(es, 2, "target_request_hash", x.requestHash);
    MemberSays(es, 3, "resolution", if i.kind == Executed then Ascii("executed") else Ascii("not_executed"));
    MemberSays(es, 4, "evidence_sha256", i.evidence);
    RequestStated(J.FieldMeanings(es), i, x);
  }

  lemma RequestStated(f: map<Text, J.Tree>, i: ResolutionInput, x: Execution)
    requires |f| == 5 && Says(f, "target_principal_id", i.target.principal) && Says(f, "target_idempotency_key", i.target.key)
    requires Says(f, "target_request_hash", x.requestHash) && Says(f, "evidence_sha256", i.evidence)
    requires Says(f, "resolution", if i.kind == Executed then Ascii("executed") else Ascii("not_executed"))
    ensures RequestStates(f, i, x)
  {
    hide Says;
  }

  lemma PayloadSays(i: ResolutionInput, x: Execution)
    ensures var es := PayloadEntries(i, x); ReadsAs(J.Canonical(J.Object(es)), J.FieldMeanings(es)) && PayloadStates(J.FieldMeanings(es), i, x)
  {
    var es := PayloadEntries(i, x);
    PayloadKeys(i, x);
    assert J.DistinctKeys(es);
    hide *;
    PayloadList(i, x);
    PrintedReadsAs(es);
    MemberSays(es, 0, "decision", if i.kind == Executed then Ascii("executed") else Ascii("not_executed"));
    MemberSays(es, 1, "outcome", Ascii("indeterminate_resolved"));
    MemberSays(es, 2, "reason_code", Ascii("external_evidence_digest"));
    MemberSays(es, 3, "target_request_hash", x.requestHash);
    MemberSays(es, 4, "evidence_sha256", i.evidence);
    NumeralStated(es, 5, x.intentSequence);
    MemberSays(es, 6, "policy_version", Ascii("henosis-execution-resolution-v1"));
    PayloadStated(J.FieldMeanings(es), i, x);
  }

  ghost predicate Counts(f: map<Text, J.Tree>, n: nat) {
    && Ascii("intent_sequence") in f && f[Ascii("intent_sequence")].TNumber?
    && Digits(f[Ascii("intent_sequence")].literal) && NumeralValue(f[Ascii("intent_sequence")].literal) == n
  }

  lemma NumeralStated(es: seq<J.Entry>, k: nat, n: nat)
    requires J.DistinctKeys(es) && k < |es| && es[k] == J.Entry(Ascii("intent_sequence"), J.Number(Decimal(n)))
    ensures Counts(J.FieldMeanings(es), n)
  {
    J.FieldMeaningsHolds(es, k);
    DecimalReadsBack(n);
  }

  lemma PayloadStated(f: map<Text, J.Tree>, i: ResolutionInput, x: Execution)
    requires |f| == 7 && Says(f, "decision", if i.kind == Executed then Ascii("executed") else Ascii("not_executed"))
    requires Says(f, "outcome", Ascii("indeterminate_resolved")) && Says(f, "reason_code", Ascii("external_evidence_digest"))
    requires Says(f, "target_request_hash", x.requestHash) && Says(f, "evidence_sha256", i.evidence)
    requires Says(f, "policy_version", Ascii("henosis-execution-resolution-v1")) && Counts(f, x.intentSequence)
    ensures PayloadStates(f, i, x)
  {
    hide Says;
    hide NumeralValue;
  }

  /** An event with the content of a resolution event states that conclusion to any reader. */
  lemma EventStatesConclusion(c: Crypto, t: Text, e: Record, i: ResolutionInput, x: Execution)
    requires SameContent(e, ResolutionEvent(c, t, i, x))
    ensures StatesConclusion(c, e, i, x)
  {
    RequestSays(i, x);
    PayloadSays(i, x);
    var event := ResolutionEvent(c, t, i, x);
    var request, payload := J.Object(RequestEntries(i, x)), J.Object(PayloadEntries(i, x));
    assert event.requestHash == c.digest(J.Canonical(request)) && event.payload == J.Canonical(payload);
    hide Ascii;
    hide ReadsAs;
    hide PayloadStates;
    hide RequestStates;
    hide RequestEntries;
    hide PayloadEntries;
    hide J.Canonical;
  }

  // ----- the retry key of a conclusion ---------------------------------------------------------------------------

  lemma FirstZero(a: Text, r: Text)
    ensures (a + ([0] + r))[0] == (if a == [] then 0 else a[0])
    ensures (a + ([0] + r))[1..] == (if a == [] then r else a[1..] + ([0] + r))
  {
  }

  lemma {:induction false} SplitAtZero(a: Text, b: Text, r: Text, s: Text)
    requires (forall i :: 0 <= i < |a| ==> a[i] != 0) && (forall i :: 0 <= i < |b| ==> b[i] != 0) && a + ([0] + r) == b + ([0] + s)
    ensures a == b && r == s
  {
    FirstZero(a, r);
    FirstZero(b, s);
    if a != [] {
      SplitAtZero(a[1..], b[1..], r, s);
      assert a == [a[0]] + a[1..] && b == [b[0]] + b[1..];
    }
  }

  /**
   * Conclusions about different executions, of one tenant or of two, have different retry keys, unless two different
   * texts have one digest.
   */
  lemma ResolutionKeysDiffer(c: Crypto, t: Text, k: RetryKey, u: Text, j: RetryKey)
    requires ValidRetryKey(t, k) && ValidRetryKey(u, j) && ResolutionKey(c, t, k) == ResolutionKey(c, u, j)
    ensures (t == u && k == j) || exists a, b :: a != b && c.digest(a) == c.digest(b)
  {
    var a, b := t + [0] + k.principal + [0] + k.key, u + [0] + j.principal + [0] + j.key;
    J.SamePrefix(Ascii("execution-resolution-"), c.digest(a), c.digest(b));
    if a == b {
      NoZero(t);
      NoZero(u);
      NoZero(k.principal);
      NoZero(j.principal);
      hide *;
      Nest(t, k.principal, k.key);
      Nest(u, j.principal, j.key);
      SplitAtZero(t, u, k.principal + ([0] + k.key), j.principal + ([0] + j.key));
      SplitAtZero(k.principal, j.principal, k.key, j.key);
    }
  }

  lemma Nest(t: Text, p: Text, k: Text)
    ensures t + [0] + p + [0] + k == t + ([0] + (p + ([0] + k)))
  {
  }

  lemma NoZero(v: Text)
    requires ValidIdentifier(v)
    ensures forall i :: 0 <= i < |v| ==> v[i] != 0
  {
  }
}
