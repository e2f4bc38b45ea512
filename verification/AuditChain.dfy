/**
 * Audit records, the digest preimage and the per-tenant hash chain
 * (crates/henosis-audit/src/lib.rs).
 */
module AuditChain {
  import opened Base
  import opened Encoding

  datatype Phase = Intent | Outcome

  datatype Receipt = Receipt(
    tenant: Text, sequence: nat, eventHash: Text, keyId: Text, witnessedAt: int, signature: Text)

  datatype Record = Record(
    tenant: Text, sequence: nat, eventId: Text, principal: Text, action: Text, phase: Phase,
    requestHash: Text, payload: Text, previousHash: Text, eventHash: Text, createdAt: int,
    key: Option<Text>, receipt: Option<Receipt>)

  datatype AuditError =
    | InvalidInput
    | IdempotencyConflict
    | ExecutionNotFound
    | ExecutionStateConflict
    | ChainVerification(sequence: nat, reason: LinkFault)
    | InvalidSignature
    | ReceiptMismatch
    | StreamBlocked(reasonCode: Text)

  datatype LinkFault = SequenceGap | PreviousHashMismatch | EventHashMismatch

  /**
   * The foreign cryptography: `digest` is SHA-256 followed by lowercase hex, `signed` says that the
   * receipt signature verifies under the configured witness key, `keyId` is that key's identifier.
   */
  datatype Crypto = Crypto(digest: Text -> Text, signed: Receipt -> bool, keyId: Text)

  function Zeros(n: nat): (t: Text)
    ensures |t| == n && forall i :: 0 <= i < n ==> t[i] == 0x30
  {
    if n == 0 then [] else Zeros(n - 1) + [0x30]
  }

  /** Sixty-four zero digits. */
  const GENESIS_HASH: Text := Zeros(64)
  const EVENT_DOMAIN: Text := Ascii("henosis.audit.event.v1")
  const RECEIPT_DOMAIN: Text := Ascii("henosis.audit.receipt.v1")
  const CHECKPOINT_DOMAIN: Text := Ascii("henosis.audit.checkpoint.v1")

  // ----- identifier validation -------------------------------------------------------------

  /** `value.chars().any(char::is_control)`: U+0000-001F, U+007F and U+0080-009F. */
  predicate HasControl(v: Text) {
    || (exists i :: 0 <= i < |v| && (v[i] < 0x20 || v[i] == 0x7F))
    || (exists i, j :: 0 <= i < |v| && j == i + 1 && j < |v| && v[i] == 0xC2 && 0x80 <= v[j] < 0xA0)
  }

  predicate ValidIdentifier(v: Text) {
    !Blank(v) && |v| <= 512 && !HasControl(v)
  }

  // ----- digest preimage ---------------------------------------------------------------------

  function PhaseName(p: Phase): Text {
    match p
    case Intent => Ascii("intent")
    case Outcome => Ascii("outcome")
  }

  function KeyOrEmpty(k: Option<Text>): Text {
    if k.Some? then k.value else []
  }

  /** The eleven hashed fields, in digest order. */
  function HashedFields(r: Record): (fs: seq<Text>)
    ensures |fs| == 11
  {
    [r.tenant, U64(r.sequence), r.eventId, r.principal, r.action, PhaseName(r.phase),
     r.requestHash, r.payload, r.previousHash, I64(r.createdAt), KeyOrEmpty(r.key)]
  }

  function Preimage(r: Record): Text {
    EVENT_DOMAIN + Fields(HashedFields(r))
  }

  /** The machine widths every stored record respects. */
  ghost predicate Fits(r: Record) {
    && r.sequence < WORD
    && -WORD / 2 <= r.createdAt < WORD / 2
    && AllFit(HashedFields(r))
  }

  /** The immutable part of a record. */
  function Bare(r: Record): Record {
    r.(receipt := None)
  }

  /** Records that differ at most in stored digest, receipt and an absent-versus-empty retry key. */
  ghost predicate SameHashedFields(r: Record, s: Record) {
    && KeyOrEmpty(r.key) == KeyOrEmpty(s.key)
    && r.(key := None, eventHash := [], receipt := None) == s.(key := None, eventHash := [], receipt := None)
  }

  lemma PhaseNameInjective(p: Phase, q: Phase)
    requires PhaseName(p) == PhaseName(q)
    ensures p == q
  {
    assert |PhaseName(Intent)| == 6 && |PhaseName(Outcome)| == 7;
  }

  /** The preimage determines every hashed field, and nothing else does. */
  lemma PreimageInjective(r: Record, s: Record)
    requires Fits(r) && Fits(s)
    ensures Preimage(r) == Preimage(s) <==> SameHashedFields(r, s)
  {
    var fs, gs := HashedFields(r), HashedFields(s);
    if Preimage(r) == Preimage(s) {
      assert Fields(fs) == Preimage(r)[|EVENT_DOMAIN|..] == Preimage(s)[|EVENT_DOMAIN|..] == Fields(gs);
      FieldsInjective(fs, gs);
      assert forall i :: 0 <= i < 11 ==> fs[i] == gs[i];
      assert fs[0] == gs[0] && fs[1] == gs[1] && fs[2] == gs[2] && fs[3] == gs[3] && fs[4] == gs[4] && fs[5] == gs[5];
      assert fs[6] == gs[6] && fs[7] == gs[7] && fs[8] == gs[8] && fs[9] == gs[9] && fs[10] == gs[10];
      U64Injective(r.sequence, s.sequence);
      I64Injective(r.createdAt, s.createdAt);
      PhaseNameInjective(r.phase, s.phase);
    }
  }

  /** The digested text names its domain and, in this order, exactly these eleven fields. */
  lemma PreimageReadsBack(r: Record)
    requires Fits(r)
    ensures |Preimage(r)| >= 22 && Preimage(r)[..22] == Ascii("henosis.audit.event.v1")
    ensures var fs := ReadFields(Preimage(r)[22..], 11);
      && fs.Some? && |fs.value| == 11
      && fs.value[0] == r.tenant && |fs.value[1]| == 8 && Value(fs.value[1]) == r.sequence && fs.value[2] == r.eventId
      && fs.value[3] == r.principal && fs.value[4] == r.action
      && fs.value[5] == (if r.phase == Intent then Ascii("intent") else Ascii("outcome"))
      && fs.value[6] == r.requestHash && fs.value[7] == r.payload && fs.value[8] == r.previousHash
      && |fs.value[9]| == 8 && SignedValue(fs.value[9]) == r.createdAt
      && fs.value[10] == (if r.key.Some? then r.key.value else [])
  {
    DomainThenFields(EVENT_DOMAIN, HashedFields(r));
    U64ReadsBack(r.sequence);
    I64ReadsBack(r.createdAt);
    hide Fields;
    hide ReadFields;
    hide U64;
    hide I64;
    hide Value;
    hide SignedValue;
  }

  lemma DomainThenFields(domain: Text, fs: seq<Text>)
    requires AllFit(fs)
    ensures var t := domain + Fields(fs); t[..|domain|] == domain && ReadFields(t[|domain|..], |fs|) == Some(fs)
  {
    FieldsReadBack(fs);
    assert (domain + Fields(fs))[|domain|..] == Fields(fs);
  }

  /** An absent retry key and an empty one share a preimage, so key validation is what separates them. */
  lemma EmptyKeyCollidesWithAbsentKey(r: Record)
    ensures Preimage(r.(key := None)) == Preimage(r.(key := Some([])))
    ensures !ValidIdentifier([])
  {
    assert HashedFields(r.(key := None)) == HashedFields(r.(key := Some([])));
  }

  // ----- signed bytes ------------------------------------------------------------------------

  function ReceiptFields(r: Receipt): (fs: seq<Text>)
    ensures |fs| == 5
  {
    [r.tenant, U64(r.sequence), r.eventHash, r.keyId, I64(r.witnessedAt)]
  }

  function ReceiptBytes(r: Receipt): Text {
    RECEIPT_DOMAIN + Fields(ReceiptFields(r))
  }

  function CheckpointBytes(r: Record, originKeyId: Text): Text {
    CHECKPOINT_DOMAIN + Fields(CheckpointFields(r, originKeyId))
  }

  /** The witness signs bytes that pin every receipt field except the signature itself. */
  lemma ReceiptBytesBindEveryField(r: Receipt, s: Receipt)
    requires r.sequence < WORD && -WORD / 2 <= r.witnessedAt < WORD / 2 && AllFit(ReceiptFields(r))
    requires s.sequence < WORD && -WORD / 2 <= s.witnessedAt < WORD / 2 && AllFit(ReceiptFields(s))
    ensures ReceiptBytes(r) == ReceiptBytes(s) <==> r.(signature := []) == s.(signature := [])
  {
    var fs, gs := ReceiptFields(r), ReceiptFields(s);
    if ReceiptBytes(r) == ReceiptBytes(s) {
      assert Fields(fs) == ReceiptBytes(r)[|RECEIPT_DOMAIN|..] == ReceiptBytes(s)[|RECEIPT_DOMAIN|..] == Fields(gs);
      FieldsInjective(fs, gs);
      assert fs[0] == gs[0] && fs[1] == gs[1] && fs[2] == gs[2] && fs[3] == gs[3] && fs[4] == gs[4];
      U64Injective(r.sequence, s.sequence);
      I64Injective(r.witnessedAt, s.witnessedAt);
    }
  }

  /** What the witness signs names its domain and, in this order, exactly these fields. */
  lemma ReceiptReadsBack(w: Receipt)
    requires w.sequence < WORD && -WORD / 2 <= w.witnessedAt < WORD / 2 && AllFit(ReceiptFields(w))
    ensures |ReceiptBytes(w)| >= 24 && ReceiptBytes(w)[..24] == Ascii("henosis.audit.receipt.v1")
    ensures var fs := ReadFields(ReceiptBytes(w)[24..], 5);
      && fs.Some? && |fs.value| == 5
      && fs.value[0] == w.tenant && |fs.value[1]| == 8 && Value(fs.value[1]) == w.sequence && fs.value[2] == w.eventHash
      && fs.value[3] == w.keyId && |fs.value[4]| == 8 && SignedValue(fs.value[4]) == w.witnessedAt
  {
    DomainThenFields(RECEIPT_DOMAIN, ReceiptFields(w));
    U64ReadsBack(w.sequence);
    I64ReadsBack(w.witnessedAt);
    hide Fields;
    hide ReadFields;
    hide U64;
    hide I64;
    hide Value;
    hide SignedValue;
  }

  function CheckpointFields(r: Record, originKeyId: Text): (fs: seq<Text>)
    ensures |fs| == 6
  {
    [r.tenant, U64(r.sequence), r.eventId, r.previousHash, r.eventHash, originKeyId]
  }

  /** What the origin signs names its domain and, in this order, exactly these fields. */
  lemma CheckpointReadsBack(r: Record, origin: Text)
    requires r.sequence < WORD && AllFit(CheckpointFields(r, origin))
    ensures |CheckpointBytes(r, origin)| >= 27 && CheckpointBytes(r, origin)[..27] == Ascii("henosis.audit.checkpoint.v1")
    ensures var fs := ReadFields(CheckpointBytes(r, origin)[27..], 6);
      && fs.Some? && |fs.value| == 6
      && fs.value[0] == r.tenant && |fs.value[1]| == 8 && Value(fs.value[1]) == r.sequence && fs.value[2] == r.eventId
      && fs.value[3] == r.previousHash && fs.value[4] == r.eventHash && fs.value[5] == origin
  {
    DomainThenFields(CHECKPOINT_DOMAIN, CheckpointFields(r, origin));
    U64ReadsBack(r.sequence);
    hide Fields;
    hide ReadFields;
    hide U64;
    hide Value;
  }

  /** No bytes are both a checkpoint and a receipt, so neither signature can stand in for the other. */
  lemma SignatureDomainsAreDisjoint(r: Record, origin: Text, w: Receipt)
    ensures CheckpointBytes(r, origin) != ReceiptBytes(w)
  {
    var c, d := "henosis.audit.checkpoint.v1", "henosis.audit.receipt.v1";
    assert CheckpointBytes(r, origin)[14] == CHECKPOINT_DOMAIN[14] == c[14] as int % 256 == 'c' as int;
    assert ReceiptBytes(w)[14] == RECEIPT_DOMAIN[14] == d[14] as int % 256 == 'r' as int;
  }

  // ----- chain verification ------------------------------------------------------------------

  function EventHash(c: Crypto, r: Record): Text {
    c.digest(Preimage(r))
  }

  function PreviousHash(events: seq<Record>, i: nat): Text
    requires i <= |events|
  {
    if i == 0 then GENESIS_HASH else events[i - 1].eventHash
  }

  predicate LinkOk(c: Crypto, events: seq<Record>, i: nat)
    requires i < |events|
  {
    && events[i].sequence == i + 1
    && events[i].previousHash == PreviousHash(events, i)
    && events[i].eventHash == EventHash(c, events[i])
  }

  /** The stream is contiguous from 1 and every link carries its own digest. */
  predicate Linked(c: Crypto, events: seq<Record>) {
    forall i :: 0 <= i < |events| ==> LinkOk(c, events, i)
  }

  /** Positions from 1, a first predecessor of 64 zero digits, each later one the digest before, and the row's own digest. */
  ghost predicate Follows(c: Crypto, events: seq<Record>, i: nat)
    requires i < |events|
  {
    && events[i].sequence == i + 1 && events[i].eventHash == c.digest(Preimage(events[i]))
    && (i == 0 ==> |events[i].previousHash| == 64 && forall k :: 0 <= k < 64 ==> events[i].previousHash[k] == 0x30)
    && (i > 0 ==> events[i].previousHash == events[i - 1].eventHash)
  }

  lemma LinkedMeans(c: Crypto, events: seq<Record>)
    ensures Linked(c, events) <==> forall i :: 0 <= i < |events| ==> Follows(c, events, i)
  {
    forall i | 0 <= i < |events| ensures LinkOk(c, events, i) <==> Follows(c, events, i) {
      if i == 0 { OnlyZeros(events[0].previousHash); }
      hide Preimage;
    }
    hide LinkOk;
    hide Follows;
  }

  lemma OnlyZeros(t: Text)
    ensures t == GENESIS_HASH <==> |t| == 64 && forall k :: 0 <= k < 64 ==> t[k] == 0x30
  {
    hide Zeros;
  }

  function LinkFaultAt(c: Crypto, events: seq<Record>, i: nat): LinkFault
    requires i < |events| && !LinkOk(c, events, i)
  {
    if events[i].sequence != i + 1 then SequenceGap
    else if events[i].previousHash != PreviousHash(events, i) then PreviousHashMismatch
    else EventHashMismatch
  }

  /** The outcome of checking the rows from `i` on: the first fault wins. */
  function VerifyFrom(c: Crypto, events: seq<Record>, i: nat): Result<nat, AuditError>
    requires i <= |events|
    decreases |events| - i
  {
    if i == |events| then Ok(|events|)
    else if LinkOk(c, events, i) then VerifyFrom(c, events, i + 1)
    else Err(ChainVerification(events[i].sequence, LinkFaultAt(c, events, i)))
  }

  /** Verification accepts exactly the linked streams, counting every row. */
  lemma {:induction false} VerifyAcceptsLinked(c: Crypto, events: seq<Record>, i: nat)
    requires i <= |events| && forall j :: 0 <= j < i ==> LinkOk(c, events, j)
    ensures VerifyFrom(c, events, i).Ok? <==> Linked(c, events)
    ensures VerifyFrom(c, events, i).Ok? ==> VerifyFrom(c, events, i).value == |events|
    decreases |events| - i
  {
    if i < |events| && LinkOk(c, events, i) {
      VerifyAcceptsLinked(c, events, i + 1);
    }
  }

  lemma VerifyStep(c: Crypto, events: seq<Record>, i: nat)
    requires i < |events|
    ensures VerifyFrom(c, events, i) ==
      if events[i].sequence != i + 1 then Err(ChainVerification(events[i].sequence, SequenceGap))
      else if events[i].previousHash != PreviousHash(events, i) then Err(ChainVerification(events[i].sequence, PreviousHashMismatch))
      else if events[i].eventHash != EventHash(c, events[i]) then Err(ChainVerification(events[i].sequence, EventHashMismatch))
      else VerifyFrom(c, events, i + 1)
  {
    hide EventHash;
  }

  lemma VerifyEnd(c: Crypto, events: seq<Record>)
    ensures VerifyFrom(c, events, |events|) == Ok(|events|)
  {
  }

  lemma PreviousHashes(events: seq<Record>)
    ensures PreviousHash(events, 0) == GENESIS_HASH
    ensures forall i :: 0 <= i < |events| ==> PreviousHash(events, i + 1) == events[i].eventHash
  {
  }

  /** `verify_tenant_in`, with its running predecessor digest. */
  method VerifyTenantIn(c: Crypto, events: seq<Record>) returns (r: Result<nat, AuditError>)
    ensures r == VerifyFrom(c, events, 0)
    ensures r.Ok? <==> Linked(c, events)
  {
    VerifyAcceptsLinked(c, events, 0);
    hide *;
    PreviousHashes(events);
    VerifyEnd(c, events);
    var expectedPrevious := GENESIS_HASH;
    for i := 0 to |events|
      invariant expectedPrevious == PreviousHash(events, i)
      invariant VerifyFrom(c, events, 0) == VerifyFrom(c, events, i)
    {
      var record := events[i];
      VerifyStep(c, events, i);
      if record.sequence != i + 1 {
        return Err(ChainVerification(record.sequence, SequenceGap));
      }
      if record.previousHash != expectedPrevious {
        return Err(ChainVerification(record.sequence, PreviousHashMismatch));
      }
      if record.eventHash != EventHash(c, record) {
        return Err(ChainVerification(record.sequence, EventHashMismatch));
      }
      expectedPrevious := record.eventHash;
    }
    return Ok(|events|);
  }

  // ----- chain binding -----------------------------------------------------------------------

  /** A retry key that passed validation, and machine widths. */
  ghost predicate Admissible(r: Record) {
    Fits(r) && (r.key.Some? ==> ValidIdentifier(r.key.value))
  }

  /** Two rows, one from each stream, with different preimages and the same digest. */
  ghost predicate ExhibitsCollision(c: Crypto, a: seq<Record>, b: seq<Record>) {
    exists i, j {:trigger a[i], b[j]} ::
      && 0 <= i < |a| && 0 <= j < |b|
      && Preimage(a[i]) != Preimage(b[j])
      && c.digest(Preimage(a[i])) == c.digest(Preimage(b[j]))
  }

  /** The same immutable history: the streams differ at most in attached receipts. */
  ghost predicate SameHistory(a: seq<Record>, b: seq<Record>) {
    && |a| == |b|
    && forall i :: 0 <= i < |a| ==> Bare(a[i]) == Bare(b[i])
  }

  ghost predicate AllAdmissible(a: seq<Record>) {
    forall i {:trigger Admissible(a[i])} :: 0 <= i < |a| ==> Admissible(a[i])
  }

  /** Equal digests at two positions: either a collision, or one position and one predecessor digest. */
  lemma RowsAgree(c: Crypto, a: seq<Record>, b: seq<Record>, i: nat, j: nat) returns (collision: bool)
    requires Linked(c, a) && Linked(c, b) && AllAdmissible(a) && AllAdmissible(b)
    requires i < |a| && j < |b| && a[i].eventHash == b[j].eventHash
    ensures collision ==> ExhibitsCollision(c, a, b)
    ensures !collision ==> i == j && Bare(a[i]) == Bare(b[j]) && PreviousHash(a, i) == PreviousHash(b, j)
  {
    assert LinkOk(c, a, i) && LinkOk(c, b, j) && Admissible(a[i]) && Admissible(b[j]);
    collision := Preimage(a[i]) != Preimage(b[j]);
    if !collision {
      PreimageInjective(a[i], b[j]);
    }
  }

  lemma {:induction false} HistoryBelow(c: Crypto, a: seq<Record>, b: seq<Record>, m: nat) returns (collision: bool)
    requires Linked(c, a) && Linked(c, b) && AllAdmissible(a) && AllAdmissible(b)
    requires m <= |a| && m <= |b| && PreviousHash(a, m) == PreviousHash(b, m)
    ensures collision ==> ExhibitsCollision(c, a, b)
    ensures !collision ==> forall i :: 0 <= i < m ==> Bare(a[i]) == Bare(b[i])
  {
    collision := false;
    if m > 0 {
      collision := RowsAgree(c, a, b, m - 1, m - 1);
      if !collision {
        collision := HistoryBelow(c, a, b, m - 1);
      }
    }
  }

  /**
   * Chain binding: two streams that both verify and share a head digest are the same history, unless
   * the two streams themselves exhibit a digest collision.
   */
  lemma ChainBinding(c: Crypto, a: seq<Record>, b: seq<Record>)
    requires Linked(c, a) && Linked(c, b) && AllAdmissible(a) && AllAdmissible(b)
    requires |a| > 0 && |b| > 0 && a[|a| - 1].eventHash == b[|b| - 1].eventHash
    ensures SameHistory(a, b) || ExhibitsCollision(c, a, b)
  {
    var collision := RowsAgree(c, a, b, |a| - 1, |b| - 1);
    if !collision {
      collision := HistoryBelow(c, a, b, |a|);
    }
  }

  lemma LinkedExtend(c: Crypto, a: seq<Record>, r: Record)
    requires Linked(c, a)
    requires r.sequence == |a| + 1 && r.previousHash == PreviousHash(a, |a|) && r.eventHash == EventHash(c, r)
    ensures Linked(c, a + [r])
  {
    forall i | 0 <= i < |a| + 1 ensures LinkOk(c, a + [r], i) {
      if i < |a| { assert LinkOk(c, a, i); }
    }
  }
}
