/**
 * The audit store's transactions on one tenant's rows: the event stream, the at-most-once execution
 * ledger, operator resolutions and the fail-closed stream block
 * (crates/henosis-audit/src/lib.rs). Each transaction is one function from rows to rows; a failed
 * transaction rolls back.
 */
module AuditLedger {
  import opened Base
  import opened AuditChain
  import J = CanonicalJson

  datatype ExecutionState = Claimed | Completed | Indeterminate

  /** Primary key of the execution tables inside one tenant. */
  datatype RetryKey = RetryKey(principal: Text, key: Text)

  datatype Execution = Execution(
    requestHash: Text, state: ExecutionState, result: Option<Text>, intentSequence: nat,
    claimedAt: int, updatedAt: int)

  datatype ExecutionClaim = Acquired(execution: Execution) | Existing(execution: Execution)

  datatype ResolutionKind = Executed | NotExecuted

  datatype Resolution = Resolution(
    kind: ResolutionKind, evidence: Text, resolvedBy: Text, auditSequence: nat, finalized: bool,
    resolvedAt: int)

  datatype ResolutionInput = ResolutionInput(
    target: RetryKey, resolvedBy: Text, kind: ResolutionKind, evidence: Text)

  datatype StreamState = StreamState(blocked: bool, reason: Option<Text>, updatedAt: int)

  /** Every row one tenant owns, the events in sequence order. */
  datatype Ledger = Ledger(
    events: seq<Record>, executions: map<RetryKey, Execution>, resolutions: map<RetryKey, Resolution>,
    stream: Option<StreamState>)

  const EMPTY: Ledger := Ledger([], map[], map[], None)

  /** An append request; `requestHash` and `payload` are the digest and text of canonical JSON. */
  datatype EventInput = EventInput(
    principal: Text, action: Text, phase: Phase, requestHash: Text, payload: Text, key: Option<Text>)

  /** The execution key of a keyed event. */
  function KeyOf(i: EventInput): RetryKey
    requires i.key.Some?
  {
    RetryKey(i.principal, i.key.value)
  }

  /** The server-assigned event identifier and timestamp. */
  datatype Mint = Mint(eventId: Text, now: int)

  datatype Step<+T> = Step(ledger: Ledger, result: Result<T, AuditError>)

  const MAX_RESULT_BYTES: nat := 1024 * 1024

  // ----- validation ----------------------------------------------------------------------------

  predicate ValidInput(t: Text, i: EventInput) {
    && ValidIdentifier(t) && ValidIdentifier(i.principal) && ValidIdentifier(i.action)
    && (i.key.Some? ==> ValidIdentifier(i.key.value))
  }

  predicate ValidExecutionEvent(t: Text, i: EventInput, phase: Phase) {
    ValidInput(t, i) && i.phase == phase && i.key.Some?
  }

  predicate ValidRetryKey(t: Text, k: RetryKey) {
    ValidIdentifier(t) && ValidIdentifier(k.principal) && ValidIdentifier(k.key)
  }

  predicate LowerHex64(e: Text) {
    |e| == 64 && forall i :: 0 <= i < |e| ==> 0x30 <= e[i] <= 0x39 || 0x61 <= e[i] <= 0x66
  }

  predicate ValidResolutionInput(t: Text, i: ResolutionInput) {
    ValidRetryKey(t, i.target) && ValidIdentifier(i.resolvedBy) && LowerHex64(i.evidence)
  }

  // ----- appending -----------------------------------------------------------------------------

  predicate Keyed(r: Record, principal: Text, phase: Phase, key: Text) {
    r.principal == principal && r.phase == phase && r.key == Some(key)
  }

  /** `load_by_idempotency`: the row with this retry key, as an index. */
  function FindKeyed(events: seq<Record>, principal: Text, phase: Phase, key: Text): (o: Option<nat>)
    ensures o.Some? ==> o.value < |events| && Keyed(events[o.value], principal, phase, key)
    ensures o.None? ==> forall i :: 0 <= i < |events| ==> !Keyed(events[i], principal, phase, key)
  {
    if events == [] then None
    else
      var n := |events| - 1;
      if Keyed(events[n], principal, phase, key) then Some(n)
      else
        var o := FindKeyed(events[..n], principal, phase, key);
        assert o.None? ==> forall i :: 0 <= i < n ==> events[i] == events[..n][i];
        o
  }

  function NextSequence(events: seq<Record>): nat {
    if events == [] then 1 else events[|events| - 1].sequence + 1
  }

  function NewRecord(c: Crypto, t: Text, events: seq<Record>, i: EventInput, m: Mint): Record {
    var r := Record(t, NextSequence(events), m.eventId, i.principal, i.action, i.phase, i.requestHash, i.payload,
                    PreviousHash(events, |events|), [], m.now, i.key, None);
    r.(eventHash := EventHash(c, r))
  }

  /** `ensure_idempotent_match` */
  predicate SameContent(r: Record, i: EventInput) {
    && r.principal == i.principal && r.action == i.action && r.phase == i.phase
    && r.requestHash == i.requestHash && r.payload == i.payload
  }

  datatype Appended = Appended(events: seq<Record>, record: Record)

  /** `append_in_transaction` */
  function AppendIn(c: Crypto, t: Text, events: seq<Record>, i: EventInput, m: Mint): Result<Appended, AuditError> {
    var found := if i.key.Some? then FindKeyed(events, i.principal, i.phase, i.key.value) else None;
    if found.Some? then
      if SameContent(events[found.value], i) then Ok(Appended(events, events[found.value])) else Err(IdempotencyConflict)
    else
      var r := NewRecord(c, t, events, i, m);
      Ok(Appended(events + [r], r))
  }

  predicate Blocked(l: Ledger) {
    l.stream.Some? && l.stream.value.blocked
  }

  /** The error of `ensure_stream_writable_in` on a blocked stream. */
  function BlockError(l: Ledger): AuditError
    requires Blocked(l)
  {
    var reason := l.stream.value.reason;
    StreamBlocked(if reason.Some? then reason.value else Ascii("ambiguous_completion"))
  }

  function Append(c: Crypto, t: Text, l: Ledger, i: EventInput, m: Mint): Step<Record> {
    if !ValidInput(t, i) then Step(l, Err(InvalidInput))
    else if Blocked(l) then Step(l, Err(BlockError(l)))
    else
      match AppendIn(c, t, l.events, i, m)
      case Err(e) => Step(l, Err(e))
      case Ok(a) => Step(l.(events := a.events), Ok(a.record))
  }

  // ----- executions ----------------------------------------------------------------------------

  function ClaimExecution(c: Crypto, t: Text, l: Ledger, i: EventInput, m: Mint): Step<ExecutionClaim> {
    if !ValidExecutionEvent(t, i, Intent) then Step(l, Err(InvalidInput))
    else
      var k := RetryKey(i.principal, i.key.value);
      if k in l.executions then
        if l.executions[k].requestHash == i.requestHash then Step(l, Ok(Existing(l.executions[k])))
        else Step(l, Err(IdempotencyConflict))
      else if Blocked(l) then Step(l, Err(BlockError(l)))
      else
        match AppendIn(c, t, l.events, i, m)
        case Err(e) => Step(l, Err(e))
        case Ok(a) =>
          var e := Execution(i.requestHash, Claimed, None, a.record.sequence, a.record.createdAt, a.record.createdAt);
          Step(l.(events := a.events, executions := l.executions[k := e]), Ok(Acquired(e)))
  }

  function CompleteExecution(c: Crypto, t: Text, l: Ledger, i: EventInput, result: Text, m: Mint, now: int): Step<Execution> {
    if !ValidExecutionEvent(t, i, Outcome) || |result| > MAX_RESULT_BYTES then Step(l, Err(InvalidInput))
    else if Blocked(l) then Step(l, Err(BlockError(l)))
    else
      var k := RetryKey(i.principal, i.key.value);
      if k !in l.executions then Step(l, Err(ExecutionNotFound))
      else
        var e := l.executions[k];
        if e.requestHash != i.requestHash then Step(l, Err(IdempotencyConflict))
        else if e.state == Completed then
          if e.result == Some(result) then Step(l, Ok(e)) else Step(l, Err(ExecutionStateConflict))
        else if e.state == Indeterminate then Step(l, Err(ExecutionStateConflict))
        else
          match AppendIn(c, t, l.events, i, m)
          case Err(x) => Step(l, Err(x))
          case Ok(a) =>
            var f := e.(state := Completed, result := Some(result), updatedAt := now);
            Step(l.(events := a.events, executions := l.executions[k := f]), Ok(f))
  }

  function MarkIndeterminate(t: Text, l: Ledger, k: RetryKey, requestHash: Text, now: int): Step<Execution> {
    if !ValidRetryKey(t, k) then Step(l, Err(InvalidInput))
    else if k !in l.executions then Step(l, Err(ExecutionNotFound))
    else
      var e := l.executions[k];
      if e.requestHash != requestHash then Step(l, Err(IdempotencyConflict))
      else if e.state == Completed then Step(l, Err(ExecutionStateConflict))
      else if e.state == Indeterminate then Step(l, Ok(e))
      else
        var f := e.(state := Indeterminate, result := None, updatedAt := now);
        Step(l.(executions := l.executions[k := f]), Ok(f))
  }

  // ----- resolutions ---------------------------------------------------------------------------

  function KindName(k: ResolutionKind): Text {
    if k == Executed then Ascii("executed") else Ascii("not_executed")
  }

  function ResolutionKey(c: Crypto, t: Text, k: RetryKey): Text {
    Ascii("execution-resolution-") + c.digest(t + [0] + k.principal + [0] + k.key)
  }

  function Member(name: string, value: Text): J.Entry {
    J.Entry(Ascii(name), J.String(value))
  }

  function Decimal(n: nat): Text {
    if n < 10 then [0x30 + n] else Decimal(n / 10) + [0x30 + n % 10]
  }

  /** `execution_resolution_event` */
  function ResolutionEvent(c: Crypto, t: Text, i: ResolutionInput, e: Execution): EventInput {
    var request := J.Object([
      Member("target_principal_id", i.target.principal), Member("target_idempotency_key", i.target.key),
      Member("target_request_hash", e.requestHash), Member("resolution", KindName(i.kind)),
      Member("evidence_sha256", i.evidence)]);
    var payload := J.Object([
      Member("decision", KindName(i.kind)), Member("outcome", Ascii("indeterminate_resolved")),
      Member("reason_code", Ascii("external_evidence_digest")), Member("target_request_hash", e.requestHash),
      Member("evidence_sha256", i.evidence), J.Entry(Ascii("intent_sequence"), J.Number(Decimal(e.intentSequence))),
      Member("policy_version", Ascii("henosis-execution-resolution-v1"))]);
    EventInput(i.resolvedBy, Ascii("audit.execution_resolution"), Outcome, c.digest(J.Canonical(request)),
               J.Canonical(payload), Some(ResolutionKey(c, t, i.target)))
  }

  /** `ensure_resolution_match` */
  predicate SameConclusion(x: Resolution, i: ResolutionInput) {
    x.kind == i.kind && x.evidence == i.evidence && x.resolvedBy == i.resolvedBy
  }

  datatype Reserved = Reserved(resolution: Resolution, record: Record)

  function BeginResolution(c: Crypto, t: Text, l: Ledger, i: ResolutionInput, m: Mint, now: int): Step<Reserved> {
    if !ValidResolutionInput(t, i) then Step(l, Err(InvalidInput))
    else if i.target in l.resolutions then
      var x := l.resolutions[i.target];
      if !SameConclusion(x, i) then Step(l, Err(ExecutionStateConflict))
      else if !(1 <= x.auditSequence <= |l.events|) then Step(l, Err(ExecutionNotFound))
      else Step(l, Ok(Reserved(x, l.events[x.auditSequence - 1])))
    else if Blocked(l) then Step(l, Err(BlockError(l)))
    else if i.target !in l.executions then Step(l, Err(ExecutionNotFound))
    else if l.executions[i.target].state != Indeterminate then Step(l, Err(ExecutionStateConflict))
    else
      var event := ResolutionEvent(c, t, i, l.executions[i.target]);
      if !ValidInput(t, event) then Step(l, Err(InvalidInput))
      else
        match AppendIn(c, t, l.events, event, m)
        case Err(e) => Step(l, Err(e))
        case Ok(a) =>
          var x := Resolution(i.kind, i.evidence, i.resolvedBy, a.record.sequence, false, now);
          Step(l.(events := a.events, resolutions := l.resolutions[i.target := x]), Ok(Reserved(x, a.record)))
  }

  function FinalizeResolution(t: Text, l: Ledger, i: ResolutionInput, requireWitness: bool): Step<Resolution> {
    if !ValidResolutionInput(t, i) then Step(l, Err(InvalidInput))
    else if i.target !in l.resolutions then Step(l, Err(ExecutionNotFound))
    else
      var x := l.resolutions[i.target];
      if !SameConclusion(x, i) then Step(l, Err(ExecutionStateConflict))
      else if x.finalized then Step(l, Ok(x))
      else if !(1 <= x.auditSequence <= |l.events|) then Step(l, Err(ExecutionNotFound))
      else if requireWitness && l.events[x.auditSequence - 1].receipt.None? then Step(l, Err(ExecutionStateConflict))
      else
        var y := x.(finalized := true);
        Step(l.(resolutions := l.resolutions[i.target := y]), Ok(y))
  }

  // ----- stream block, receipts and recovery -----------------------------------------------------

  function MarkAmbiguous(t: Text, l: Ledger, reason: Text, now: int): Step<()> {
    if !ValidIdentifier(t) || !ValidIdentifier(reason) then Step(l, Err(InvalidInput))
    else Step(l.(stream := Some(StreamState(true, Some(reason), now))), Ok(()))
  }

  /** The rows an `attach_witness_receipt` update selects. */
  predicate Attachable(l: Ledger, r: Receipt) {
    && 1 <= r.sequence <= |l.events|
    && var e := l.events[r.sequence - 1];
       e.tenant == r.tenant && e.eventHash == r.eventHash && (e.receipt.None? || e.receipt == Some(r))
  }

  function AttachReceipt(c: Crypto, l: Ledger, r: Receipt): Step<()> {
    if !c.signed(r) then Step(l, Err(InvalidSignature))
    else if !Attachable(l, r) then Step(l, Err(ReceiptMismatch))
    else
      var n := r.sequence - 1;
      Step(l.(events := l.events[n := l.events[n].(receipt := Some(r))]), Ok(()))
  }

  /** `verify_receipt_for_record` */
  predicate ReceiptFor(c: Crypto, e: Record, r: Receipt) {
    && r.tenant == e.tenant && r.sequence == e.sequence && r.eventHash == e.eventHash && r.keyId == c.keyId
    && c.signed(r)
  }

  function ReceiptCheck(c: Crypto, e: Record, r: Receipt): Result<(), AuditError> {
    if !(r.tenant == e.tenant && r.sequence == e.sequence && r.eventHash == e.eventHash && r.keyId == c.keyId) then Err(ReceiptMismatch)
    else if !c.signed(r) then Err(InvalidSignature)
    else Ok(())
  }

  /** The event carries a receipt that the configured witness issued for exactly this event. */
  predicate Witnessed(c: Crypto, e: Record) {
    e.receipt.Some? && ReceiptFor(c, e, e.receipt.value)
  }

  datatype Recovery = Recovery(verifiedRecords: nat, recoveredSequence: nat)

  function Recover(c: Crypto, t: Text, l: Ledger, sequence: nat, eventHash: Text, now: int): Step<Recovery> {
    if !ValidIdentifier(t) || !ValidIdentifier(c.keyId) then Step(l, Err(InvalidInput))
    else
      match VerifyFrom(c, l.events, 0)
      case Err(e) => Step(l, Err(e))
      case Ok(n) =>
        if l.events == [] then Step(l, Err(InvalidInput))
        else
          var head := l.events[|l.events| - 1];
          if head.sequence != sequence || head.eventHash != eventHash || head.receipt.None? then Step(l, Err(ReceiptMismatch))
          else
            match ReceiptCheck(c, head, head.receipt.value)
            case Err(e) => Step(l, Err(e))
            case Ok(_) =>
              if l.stream.None? then Step(l, Err(InvalidInput))
              else if l.stream.value.blocked then
                Step(l.(stream := Some(StreamState(false, None, now))), Ok(Recovery(n, head.sequence)))
              else Step(l, Ok(Recovery(n, head.sequence)))
  }

  // ----- one operation of any caller -------------------------------------------------------------

  datatype Op =
    | OpAppend(input: EventInput, mint: Mint)
    | OpClaim(input: EventInput, mint: Mint)
    | OpComplete(input: EventInput, result: Text, mint: Mint, now: int)
    | OpMark(key: RetryKey, requestHash: Text, now: int)
    | OpBegin(conclusion: ResolutionInput, mint: Mint, now: int)
    | OpFinalize(conclusion: ResolutionInput, requireWitness: bool)
    | OpBlock(reason: Text, now: int)
    | OpAttach(receipt: Receipt)
    | OpRecover(sequence: nat, eventHash: Text, now: int)

  function Apply(c: Crypto, t: Text, l: Ledger, op: Op): Ledger {
    match op
    case OpAppend(i, m) => Append(c, t, l, i, m).ledger
    case OpClaim(i, m) => ClaimExecution(c, t, l, i, m).ledger
    case OpComplete(i, r, m, now) => CompleteExecution(c, t, l, i, r, m, now).ledger
    case OpMark(k, h, now) => MarkIndeterminate(t, l, k, h, now).ledger
    case OpBegin(i, m, now) => BeginResolution(c, t, l, i, m, now).ledger
    case OpFinalize(i, w) => FinalizeResolution(t, l, i, w).ledger
    case OpBlock(r, now) => MarkAmbiguous(t, l, r, now).ledger
    case OpAttach(r) => AttachReceipt(c, l, r).ledger
    case OpRecover(s, h, now) => Recover(c, t, l, s, h, now).ledger
  }

  /** The rows after a run of operations on a fresh database. */
  function Run(c: Crypto, t: Text, ops: seq<Op>): Ledger {
    if ops == [] then EMPTY else Apply(c, t, Run(c, t, ops[..|ops| - 1]), ops[|ops| - 1])
  }

  // ----- the invariant ---------------------------------------------------------------------------

  /** Whatever receipt an event carries was signed for this very event. */
  ghost predicate BoundReceipt(c: Crypto, e: Record) {
    e.receipt.Some? ==>
      var r := e.receipt.value;
      c.signed(r) && r.tenant == e.tenant && r.sequence == e.sequence && r.eventHash == e.eventHash
  }

  ghost predicate ChainOk(c: Crypto, t: Text, events: seq<Record>) {
    && Linked(c, events)
    && forall i :: 0 <= i < |events| ==> events[i].tenant == t && BoundReceipt(c, events[i])
  }

  ghost predicate SameRetryKey(r: Record, s: Record) {
    r.key.Some? && r.principal == s.principal && r.phase == s.phase && r.key == s.key
  }

  /** At most one event per principal, phase and retry key. */
  ghost predicate KeysUnique(events: seq<Record>) {
    forall i, j :: 0 <= i < j < |events| ==> !SameRetryKey(events[i], events[j])
  }

  ghost predicate HasOutcome(events: seq<Record>, k: RetryKey, requestHash: Text) {
    exists i :: 0 <= i < |events| && Keyed(events[i], k.principal, Outcome, k.key) && events[i].requestHash == requestHash
  }

  /** The row points at its own intent event, and a completed row has a matching outcome event. */
  ghost predicate ExecutionOk(events: seq<Record>, k: RetryKey, e: Execution) {
    && 1 <= e.intentSequence <= |events|
    && Keyed(events[e.intentSequence - 1], k.principal, Intent, k.key)
    && events[e.intentSequence - 1].requestHash == e.requestHash
    && (e.state == Completed <==> e.result.Some?)
    && (e.state == Completed ==> HasOutcome(events, k, e.requestHash))
  }

  /** The conclusion a resolution row stands for. */
  function Conclusion(k: RetryKey, x: Resolution): ResolutionInput {
    ResolutionInput(k, x.resolvedBy, x.kind, x.evidence)
  }

  /** The row belongs to an indeterminate execution and points at the event that records its own verdict and evidence. */
  ghost predicate ResolutionOk(c: Crypto, t: Text, l: Ledger, k: RetryKey, x: Resolution) {
    && k in l.executions && l.executions[k].state == Indeterminate
    && 1 <= x.auditSequence <= |l.events|
    && Keyed(l.events[x.auditSequence - 1], x.resolvedBy, Outcome, ResolutionKey(c, t, k))
    && SameContent(l.events[x.auditSequence - 1], ResolutionEvent(c, t, Conclusion(k, x), l.executions[k]))
  }

  ghost predicate LedgerInv(c: Crypto, t: Text, l: Ledger) {
    && ChainOk(c, t, l.events)
    && KeysUnique(l.events)
    && (forall k :: k in l.executions ==> ExecutionOk(l.events, k, l.executions[k]))
    && (forall k :: k in l.resolutions ==> ResolutionOk(c, t, l, k, l.resolutions[k]))
  }

  // ----- what every transaction may do to the rows -------------------------------------------------

  ghost predicate EventExtends(r: Record, s: Record) {
    Bare(r) == Bare(s) && (r.receipt.Some? ==> s.receipt == r.receipt)
  }

  /** The stream is only extended at its end, and receipts are write-once. */
  ghost predicate EventsExtend(a: seq<Record>, b: seq<Record>) {
    |a| <= |b| && forall i :: 0 <= i < |a| ==> EventExtends(a[i], b[i])
  }

  /** A claim may settle once; a settled row never changes again. */
  ghost predicate ExecutionAdvances(e: Execution, f: Execution) {
    && f.requestHash == e.requestHash && f.intentSequence == e.intentSequence && f.claimedAt == e.claimedAt
    && (e.state != Claimed ==> f == e)
  }

  /** A conclusion is immutable except for becoming final. */
  ghost predicate ResolutionAdvances(x: Resolution, y: Resolution) {
    y == x || y == x.(finalized := true)
  }

  ghost predicate LedgerExtends(l: Ledger, n: Ledger) {
    && EventsExtend(l.events, n.events)
    && (forall k :: k in l.executions ==> k in n.executions && ExecutionAdvances(l.executions[k], n.executions[k]))
    && (forall k :: k in l.resolutions ==> k in n.resolutions && ResolutionAdvances(l.resolutions[k], n.resolutions[k]))
  }

  lemma ExtendsTransitive(a: Ledger, b: Ledger, d: Ledger)
    requires LedgerExtends(a, b) && LedgerExtends(b, d)
    ensures LedgerExtends(a, d)
  {
    forall i | 0 <= i < |a.events| ensures EventExtends(a.events[i], d.events[i]) {
      assert EventExtends(a.events[i], b.events[i]) && EventExtends(b.events[i], d.events[i]);
    }
    forall k | k in a.executions ensures k in d.executions && ExecutionAdvances(a.executions[k], d.executions[k]) {
      assert ExecutionAdvances(a.executions[k], b.executions[k]) && ExecutionAdvances(b.executions[k], d.executions[k]);
    }
  }

  lemma ExecutionSurvives(before: seq<Record>, events: seq<Record>, k: RetryKey, e: Execution)
    requires ExecutionOk(before, k, e) && EventsExtend(before, events)
    ensures ExecutionOk(events, k, e)
  {
    assert EventExtends(before[e.intentSequence - 1], events[e.intentSequence - 1]);
    if e.state == Completed {
      var i :| 0 <= i < |before| && Keyed(before[i], k.principal, Outcome, k.key) && before[i].requestHash == e.requestHash;
      assert EventExtends(before[i], events[i]);
    }
  }

  lemma ResolutionSurvives(c: Crypto, t: Text, l: Ledger, events: seq<Record>, k: RetryKey, x: Resolution)
    requires ResolutionOk(c, t, l, k, x) && EventsExtend(l.events, events)
    ensures ResolutionOk(c, t, l.(events := events), k, x)
  {
    hide ResolutionEvent;
    hide ResolutionKey;
    assert EventExtends(l.events[x.auditSequence - 1], events[x.auditSequence - 1]);
  }

  lemma ExecutionsSurvive(c: Crypto, t: Text, l: Ledger, events: seq<Record>)
    requires LedgerInv(c, t, l) && EventsExtend(l.events, events)
    ensures forall k :: k in l.executions ==> ExecutionOk(events, k, l.executions[k])
    ensures forall k :: k in l.resolutions ==> ResolutionOk(c, t, l.(events := events), k, l.resolutions[k])
  {
    hide ExecutionOk;
    hide ResolutionOk;
    hide ChainOk;
    hide KeysUnique;
    hide EventsExtend;
    forall k | k in l.executions ensures ExecutionOk(events, k, l.executions[k]) {
      ExecutionSurvives(l.events, events, k, l.executions[k]);
    }
    forall k | k in l.resolutions ensures ResolutionOk(c, t, l.(events := events), k, l.resolutions[k]) {
      ResolutionSurvives(c, t, l, events, k, l.resolutions[k]);
    }
  }

  lemma SequenceIsPosition(c: Crypto, t: Text, events: seq<Record>, i: nat)
    requires ChainOk(c, t, events) && i < |events|
    ensures events[i].sequence == i + 1
  {
    hide EventHash;
    assert LinkOk(c, events, i);
  }

  lemma NewRecordLinks(c: Crypto, t: Text, events: seq<Record>, i: EventInput, m: Mint)
    requires ChainOk(c, t, events)
    ensures var r := NewRecord(c, t, events, i, m); r.sequence == |events| + 1 && ChainOk(c, t, events + [r])
  {
    hide Preimage;
    if events != [] { assert LinkOk(c, events, |events| - 1); }
    var r := NewRecord(c, t, events, i, m);
    HashIgnores(c, r);
    LinkedExtend(c, events, r);
  }

  /** The digest covers neither itself nor the receipt. */
  lemma HashIgnores(c: Crypto, r: Record)
    ensures EventHash(c, r.(eventHash := [])) == EventHash(c, r) == EventHash(c, Bare(r))
  {
    assert HashedFields(r.(eventHash := [])) == HashedFields(r) == HashedFields(Bare(r));
  }

  lemma NewRecordKeyIsNew(c: Crypto, t: Text, events: seq<Record>, i: EventInput, m: Mint)
    requires KeysUnique(events)
    requires i.key.Some? ==> FindKeyed(events, i.principal, i.phase, i.key.value).None?
    ensures KeysUnique(events + [NewRecord(c, t, events, i, m)])
  {
    hide EventHash;
    var r := NewRecord(c, t, events, i, m);
    forall j | 0 <= j < |events| ensures !SameRetryKey(events[j], r) {
      assert i.key.Some? ==> !Keyed(events[j], i.principal, i.phase, i.key.value);
    }
  }

  /** Appending keeps the chain, and returns a row of the new stream that says what was asked. */
  lemma AppendInKeeps(c: Crypto, t: Text, events: seq<Record>, i: EventInput, m: Mint)
    requires ChainOk(c, t, events) && KeysUnique(events) && AppendIn(c, t, events, i, m).Ok?
    ensures var a := AppendIn(c, t, events, i, m).value;
      && ChainOk(c, t, a.events) && KeysUnique(a.events) && EventsExtend(events, a.events)
      && 1 <= a.record.sequence <= |a.events| && a.events[a.record.sequence - 1] == a.record
      && SameContent(a.record, i) && a.record.key == i.key
  {
    hide ValidIdentifier;
    hide EventHash;
    hide Linked;
    hide KeysUnique;
    var found := if i.key.Some? then FindKeyed(events, i.principal, i.phase, i.key.value) else None;
    if found.Some? {
      SequenceIsPosition(c, t, events, found.value);
    } else {
      NewRecordLinks(c, t, events, i, m);
      NewRecordKeyIsNew(c, t, events, i, m);
    }
  }

  lemma ClaimKeeps(c: Crypto, t: Text, l: Ledger, i: EventInput, m: Mint)
    requires LedgerInv(c, t, l)
    ensures var n := ClaimExecution(c, t, l, i, m).ledger; LedgerInv(c, t, n) && LedgerExtends(l, n)
  {
    hide ResolutionEvent;
    hide ValidIdentifier;
    hide EventHash;
    hide ChainOk;
    hide KeysUnique;
    var s := ClaimExecution(c, t, l, i, m);
    if s.ledger != l {
      AppendInKeeps(c, t, l.events, i, m);
      ExecutionsSurvive(c, t, l, s.ledger.events);
      SettleExecution(c, t, l, s.ledger.events, RetryKey(i.principal, i.key.value), s.result.value.execution);
    }
  }

  /** Writing one execution row that is right for the new stream keeps the invariant. */
  lemma SettleExecution(c: Crypto, t: Text, l: Ledger, events: seq<Record>, k: RetryKey, e: Execution)
    requires LedgerInv(c, t, l) && ChainOk(c, t, events) && KeysUnique(events) && EventsExtend(l.events, events)
    requires ExecutionOk(events, k, e)
    requires k in l.executions ==> l.executions[k].state == Claimed && ExecutionAdvances(l.executions[k], e)
    ensures var n := l.(events := events, executions := l.executions[k := e]); LedgerInv(c, t, n) && LedgerExtends(l, n)
  {
    hide ResolutionEvent;
    hide ChainOk;
    hide KeysUnique;
    hide ExecutionOk;
    hide EventsExtend;
    hide ResolutionKey;
    ExecutionsSurvive(c, t, l, events);
    var n := l.(events := events, executions := l.executions[k := e]);
    forall r | r in n.resolutions ensures ResolutionOk(c, t, n, r, n.resolutions[r]) {
      assert ResolutionOk(c, t, l, r, l.resolutions[r]);
      assert ResolutionOk(c, t, l.(events := events), r, l.resolutions[r]);
    }
  }

  lemma CompleteKeeps(c: Crypto, t: Text, l: Ledger, i: EventInput, result: Text, m: Mint, now: int)
    requires LedgerInv(c, t, l)
    ensures var n := CompleteExecution(c, t, l, i, result, m, now).ledger; LedgerInv(c, t, n) && LedgerExtends(l, n)
  {
    hide ResolutionOk;
    hide LedgerExtends;
    hide ResolutionEvent;
    hide ValidInput;
    hide ChainOk;
    hide KeysUnique;
    hide EventsExtend;
    hide EventHash;
    var s := CompleteExecution(c, t, l, i, result, m, now);
    ExtendsItself(l);
    if s.ledger != l {
      var k := RetryKey(i.principal, i.key.value);
      var a := AppendIn(c, t, l.events, i, m).value;
      AppendInKeeps(c, t, l.events, i, m);
      ExecutionsSurvive(c, t, l, a.events);
      assert ExecutionOk(a.events, k, l.executions[k]);
      assert Keyed(a.events[a.record.sequence - 1], k.principal, Outcome, k.key);
      assert HasOutcome(a.events, k, i.requestHash);
      SettleExecution(c, t, l, a.events, k, s.result.value);
    }
  }

  lemma MarkKeeps(c: Crypto, t: Text, l: Ledger, k: RetryKey, h: Text, now: int)
    requires LedgerInv(c, t, l)
    ensures var n := MarkIndeterminate(t, l, k, h, now).ledger; LedgerInv(c, t, n) && LedgerExtends(l, n)
  {
    hide ResolutionOk;
    hide ResolutionEvent;
    hide ValidIdentifier;
    hide EventHash;
    hide ChainOk;
    hide KeysUnique;
    var s := MarkIndeterminate(t, l, k, h, now);
    if s.ledger != l {
      assert ExecutionOk(l.events, k, l.executions[k]);
      SettleExecution(c, t, l, l.events, k, s.result.value);
      assert s.ledger == l.(events := l.events, executions := l.executions[k := s.result.value]);
    }
  }

  lemma ResolutionEventShape(c: Crypto, t: Text, i: ResolutionInput, e: Execution)
    ensures var event := ResolutionEvent(c, t, i, e);
      event.key == Some(ResolutionKey(c, t, i.target)) && event.principal == i.resolvedBy && event.phase == Outcome
  {
  }

  lemma BeginKeeps(c: Crypto, t: Text, l: Ledger, i: ResolutionInput, m: Mint, now: int)
    requires LedgerInv(c, t, l)
    ensures var n := BeginResolution(c, t, l, i, m, now).ledger; LedgerInv(c, t, n) && LedgerExtends(l, n)
  {
    hide ResolutionEvent;
    hide ValidResolutionInput;
    hide ValidInput;
    hide ChainOk;
    hide KeysUnique;
    hide ExecutionOk;
    hide EventsExtend;
    hide ResolutionKey;
    var s := BeginResolution(c, t, l, i, m, now);
    ExtendsItself(l);
    if s.ledger != l {
      var event := ResolutionEvent(c, t, i, l.executions[i.target]);
      AppendInKeeps(c, t, l.events, event, m);
      ExecutionsSurvive(c, t, l, s.ledger.events);
      ResolutionEventShape(c, t, i, l.executions[i.target]);
      assert ResolutionOk(c, t, s.ledger, i.target, s.ledger.resolutions[i.target]);
      forall k | k in s.ledger.resolutions ensures ResolutionOk(c, t, s.ledger, k, s.ledger.resolutions[k]) {
        if k != i.target { assert ResolutionOk(c, t, l.(events := s.ledger.events), k, l.resolutions[k]); }
      }
    }
  }

  lemma FinalizeKeeps(c: Crypto, t: Text, l: Ledger, i: ResolutionInput, w: bool)
    requires LedgerInv(c, t, l)
    ensures var n := FinalizeResolution(t, l, i, w).ledger; LedgerInv(c, t, n) && LedgerExtends(l, n)
  {
    hide ResolutionEvent;
    hide ValidResolutionInput;
    hide ChainOk;
    hide KeysUnique;
    hide ExecutionOk;
    hide EventsExtend;
    hide ResolutionKey;
    var n := FinalizeResolution(t, l, i, w).ledger;
    ExtendsItself(l);
    forall k | k in n.resolutions ensures ResolutionOk(c, t, n, k, n.resolutions[k]) {
      assert ResolutionOk(c, t, l, k, l.resolutions[k]);
    }
  }

  /** Attaching a signed receipt changes no link of the chain and no retry key. */
  lemma AttachLinks(c: Crypto, t: Text, events: seq<Record>, n: nat, r: Receipt)
    requires ChainOk(c, t, events) && KeysUnique(events) && n < |events|
    requires c.signed(r) && r.tenant == events[n].tenant && r.sequence == events[n].sequence && r.eventHash == events[n].eventHash
    ensures var after := events[n := events[n].(receipt := Some(r))]; ChainOk(c, t, after) && KeysUnique(after)
  {
    hide Preimage;
    var after := events[n := events[n].(receipt := Some(r))];
    forall j | 0 <= j < |after| ensures LinkOk(c, after, j) {
      assert LinkOk(c, events, j);
      HashIgnores(c, events[j]);
      HashIgnores(c, after[j]);
      assert Bare(after[j]) == Bare(events[j]);
    }
    forall a, b | 0 <= a < b < |after| ensures !SameRetryKey(after[a], after[b]) {
      assert !SameRetryKey(events[a], events[b]);
    }
  }

  lemma AttachKeeps(c: Crypto, t: Text, l: Ledger, r: Receipt)
    requires LedgerInv(c, t, l)
    ensures var n := AttachReceipt(c, l, r).ledger; LedgerInv(c, t, n) && LedgerExtends(l, n)
  {
    hide ResolutionEvent;
    hide Linked;
    hide KeysUnique;
    var n := AttachReceipt(c, l, r).ledger;
    if n != l {
      SequenceIsPosition(c, t, l.events, r.sequence - 1);
      AttachLinks(c, t, l.events, r.sequence - 1, r);
      ExecutionsSurvive(c, t, l, n.events);
      forall k | k in n.resolutions ensures ResolutionOk(c, t, n, k, n.resolutions[k]) {
        assert ResolutionOk(c, t, l.(events := n.events), k, l.resolutions[k]);
      }
    }
  }

  /** A change of the stream row alone touches no other table. */
  lemma StreamOnly(c: Crypto, t: Text, l: Ledger, stream: Option<StreamState>)
    requires LedgerInv(c, t, l)
    ensures LedgerInv(c, t, l.(stream := stream)) && LedgerExtends(l, l.(stream := stream))
  {
    hide ResolutionEvent;
    hide ValidIdentifier;
    hide EventHash;
    hide ChainOk;
    hide KeysUnique;
    var n := l.(stream := stream);
    forall k | k in n.resolutions ensures ResolutionOk(c, t, n, k, n.resolutions[k]) {
      assert ResolutionOk(c, t, l, k, l.resolutions[k]);
    }
  }

  lemma AppendKeeps(c: Crypto, t: Text, l: Ledger, i: EventInput, m: Mint)
    requires LedgerInv(c, t, l)
    ensures var n := Append(c, t, l, i, m).ledger; LedgerInv(c, t, n) && LedgerExtends(l, n)
  {
    hide ResolutionEvent;
    hide ValidIdentifier;
    hide EventHash;
    hide ChainOk;
    hide KeysUnique;
    var n := Append(c, t, l, i, m).ledger;
    if n != l {
      AppendInKeeps(c, t, l.events, i, m);
      ExecutionsSurvive(c, t, l, n.events);
      assert n == l.(events := n.events);
    }
  }

  /** Every transaction, by any caller, keeps the ledger coherent and only extends it. */
  lemma ApplyKeeps(c: Crypto, t: Text, l: Ledger, op: Op)
    requires LedgerInv(c, t, l)
    ensures LedgerInv(c, t, Apply(c, t, l, op)) && LedgerExtends(l, Apply(c, t, l, op))
  {
    hide LedgerInv;
    hide LedgerExtends;
    hide ValidIdentifier;
    hide EventHash;
    match op {
      case OpAppend(i, m) => AppendKeeps(c, t, l, i, m);
      case OpClaim(i, m) => ClaimKeeps(c, t, l, i, m);
      case OpComplete(i, r, m, now) => CompleteKeeps(c, t, l, i, r, m, now);
      case OpMark(k, h, now) => MarkKeeps(c, t, l, k, h, now);
      case OpBegin(i, m, now) => BeginKeeps(c, t, l, i, m, now);
      case OpFinalize(i, w) => FinalizeKeeps(c, t, l, i, w);
      case OpBlock(r, now) => StreamOnly(c, t, l, MarkAmbiguous(t, l, r, now).ledger.stream);
      case OpAttach(r) => AttachKeeps(c, t, l, r);
      case OpRecover(q, h, now) => StreamOnly(c, t, l, Recover(c, t, l, q, h, now).ledger.stream);
    }
  }

  lemma EmptyLedger(c: Crypto, t: Text)
    ensures LedgerInv(c, t, EMPTY) && LedgerExtends(EMPTY, EMPTY)
  {
  }

  lemma ExtendsItself(l: Ledger)
    ensures LedgerExtends(l, l)
  {
  }

  /**
   * Ledger coherence over every run: each reachable stream is contiguous from 1 and verifies with
   * exactly its length, retry keys are unique, executions and resolutions point at their own events,
   * and every earlier state survives inside every later one.
   */
  lemma {:induction false} ReachableLedger(c: Crypto, t: Text, ops: seq<Op>, j: nat)
    requires j <= |ops|
    ensures LedgerInv(c, t, Run(c, t, ops))
    ensures LedgerExtends(Run(c, t, ops[..j]), Run(c, t, ops))
    decreases |ops|
  {
    hide LedgerInv;
    hide LedgerExtends;
    hide Apply;
    if j == |ops| {
      assert ops[..j] == ops;
      ExtendsItself(Run(c, t, ops));
    }
    if ops == [] {
      EmptyLedger(c, t);
    } else {
      var n := |ops| - 1;
      ReachableLedger(c, t, ops[..n], if j <= n then j else 0);
      ApplyKeeps(c, t, Run(c, t, ops[..n]), ops[n]);
      if j <= n {
        assert ops[..n][..j] == ops[..j];
        ExtendsTransitive(Run(c, t, ops[..j]), Run(c, t, ops[..n]), Run(c, t, ops));
      }
    }
  }

  /** Every reachable stream verifies, and the verified count is its length. */
  lemma ReachableStreamVerifies(c: Crypto, t: Text, ops: seq<Op>)
    ensures VerifyFrom(c, Run(c, t, ops).events, 0) == Ok(|Run(c, t, ops).events|)
  {
    hide ResolutionEvent;
    ReachableLedger(c, t, ops, 0);
    VerifyAcceptsLinked(c, Run(c, t, ops).events, 0);
  }

  /** A concluded execution stays indeterminate through every later transaction, and its conclusion can only become final. */
  lemma ResolvedStaysIndeterminate(c: Crypto, t: Text, ops: seq<Op>, j: nat, k: RetryKey)
    requires j <= |ops| && k in Run(c, t, ops[..j]).resolutions
    ensures var l, n := Run(c, t, ops[..j]), Run(c, t, ops);
      && k in l.executions && k in n.executions && n.executions[k] == l.executions[k] && n.executions[k].state == Indeterminate
      && k in n.resolutions && ResolutionAdvances(l.resolutions[k], n.resolutions[k])
  {
    hide ResolutionEvent;
    ReachableLedger(c, t, ops, j);
    ReachableLedger(c, t, ops[..j], 0);
    assert ResolutionOk(c, t, Run(c, t, ops[..j]), k, Run(c, t, ops[..j]).resolutions[k]);
  }

  /** An identical retry returns the original event, with its receipt, and leaves the chain unchanged. */
  lemma RetryReturnsOriginal(c: Crypto, t: Text, l: Ledger, i: EventInput, m: Mint, l2: Ledger, m2: Mint)
    requires LedgerInv(c, t, l) && Append(c, t, l, i, m).result.Ok? && i.key.Some?
    requires LedgerInv(c, t, l2) && LedgerExtends(Append(c, t, l, i, m).ledger, l2) && !Blocked(l2)
    ensures var first := Append(c, t, l, i, m).result.value;
            var again := Append(c, t, l2, i, m2);
      && again.result.Ok? && again.ledger == l2 && EventExtends(first, again.result.value)
  {
    hide ResolutionEvent;
    hide ValidIdentifier;
    hide EventHash;
    var first := Append(c, t, l, i, m);
    AppendInKeeps(c, t, l.events, i, m);
    var p := first.result.value.sequence - 1;
    assert EventExtends(first.ledger.events[p], l2.events[p]);
    var found := FindKeyed(l2.events, i.principal, i.phase, i.key.value);
    assert Keyed(l2.events[p], i.principal, i.phase, i.key.value);
    assert SameRetryKey(l2.events[found.value], l2.events[p]);
    assert found.value == p;
  }

  /** While the stream is blocked no transaction of any caller makes the chain grow. */
  lemma BlockedChainCannotGrow(c: Crypto, t: Text, l: Ledger, op: Op)
    requires LedgerInv(c, t, l) && Blocked(l)
    ensures |Apply(c, t, l, op).events| == |l.events|
    ensures EventsExtend(l.events, Apply(c, t, l, op).events)
  {
    hide ResolutionEvent;
    hide LedgerInv;
    hide ValidIdentifier;
    hide EventHash;
    ApplyKeeps(c, t, l, op);
  }

  /**
   * The block clears only through recovery, and at that instant the whole chain verifies and its head
   * is the expected one under a valid receipt.
   */
  lemma BlockClearsOnlyOnVerifiedHead(c: Crypto, t: Text, l: Ledger, op: Op)
    requires Blocked(l) && !Blocked(Apply(c, t, l, op))
    ensures op.OpRecover? && l.events != [] && VerifyFrom(c, l.events, 0) == Ok(|l.events|) && Linked(c, l.events)
    ensures var head := l.events[|l.events| - 1];
      head.sequence == op.sequence && head.eventHash == op.eventHash && Witnessed(c, head)
    ensures Apply(c, t, l, op).events == l.events
  {
    hide ResolutionEvent;
    VerifyAcceptsLinked(c, l.events, 0);
    if !op.OpRecover? { BlockPersists(c, t, l, op); }
  }

  lemma BlockPersists(c: Crypto, t: Text, l: Ledger, op: Op)
    requires Blocked(l) && !op.OpRecover?
    ensures Blocked(Apply(c, t, l, op))
  {
    hide ResolutionEvent;
  }
}
