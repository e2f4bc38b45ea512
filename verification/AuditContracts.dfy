/**
 * What a caller of the audit store may rely on: for each transaction, the exact cases in which it succeeds and
 * what it then left in the rows (crates/henosis-audit/src/lib.rs).
 */
module AuditContracts {
  import opened Base
  import opened AuditChain
  import opened AuditLedger
  import opened ResolutionRecord

  // ----- inputs and the block ------------------------------------------------------------------------------

  ghost predicate GoodInput(t: Text, i: EventInput) {
    ValidIdentifier(t) && ValidIdentifier(i.principal) && ValidIdentifier(i.action) && (i.key.Some? ==> ValidIdentifier(i.key.value))
  }

  ghost predicate GoodEvent(t: Text, i: EventInput, phase: Phase) {
    GoodInput(t, i) && i.phase == phase && i.key.Some?
  }

  ghost predicate GoodKey(t: Text, k: RetryKey) {
    ValidIdentifier(t) && ValidIdentifier(k.principal) && ValidIdentifier(k.key)
  }

  /** The evidence is a SHA-256 digest in lower-case hex. */
  ghost predicate GoodConclusion(t: Text, i: ResolutionInput) {
    && GoodKey(t, i.target) && ValidIdentifier(i.resolvedBy)
    && |i.evidence| == 64 && forall k :: 0 <= k < 64 ==> 0x30 <= i.evidence[k] <= 0x39 || 0x61 <= i.evidence[k] <= 0x66
  }

  lemma GoodMeans(t: Text, i: EventInput, phase: Phase, k: RetryKey, x: ResolutionInput)
    ensures ValidInput(t, i) <==> GoodInput(t, i)
    ensures ValidExecutionEvent(t, i, phase) <==> GoodEvent(t, i, phase)
    ensures ValidRetryKey(t, k) <==> GoodKey(t, k)
    ensures ValidResolutionInput(t, x) <==> GoodConclusion(t, x)
  {
    hide ValidIdentifier;
  }

  /** Writers of a blocked stream are told its reason. */
  ghost predicate RefusedAsBlocked(l: Ledger, e: AuditError) {
    && l.stream.Some? && l.stream.value.blocked
    && e == StreamBlocked(if l.stream.value.reason.Some? then l.stream.value.reason.value else Ascii("ambiguous_completion"))
  }

  // ----- append ------------------------------------------------------------------------------------------

  /** The stream already holds an event with the input's retry key. */
  ghost predicate Recorded(l: Ledger, i: EventInput) {
    i.key.Some? && exists e :: e in l.events && e.principal == i.principal && e.phase == i.phase && e.key == i.key
  }

  /** It holds one that says something else. */
  ghost predicate Contradicted(l: Ledger, i: EventInput) {
    && i.key.Some?
    && exists e :: e in l.events && e.principal == i.principal && e.phase == i.phase && e.key == i.key
         && !(e.action == i.action && e.requestHash == i.requestHash && e.payload == i.payload)
  }

  /** The record is in the stream, says what was asked, and is new exactly when its retry key was. */
  ghost predicate Written(l: Ledger, events: seq<Record>, i: EventInput, r: Record) {
    && r in events && r.principal == i.principal && r.action == i.action && r.phase == i.phase
    && r.requestHash == i.requestHash && r.payload == i.payload && r.key == i.key
    && 1 <= r.sequence <= |events| && events[r.sequence - 1] == r
    && events == if Recorded(l, i) then l.events else l.events + [r]
  }

  /** A new record continues the chain with the drawn identifier and the time, and has no receipt yet. */
  ghost predicate Chained(c: Crypto, t: Text, l: Ledger, m: Mint, r: Record) {
    && r.tenant == t && r.sequence == |l.events| + 1 && r.eventId == m.eventId && r.createdAt == m.now && r.receipt == None
    && r.previousHash == (if l.events == [] then GENESIS_HASH else l.events[|l.events| - 1].eventHash)
    && r.eventHash == c.digest(Preimage(r))
  }

  /**
   * An append succeeds exactly on a valid input, an open stream and no contradicting event; a retry returns the
   * recorded event and writes nothing, a new event goes to the end of the chain, a failure writes nothing.
   */
  ghost predicate AppendContract(c: Crypto, t: Text, l: Ledger, i: EventInput, m: Mint, n: Ledger, r: Result<Record, AuditError>) {
    && (r.Ok? <==> GoodInput(t, i) && !Blocked(l) && !Contradicted(l, i))
    && (r.Err? ==> n == l && (r.error == InvalidInput || RefusedAsBlocked(l, r.error) || r.error == IdempotencyConflict))
    && (r == Err(InvalidInput) <==> !GoodInput(t, i))
    && (GoodInput(t, i) && Blocked(l) ==> r.Err? && RefusedAsBlocked(l, r.error))
    && (r.Ok? ==> n == l.(events := n.events) && Written(l, n.events, i, r.value) && (!Recorded(l, i) ==> Chained(c, t, l, m, r.value)))
  }

  lemma KeyHolderIsUnique(events: seq<Record>, i: EventInput)
    requires KeysUnique(events) && i.key.Some? && exists e :: e in events && Keyed(e, i.principal, i.phase, i.key.value)
    ensures var found := FindKeyed(events, i.principal, i.phase, i.key.value);
      found.Some? && forall e :: e in events && Keyed(e, i.principal, i.phase, i.key.value) ==> e == events[found.value]
  {
    var found := FindKeyed(events, i.principal, i.phase, i.key.value);
    forall e | e in events && Keyed(e, i.principal, i.phase, i.key.value) ensures found.Some? && e == events[found.value] {
      var j :| 0 <= j < |events| && events[j] == e;
      assert j < found.value ==> SameRetryKey(events[j], events[found.value]);
      assert found.value < j ==> SameRetryKey(events[found.value], events[j]);
    }
  }

  lemma AppendInMeets(c: Crypto, t: Text, l: Ledger, i: EventInput, m: Mint)
    requires ChainOk(c, t, l.events) && KeysUnique(l.events)
    ensures var a := AppendIn(c, t, l.events, i, m);
      && (a.Ok? <==> !Contradicted(l, i)) && (a.Err? ==> a.error == IdempotencyConflict)
      && (a.Ok? ==> Written(l, a.value.events, i, a.value.record))
      && (a.Ok? && !Recorded(l, i) ==> Chained(c, t, l, m, a.value.record))
  {
    var a := AppendIn(c, t, l.events, i, m);
    if a.Ok? { AppendInKeeps(c, t, l.events, i, m); }
    if Recorded(l, i) {
      KeyHolder(l.events, i);
      hide KeysUnique;
      hide ChainOk;
      hide EventHash;
      var found := FindKeyed(l.events, i.principal, i.phase, i.key.value);
      assert l.events[found.value] in l.events;
    } else {
      NotRecorded(l, i);
      NewRecordChained(c, t, l, i, m);
      hide EventHash;
      hide ChainOk;
      hide KeysUnique;
    }
  }

  lemma NotRecorded(l: Ledger, i: EventInput)
    requires !Recorded(l, i)
    ensures i.key.Some? ==> FindKeyed(l.events, i.principal, i.phase, i.key.value).None?
    ensures !Contradicted(l, i)
  {
    if i.key.Some? && FindKeyed(l.events, i.principal, i.phase, i.key.value).Some? { FoundIsRecorded(l, i); }
  }

  lemma FoundIsRecorded(l: Ledger, i: EventInput)
    requires i.key.Some? && FindKeyed(l.events, i.principal, i.phase, i.key.value).Some?
    ensures Recorded(l, i)
  {
    assert l.events[FindKeyed(l.events, i.principal, i.phase, i.key.value).value] in l.events;
  }

  lemma KeyHolder(events: seq<Record>, i: EventInput)
    requires KeysUnique(events) && i.key.Some? && exists e :: e in events && e.principal == i.principal && e.phase == i.phase && e.key == i.key
    ensures var found := FindKeyed(events, i.principal, i.phase, i.key.value);
      found.Some? && forall e :: e in events && e.principal == i.principal && e.phase == i.phase && e.key == i.key ==> e == events[found.value]
  {
    var e :| e in events && e.principal == i.principal && e.phase == i.phase && e.key == i.key;
    assert Keyed(e, i.principal, i.phase, i.key.value);
    KeyHolderIsUnique(events, i);
    forall e | e in events && e.principal == i.principal && e.phase == i.phase && e.key == i.key
      ensures e == events[FindKeyed(events, i.principal, i.phase, i.key.value).value]
    {
      assert Keyed(e, i.principal, i.phase, i.key.value);
    }
  }

  lemma NewRecordChained(c: Crypto, t: Text, l: Ledger, i: EventInput, m: Mint)
    requires ChainOk(c, t, l.events)
    ensures Chained(c, t, l, m, NewRecord(c, t, l.events, i, m))
  {
    NewRecordLinks(c, t, l.events, i, m);
    var r := NewRecord(c, t, l.events, i, m);
    assert LinkOk(c, l.events + [r], |l.events|);
    hide Preimage;
    hide LinkOk;
  }

  lemma AppendMeets(c: Crypto, t: Text, l: Ledger, i: EventInput, m: Mint)
    requires LedgerInv(c, t, l)
    ensures var s := Append(c, t, l, i, m); AppendContract(c, t, l, i, m, s.ledger, s.result)
  {
    GoodMeans(t, i, Intent, RetryKey([], []), ResolutionInput(RetryKey([], []), [], Executed, []));
    hide GoodInput;
    hide ValidInput;
    hide AppendIn;
    hide Contradicted;
    hide Written;
    hide Chained;
    hide Recorded;
    AppendInMeets(c, t, l, i, m);
  }

  // ----- executions --------------------------------------------------------------------------------------

  /**
   * A first claim of a key acquires it, unless the stream is blocked or the intent contradicts a recorded one; it
   * writes the claimed row and its intent together. A repeated claim reports the stored row, a changed request is
   * refused, and neither writes anything.
   */
  ghost predicate ClaimContract(c: Crypto, t: Text, l: Ledger, i: EventInput, m: Mint, n: Ledger, r: Result<ExecutionClaim, AuditError>) {
    if !GoodEvent(t, i, Intent) then r == Err(InvalidInput) && n == l
    else if KeyOf(i) in l.executions then
      var stored := l.executions[KeyOf(i)];
      n == l && r == if stored.requestHash == i.requestHash then Ok(Existing(stored)) else Err(IdempotencyConflict)
    else
      && (r.Ok? <==> !Blocked(l) && !Contradicted(l, i))
      && (r.Err? ==> n == l && (if Blocked(l) then RefusedAsBlocked(l, r.error) else r.error == IdempotencyConflict))
      && (r.Ok? ==>
            && r.value.Acquired? && r.value.execution.state == Claimed && r.value.execution.requestHash == i.requestHash
            && r.value.execution.result == None
            && n == l.(events := n.events, executions := l.executions[KeyOf(i) := r.value.execution])
            && 1 <= r.value.execution.intentSequence <= |n.events|
            && Written(l, n.events, i, n.events[r.value.execution.intentSequence - 1])
            && r.value.execution.claimedAt == n.events[r.value.execution.intentSequence - 1].createdAt
            && (!Recorded(l, i) ==> Chained(c, t, l, m, n.events[r.value.execution.intentSequence - 1])))
  }

  lemma ClaimMeets(c: Crypto, t: Text, l: Ledger, i: EventInput, m: Mint)
    requires LedgerInv(c, t, l)
    ensures var s := ClaimExecution(c, t, l, i, m); ClaimContract(c, t, l, i, m, s.ledger, s.result)
  {
    GoodMeans(t, i, Intent, RetryKey([], []), ResolutionInput(RetryKey([], []), [], Executed, []));
    hide GoodInput;
    hide ValidInput;
    hide AppendIn;
    hide Contradicted;
    hide Recorded;
    hide Chained;
    hide ExecutionOk;
    hide ResolutionOk;
    AppendInMeets(c, t, l, i, m);
  }

  /** The stored row that an outcome is about. */
  ghost predicate Settleable(t: Text, l: Ledger, i: EventInput) {
    && GoodEvent(t, i, Outcome) && !Blocked(l)
    && KeyOf(i) in l.executions && l.executions[KeyOf(i)].requestHash == i.requestHash
  }

  /**
   * Only a claimed row completes, together with its outcome event; a completed row is replayed for the same result
   * and refused for another; an indeterminate row never completes. A result has at most a mebibyte, and a failure
   * writes nothing.
   */
  ghost predicate CompleteContract(t: Text, l: Ledger, i: EventInput, result: Text, now: int, n: Ledger, r: Result<Execution, AuditError>) {
    && (r.Err? ==> n == l)
    && (r.Ok? ==> Settleable(t, l, i) && r.value.state == Completed && r.value.result == Some(result))
    && (r == Err(InvalidInput) <==> !GoodEvent(t, i, Outcome) || |result| > 1_048_576)
    && (GoodEvent(t, i, Outcome) && |result| <= 1_048_576 && Blocked(l) ==> r.Err? && RefusedAsBlocked(l, r.error))
    && (GoodEvent(t, i, Outcome) && |result| <= 1_048_576 && !Blocked(l) && KeyOf(i) !in l.executions ==> r == Err(ExecutionNotFound))
    && (Settleable(t, l, i) && |result| <= 1_048_576 ==>
          var stored := l.executions[KeyOf(i)];
          match stored.state
          case Indeterminate => r == Err(ExecutionStateConflict)
          case Completed => n == l && r == if stored.result == Some(result) then Ok(stored) else Err(ExecutionStateConflict)
          case Claimed =>
            if Contradicted(l, i) then r == Err(IdempotencyConflict)
            else
              && r == Ok(stored.(state := Completed, result := Some(result), updatedAt := now))
              && n == l.(events := n.events, executions := l.executions[KeyOf(i) := r.value])
              && exists e :: Written(l, n.events, i, e))
  }

  lemma CompleteMeets(c: Crypto, t: Text, l: Ledger, i: EventInput, result: Text, m: Mint, now: int)
    requires LedgerInv(c, t, l)
    ensures var s := CompleteExecution(c, t, l, i, result, m, now); CompleteContract(t, l, i, result, now, s.ledger, s.result)
  {
    GoodMeans(t, i, Outcome, RetryKey([], []), ResolutionInput(RetryKey([], []), [], Executed, []));
    hide GoodInput;
    hide ValidInput;
    hide AppendIn;
    hide Contradicted;
    hide Written;
    hide ExecutionOk;
    hide ResolutionOk;
    AppendInMeets(c, t, l, i, m);
  }

  /** A row becomes indeterminate exactly when it is not completed; repeating changes nothing. */
  ghost predicate MarkContract(t: Text, l: Ledger, k: RetryKey, requestHash: Text, now: int, n: Ledger, r: Result<Execution, AuditError>) {
    if !GoodKey(t, k) then r == Err(InvalidInput) && n == l
    else if k !in l.executions then r == Err(ExecutionNotFound) && n == l
    else if l.executions[k].requestHash != requestHash then r == Err(IdempotencyConflict) && n == l
    else
      match l.executions[k].state
      case Completed => r == Err(ExecutionStateConflict) && n == l
      case Indeterminate => r == Ok(l.executions[k]) && n == l
      case Claimed =>
        && r == Ok(l.executions[k].(state := Indeterminate, result := None, updatedAt := now))
        && n == l.(executions := l.executions[k := r.value])
  }

  lemma MarkMeets(t: Text, l: Ledger, k: RetryKey, requestHash: Text, now: int)
    ensures var s := MarkIndeterminate(t, l, k, requestHash, now); MarkContract(t, l, k, requestHash, now, s.ledger, s.result)
  {
    GoodMeans(t, EventInput([], [], Intent, [], [], None), Intent, k, ResolutionInput(k, [], Executed, []));
    hide ValidRetryKey;
    hide GoodKey;
  }

  // ----- resolutions -------------------------------------------------------------------------------------

  /**
   * A reservation stands for the given conclusion about an indeterminate execution, next to the event that records
   * it. An existing conclusion is returned as it is, and a different one is refused.
   */
  ghost predicate BeginContract(c: Crypto, t: Text, l: Ledger, i: ResolutionInput, now: int, n: Ledger, r: Result<Reserved, AuditError>) {
    && (r.Err? ==> n == l)
    && (!GoodConclusion(t, i) ==> r == Err(InvalidInput))
    && (r.Ok? ==>
          && i.target in n.resolutions && n.resolutions[i.target] == r.value.resolution && Conclusion(i.target, r.value.resolution) == i
          && n == l.(events := n.events, resolutions := l.resolutions[i.target := r.value.resolution])
          && i.target in n.executions && n.executions[i.target].state == Indeterminate
          && 1 <= r.value.resolution.auditSequence <= |n.events| && n.events[r.value.resolution.auditSequence - 1] == r.value.record
          && StatesConclusion(c, r.value.record, i, n.executions[i.target]))
    && (GoodConclusion(t, i) && i.target in l.resolutions ==>
          && n == l
          && (if Conclusion(i.target, l.resolutions[i.target]) == i then r.Ok? && r.value.resolution == l.resolutions[i.target]
              else r == Err(ExecutionStateConflict)))
    && (GoodConclusion(t, i) && i.target !in l.resolutions ==>
          && (Blocked(l) ==> r.Err? && RefusedAsBlocked(l, r.error))
          && (!Blocked(l) && i.target !in l.executions ==> r == Err(ExecutionNotFound))
          && (!Blocked(l) && i.target in l.executions && l.executions[i.target].state != Indeterminate ==> r == Err(ExecutionStateConflict))
          && (r.Ok? ==> !r.value.resolution.finalized && r.value.resolution.resolvedAt == now))
  }

  lemma BeginMeets(c: Crypto, t: Text, l: Ledger, i: ResolutionInput, m: Mint, now: int)
    requires LedgerInv(c, t, l)
    ensures var s := BeginResolution(c, t, l, i, m, now); BeginContract(c, t, l, i, now, s.ledger, s.result)
  {
    GoodMeans(t, EventInput([], [], Intent, [], [], None), Intent, i.target, i);
    hide GoodConclusion;
    hide ResolutionEvent;
    hide ResolutionKey;
    hide ValidResolutionInput;
    hide ValidInput;
    hide ExecutionOk;
    hide AppendIn;
    hide ChainOk;
    hide KeysUnique;
    hide StatesConclusion;
    if i.target in l.resolutions {
      var x := l.resolutions[i.target];
      assert ResolutionOk(c, t, l, i.target, x);
      EventStatesConclusion(c, t, l.events[x.auditSequence - 1], Conclusion(i.target, x), l.executions[i.target]);
      assert l.resolutions[i.target := x] == l.resolutions;
    } else if i.target in l.executions {
      hide ResolutionOk;
      hide Recorded;
      hide Chained;
      hide Contradicted;
      var event := ResolutionEvent(c, t, i, l.executions[i.target]);
      AppendInMeets(c, t, l, event, m);
      var a := AppendIn(c, t, l.events, event, m);
      if a.Ok? { EventStatesConclusion(c, t, a.value.record, i, l.executions[i.target]); }
    }
  }

  /**
   * A conclusion becomes final exactly when it is the reserved one and, where a witness is required, its event has
   * a receipt; nothing else changes.
   */
  ghost predicate FinalizeContract(t: Text, l: Ledger, i: ResolutionInput, requireWitness: bool, n: Ledger, r: Result<Resolution, AuditError>) {
    && (r.Err? ==> n == l)
    && (!GoodConclusion(t, i) ==> r == Err(InvalidInput))
    && (GoodConclusion(t, i) && i.target !in l.resolutions ==> r == Err(ExecutionNotFound))
    && (r.Ok? <==>
          && GoodConclusion(t, i) && i.target in l.resolutions
          && var x := l.resolutions[i.target];
             && Conclusion(i.target, x) == i
             && (x.finalized || (1 <= x.auditSequence <= |l.events| && (requireWitness ==> l.events[x.auditSequence - 1].receipt.Some?))))
    && (r.Ok? ==> r.value == l.resolutions[i.target].(finalized := true) && n == l.(resolutions := l.resolutions[i.target := r.value]))
  }

  lemma FinalizeMeets(t: Text, l: Ledger, i: ResolutionInput, requireWitness: bool)
    ensures var s := FinalizeResolution(t, l, i, requireWitness); FinalizeContract(t, l, i, requireWitness, s.ledger, s.result)
  {
    GoodMeans(t, EventInput([], [], Intent, [], [], None), Intent, i.target, i);
    hide GoodConclusion;
    hide ValidResolutionInput;
    if i.target in l.resolutions { assert l.resolutions[i.target := l.resolutions[i.target]] == l.resolutions; }
  }

  // ----- stream block and receipts -----------------------------------------------------------------------

  /** The stream is blocked with the given reason; no event, execution or resolution changes. */
  ghost predicate BlockContract(t: Text, l: Ledger, reason: Text, n: Ledger, r: Result<(), AuditError>) {
    && (r.Ok? <==> ValidIdentifier(t) && ValidIdentifier(reason))
    && (r.Err? ==> n == l)
    && (r.Err? ==> r.error == InvalidInput)
    && (r.Ok? ==> n == l.(stream := n.stream) && RefusedAsBlocked(n, StreamBlocked(reason)))
  }

  lemma BlockMeets(t: Text, l: Ledger, reason: Text, now: int)
    ensures var s := MarkAmbiguous(t, l, reason, now); BlockContract(t, l, reason, s.ledger, s.result)
  {
    hide ValidIdentifier;
  }

  /** Only the event the receipt names changes, only in its receipt, and only if it had no other one. */
  ghost predicate AttachContract(c: Crypto, l: Ledger, x: Receipt, n: Ledger, r: Result<(), AuditError>) {
    && (r.Err? ==> n == l)
    && (r.Ok? <==>
          && c.signed(x) && 1 <= x.sequence <= |l.events|
          && var e := l.events[x.sequence - 1];
             e.tenant == x.tenant && e.eventHash == x.eventHash && (e.receipt.None? || e.receipt == Some(x)))
    && (r.Ok? ==>
          && n == l.(events := n.events) && |n.events| == |l.events| && n.events[x.sequence - 1].receipt == Some(x)
          && (forall i :: 0 <= i < |l.events| ==> EventExtends(l.events[i], n.events[i]))
          && (forall i :: 0 <= i < |l.events| && i != x.sequence - 1 ==> n.events[i] == l.events[i]))
  }

  lemma AttachMeets(c: Crypto, l: Ledger, x: Receipt)
    ensures var s := AttachReceipt(c, l, x); AttachContract(c, l, x, s.ledger, s.result)
  {
  }

  /**
   * Recovery succeeds exactly on a stream that was blocked before, verifies as a whole, and has the expected head
   * under a valid receipt; afterwards it is open and nothing else has changed.
   */
  ghost predicate RecoverContract(c: Crypto, t: Text, l: Ledger, sequence: nat, eventHash: Text, n: Ledger, r: Result<Recovery, AuditError>) {
    && (r.Err? ==> n == l)
    && (r.Ok? <==>
          && ValidIdentifier(t) && ValidIdentifier(c.keyId) && Linked(c, l.events) && l.events != [] && l.stream.Some?
          && var head := l.events[|l.events| - 1];
             && head.sequence == sequence && head.eventHash == eventHash && head.receipt.Some?
             && var w := head.receipt.value;
                w.tenant == head.tenant && w.sequence == head.sequence && w.eventHash == head.eventHash && w.keyId == c.keyId && c.signed(w))
    && (r.Ok? ==> !Blocked(n) && n == l.(stream := n.stream) && r.value == Recovery(|l.events|, sequence))
  }

  lemma RecoverMeets(c: Crypto, t: Text, l: Ledger, sequence: nat, eventHash: Text, now: int)
    ensures var s := Recover(c, t, l, sequence, eventHash, now); RecoverContract(c, t, l, sequence, eventHash, s.ledger, s.result)
  {
    hide ValidIdentifier;
    VerifyAcceptsLinked(c, l.events, 0);
    hide Linked;
    hide VerifyFrom;
  }
}
