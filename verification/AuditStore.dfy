/** The synchronous audit store: every tenant's rows behind one lock (crates/henosis-audit/src/lib.rs). */
module AuditStorage {
  import opened Base
  import opened AuditChain
  import opened AuditLedger
  import opened AuditContracts

  class AuditStore {
    const crypto: Crypto
    var tenants: map<Text, Ledger>

    ghost predicate Valid()
      reads this
    {
      forall t :: t in tenants ==> LedgerInv(crypto, t, tenants[t])
    }

    function Rows(t: Text): Ledger
      reads this
    {
      if t in tenants then tenants[t] else EMPTY
    }

    constructor (crypto: Crypto)
      ensures Valid() && this.crypto == crypto && tenants == map[]
    {
      this.crypto := crypto;
      tenants := map[];
    }

    lemma RowsOk(t: Text)
      requires Valid()
      ensures LedgerInv(crypto, t, Rows(t))
    {
      EmptyLedger(crypto, t);
    }

    method Append(t: Text, input: EventInput, mint: Mint) returns (r: Result<Record, AuditError>)
      requires Valid()
      modifies this`tenants
      ensures Valid() && forall u :: u != t ==> Rows(u) == old(Rows(u))
      ensures Step(Rows(t), r) == AuditLedger.Append(crypto, t, old(Rows(t)), input, mint)
      ensures AppendContract(crypto, t, old(Rows(t)), input, mint, Rows(t), r)
    {
      hide AppendContract;
      hide LedgerInv;
      RowsOk(t);
      AppendKeeps(crypto, t, Rows(t), input, mint);
      AppendMeets(crypto, t, Rows(t), input, mint);
      if !ValidInput(t, input) { return Err(InvalidInput); }
      var rows := Rows(t);
      if Blocked(rows) { return Err(BlockError(rows)); }
      var appended := AppendIn(crypto, t, rows.events, input, mint);
      if appended.Err? { return Err(appended.error); }
      tenants := tenants[t := rows.(events := appended.value.events)];
      return Ok(appended.value.record);
    }

    method ClaimExecution(t: Text, intent: EventInput, mint: Mint) returns (r: Result<ExecutionClaim, AuditError>)
      requires Valid()
      modifies this`tenants
      ensures Valid() && forall u :: u != t ==> Rows(u) == old(Rows(u))
      ensures Step(Rows(t), r) == AuditLedger.ClaimExecution(crypto, t, old(Rows(t)), intent, mint)
      ensures ClaimContract(crypto, t, old(Rows(t)), intent, mint, Rows(t), r)
    {
      hide ClaimContract;
      hide LedgerInv;
      RowsOk(t);
      ClaimKeeps(crypto, t, Rows(t), intent, mint);
      ClaimMeets(crypto, t, Rows(t), intent, mint);
      if !ValidExecutionEvent(t, intent, Intent) { return Err(InvalidInput); }
      var rows, k := Rows(t), RetryKey(intent.principal, intent.key.value);
      if k in rows.executions {
        var existing := rows.executions[k];
        if existing.requestHash != intent.requestHash { return Err(IdempotencyConflict); }
        return Ok(Existing(existing));
      }
      if Blocked(rows) { return Err(BlockError(rows)); }
      var appended := AppendIn(crypto, t, rows.events, intent, mint);
      if appended.Err? { return Err(appended.error); }
      var record := appended.value.record;
      var claim := Execution(intent.requestHash, Claimed, None, record.sequence, record.createdAt, record.createdAt);
      tenants := tenants[t := rows.(events := appended.value.events, executions := rows.executions[k := claim])];
      return Ok(Acquired(claim));
    }

    method CompleteExecution(t: Text, outcome: EventInput, result: Text, mint: Mint, now: int)
      returns (r: Result<Execution, AuditError>)
      requires Valid()
      modifies this`tenants
      ensures Valid() && forall u :: u != t ==> Rows(u) == old(Rows(u))
      ensures Step(Rows(t), r) == AuditLedger.CompleteExecution(crypto, t, old(Rows(t)), outcome, result, mint, now)
      ensures CompleteContract(t, old(Rows(t)), outcome, result, now, Rows(t), r)
    {
      hide CompleteContract;
      hide LedgerInv;
      RowsOk(t);
      CompleteKeeps(crypto, t, Rows(t), outcome, result, mint, now);
      CompleteMeets(crypto, t, Rows(t), outcome, result, mint, now);
      if !ValidExecutionEvent(t, outcome, Outcome) || |result| > MAX_RESULT_BYTES { return Err(InvalidInput); }
      var rows, k := Rows(t), RetryKey(outcome.principal, outcome.key.value);
      if Blocked(rows) { return Err(BlockError(rows)); }
      if k !in rows.executions { return Err(ExecutionNotFound); }
      var existing := rows.executions[k];
      if existing.requestHash != outcome.requestHash { return Err(IdempotencyConflict); }
      match existing.state {
        case Completed =>
          if existing.result != Some(result) { return Err(ExecutionStateConflict); }
          return Ok(existing);
        case Indeterminate => return Err(ExecutionStateConflict);
        case Claimed =>
      }
      var appended := AppendIn(crypto, t, rows.events, outcome, mint);
      if appended.Err? { return Err(appended.error); }
      var settled := existing.(state := Completed, result := Some(result), updatedAt := now);
      tenants := tenants[t := rows.(events := appended.value.events, executions := rows.executions[k := settled])];
      return Ok(settled);
    }

    method MarkExecutionIndeterminate(t: Text, k: RetryKey, requestHash: Text, now: int)
      returns (r: Result<Execution, AuditError>)
      requires Valid()
      modifies this`tenants
      ensures Valid() && forall u :: u != t ==> Rows(u) == old(Rows(u))
      ensures Step(Rows(t), r) == MarkIndeterminate(t, old(Rows(t)), k, requestHash, now)
      ensures MarkContract(t, old(Rows(t)), k, requestHash, now, Rows(t), r)
    {
      hide MarkContract;
      hide LedgerInv;
      RowsOk(t);
      MarkKeeps(crypto, t, Rows(t), k, requestHash, now);
      MarkMeets(t, Rows(t), k, requestHash, now);
      if !ValidRetryKey(t, k) { return Err(InvalidInput); }
      var rows := Rows(t);
      if k !in rows.executions { return Err(ExecutionNotFound); }
      var existing := rows.executions[k];
      if existing.requestHash != requestHash { return Err(IdempotencyConflict); }
      match existing.state {
        case Completed => return Err(ExecutionStateConflict);
        case Indeterminate => return Ok(existing);
        case Claimed =>
      }
      var settled := existing.(state := Indeterminate, result := None, updatedAt := now);
      tenants := tenants[t := rows.(executions := rows.executions[k := settled])];
      return Ok(settled);
    }

    method BeginExecutionResolution(t: Text, input: ResolutionInput, mint: Mint, now: int)
      returns (r: Result<Reserved, AuditError>)
      requires Valid()
      modifies this`tenants
      ensures Valid() && forall u :: u != t ==> Rows(u) == old(Rows(u))
      ensures Step(Rows(t), r) == BeginResolution(crypto, t, old(Rows(t)), input, mint, now)
      ensures BeginContract(crypto, t, old(Rows(t)), input, now, Rows(t), r)
    {
      hide BeginContract;
      hide LedgerInv;
      hide ResolutionEvent;
      RowsOk(t);
      BeginKeeps(crypto, t, Rows(t), input, mint, now);
      BeginMeets(crypto, t, Rows(t), input, mint, now);
      if !ValidResolutionInput(t, input) { return Err(InvalidInput); }
      var rows := Rows(t);
      if input.target in rows.resolutions {
        var existing := rows.resolutions[input.target];
        if !SameConclusion(existing, input) { return Err(ExecutionStateConflict); }
        if !(1 <= existing.auditSequence <= |rows.events|) { return Err(ExecutionNotFound); }
        return Ok(Reserved(existing, rows.events[existing.auditSequence - 1]));
      }
      if Blocked(rows) { return Err(BlockError(rows)); }
      if input.target !in rows.executions { return Err(ExecutionNotFound); }
      var execution := rows.executions[input.target];
      if execution.state != Indeterminate { return Err(ExecutionStateConflict); }
      var event := ResolutionEvent(crypto, t, input, execution);
      if !ValidInput(t, event) { return Err(InvalidInput); }
      var appended := AppendIn(crypto, t, rows.events, event, mint);
      if appended.Err? { return Err(appended.error); }
      var record := appended.value.record;
      var reserved := Resolution(input.kind, input.evidence, input.resolvedBy, record.sequence, false, now);
      tenants := tenants[t := rows.(events := appended.value.events, resolutions := rows.resolutions[input.target := reserved])];
      return Ok(Reserved(reserved, record));
    }

    method FinalizeExecutionResolution(t: Text, input: ResolutionInput, requireWitness: bool)
      returns (r: Result<Resolution, AuditError>)
      requires Valid()
      modifies this`tenants
      ensures Valid() && forall u :: u != t ==> Rows(u) == old(Rows(u))
      ensures Step(Rows(t), r) == FinalizeResolution(t, old(Rows(t)), input, requireWitness)
      ensures FinalizeContract(t, old(Rows(t)), input, requireWitness, Rows(t), r)
    {
      hide FinalizeContract;
      hide LedgerInv;
      RowsOk(t);
      FinalizeKeeps(crypto, t, Rows(t), input, requireWitness);
      FinalizeMeets(t, Rows(t), input, requireWitness);
      if !ValidResolutionInput(t, input) { return Err(InvalidInput); }
      var rows := Rows(t);
      if input.target !in rows.resolutions { return Err(ExecutionNotFound); }
      var existing := rows.resolutions[input.target];
      if !SameConclusion(existing, input) { return Err(ExecutionStateConflict); }
      if existing.finalized { return Ok(existing); }
      if !(1 <= existing.auditSequence <= |rows.events|) { return Err(ExecutionNotFound); }
      if requireWitness && rows.events[existing.auditSequence - 1].receipt.None? { return Err(ExecutionStateConflict); }
      var final := existing.(finalized := true);
      tenants := tenants[t := rows.(resolutions := rows.resolutions[input.target := final])];
      return Ok(final);
    }

    method MarkStreamAmbiguous(t: Text, reason: Text, now: int) returns (r: Result<(), AuditError>)
      requires Valid()
      modifies this`tenants
      ensures Valid() && forall u :: u != t ==> Rows(u) == old(Rows(u))
      ensures Step(Rows(t), r) == MarkAmbiguous(t, old(Rows(t)), reason, now)
      ensures BlockContract(t, old(Rows(t)), reason, Rows(t), r)
    {
      hide BlockContract;
      BlockMeets(t, Rows(t), reason, now);
      hide LedgerInv;
      RowsOk(t);
      StreamOnly(crypto, t, Rows(t), Some(StreamState(true, Some(reason), now)));
      if !ValidIdentifier(t) || !ValidIdentifier(reason) { return Err(InvalidInput); }
      tenants := tenants[t := Rows(t).(stream := Some(StreamState(true, Some(reason), now)))];
      return Ok(());
    }

    /** The receipt itself names the tenant whose row it updates. */
    method AttachWitnessReceipt(receipt: Receipt) returns (r: Result<(), AuditError>)
      requires Valid()
      modifies this`tenants
      ensures Valid() && forall u :: u != receipt.tenant ==> Rows(u) == old(Rows(u))
      ensures Step(Rows(receipt.tenant), r) == AttachReceipt(crypto, old(Rows(receipt.tenant)), receipt)
      ensures AttachContract(crypto, old(Rows(receipt.tenant)), receipt, Rows(receipt.tenant), r)
    {
      hide AttachContract;
      AttachMeets(crypto, Rows(receipt.tenant), receipt);
      hide LedgerInv;
      RowsOk(receipt.tenant);
      AttachKeeps(crypto, receipt.tenant, Rows(receipt.tenant), receipt);
      if !crypto.signed(receipt) { return Err(InvalidSignature); }
      var rows := Rows(receipt.tenant);
      if !Attachable(rows, receipt) { return Err(ReceiptMismatch); }
      var n := receipt.sequence - 1;
      tenants := tenants[receipt.tenant := rows.(events := rows.events[n := rows.events[n].(receipt := Some(receipt))])];
      return Ok(());
    }

    method RecoverWitnessedStream(t: Text, sequence: nat, eventHash: Text, now: int) returns (r: Result<Recovery, AuditError>)
      requires Valid()
      modifies this`tenants
      ensures Valid() && forall u :: u != t ==> Rows(u) == old(Rows(u))
      ensures Step(Rows(t), r) == Recover(crypto, t, old(Rows(t)), sequence, eventHash, now)
      ensures RecoverContract(crypto, t, old(Rows(t)), sequence, eventHash, Rows(t), r)
    {
      hide RecoverContract;
      RecoverMeets(crypto, t, Rows(t), sequence, eventHash, now);
      hide LedgerInv;
      hide Linked;
      RowsOk(t);
      StreamOnly(crypto, t, Rows(t), Some(StreamState(false, None, now)));
      if !ValidIdentifier(t) || !ValidIdentifier(crypto.keyId) { return Err(InvalidInput); }
      var rows := Rows(t);
      var verified := VerifyTenantIn(crypto, rows.events);
      if verified.Err? { return Err(verified.error); }
      if rows.events == [] { return Err(InvalidInput); }
      var head := rows.events[|rows.events| - 1];
      if head.sequence != sequence || head.eventHash != eventHash { return Err(ReceiptMismatch); }
      if head.receipt.None? { return Err(ReceiptMismatch); }
      var check := ReceiptCheck(crypto, head, head.receipt.value);
      if check.Err? { return Err(check.error); }
      if rows.stream.None? { return Err(InvalidInput); }
      if rows.stream.value.blocked {
        tenants := tenants[t := rows.(stream := Some(StreamState(false, None, now)))];
      }
      return Ok(Recovery(verified.value, head.sequence));
    }

    /** `verify_tenant`: every reachable stream verifies with exactly its length. */
    method VerifyTenant(t: Text) returns (r: Result<nat, AuditError>)
      requires Valid()
      ensures r == if ValidIdentifier(t) then Ok(|Rows(t).events|) else Err(InvalidInput)
    {
      if !ValidIdentifier(t) { return Err(InvalidInput); }
      RowsOk(t);
      VerifyAcceptsLinked(crypto, Rows(t).events, 0);
      r := VerifyTenantIn(crypto, Rows(t).events);
    }
  }
}
