/**
 * The witnessed callers of one tenant's stream (`WitnessedAudit`, crates/henosis-audit/src/lib.rs).
 * A call is split at every point where it releases the store lock or waits for the witness, and any
 * number of calls interleave with each other and with direct store callers.
 */
module WitnessProtocol {
  import opened Base
  import opened AuditChain
  import opened AuditLedger
  import opened AuditContracts
  import opened ResolutionRecord

  datatype Job =
    | AppendJob(input: EventInput)
    | ClaimJob(input: EventInput)
    | CompleteJob(input: EventInput, result: Text)
    | ResolveJob(conclusion: ResolutionInput)
    | RecoverJob

  /** Where a call stands. `Commit(None)` is a commit that needed no witness round. */
  datatype Stage =
    | Begin
    | Load
    | Witness(record: Record)
    | Attach(record: Record, receipt: Receipt)
    | Check(record: Record)
    | Commit(witnessed: Option<Record>)

  datatype Call = Call(job: Job, stage: Stage)

  /** A failed witness request, or a failed store transaction. */
  datatype Failure = Transport | Store(error: AuditError)

  datatype Reply =
    | AppendDone(record: Record)
    | Claim(claim: ExecutionClaim)
    | Complete(execution: Execution)
    | Resolve(resolution: Resolution)
    | Recovered(recovery: Recovery)
    | Failed(failure: Failure)

  datatype Returned = Returned(job: Job, reply: Reply)

  /** The rows, the calls under way, the replies given, and the keys that direct calls settled without a witness. */
  datatype System = System(ledger: Ledger, calls: map<nat, Call>, log: seq<Returned>, raw: set<RetryKey>)

  const START: System := System(EMPTY, map[], [], {})

  /** What the environment decides for one step: the witness's answer, and minted values. */
  datatype Env = Env(answer: Option<Receipt>, mint: Mint, now: int)

  datatype Action =
    | Start(id: nat, job: Job)
    | Advance(id: nat, env: Env)
    | Direct(op: Op)

  /** The store's own entry points that need no witness; recovery is reachable through a witnessed call only. */
  predicate DirectAllowed(op: Op) {
    !op.OpRecover?
  }

  /** The direct operations that settle nothing. */
  predicate Harmless(op: Op) {
    op.OpAppend? || op.OpMark? || op.OpBegin? || op.OpBlock? || op.OpAttach?
  }

  /** The key that a direct claim, completion or conclusion settles. */
  function Settles(op: Op): set<RetryKey> {
    match op
    case OpClaim(i, _) => if i.key.Some? then {KeyOf(i)} else {}
    case OpComplete(i, _, _, _) => if i.key.Some? then {KeyOf(i)} else {}
    case OpFinalize(i, _) => {i.target}
    case _ => {}
  }

  /** One step of a call: the new rows, and either the next stage or the reply. */
  datatype Progress = Progress(ledger: Ledger, next: Result<Stage, Reply>)

  function Fail(l: Ledger, e: AuditError): Progress {
    Progress(l, Err(Failed(Store(e))))
  }

  function BeginStep(c: Crypto, t: Text, l: Ledger, job: Job, env: Env): Progress {
    match job
    case AppendJob(_) => Progress(l, Ok(Load))
    case ClaimJob(i) =>
      if !ValidExecutionEvent(t, i, Intent) then Fail(l, InvalidInput)
      else if KeyOf(i) in l.executions then Progress(l, Ok(Commit(None)))
      else Progress(l, Ok(Load))
    case CompleteJob(i, _) =>
      if !ValidExecutionEvent(t, i, Outcome) then Fail(l, InvalidInput)
      else if KeyOf(i) !in l.executions then Fail(l, ExecutionNotFound)
      else if l.executions[KeyOf(i)].requestHash != i.requestHash then Fail(l, IdempotencyConflict)
      else if l.executions[KeyOf(i)].state != Claimed then Progress(l, Ok(Commit(None)))
      else Progress(l, Ok(Load))
    case ResolveJob(i) =>
      var s := BeginResolution(c, t, l, i, env.mint, env.now);
      (match s.result
       case Err(e) => Fail(s.ledger, e)
       case Ok(r) => Progress(s.ledger, Ok(if r.resolution.finalized then Commit(None) else Witness(r.record))))
    case RecoverJob =>
      if !ValidIdentifier(t) || l.stream.None? then Fail(l, InvalidInput) else Progress(l, Ok(Load))
  }

  function LoadStep(c: Crypto, t: Text, l: Ledger, job: Job, env: Env): Progress {
    match job
    case AppendJob(i) => AppendStep(Append(c, t, l, i, env.mint))
    case ClaimJob(i) => AppendStep(Append(c, t, l, i, env.mint))
    case CompleteJob(i, _) => AppendStep(Append(c, t, l, i, env.mint))
    case ResolveJob(_) => Fail(l, InvalidInput)
    case RecoverJob =>
      if l.events == [] then Fail(l, InvalidInput) else Progress(l, Ok(Witness(l.events[|l.events| - 1])))
  }

  function AppendStep(s: Step<Record>): Progress {
    match s.result
    case Err(e) => Fail(s.ledger, e)
    case Ok(r) => Progress(s.ledger, Ok(Witness(r)))
  }

  /** `witness_record` up to the answer: an already witnessed row is only re-verified. */
  function WitnessStep(c: Crypto, l: Ledger, r: Record, answer: Option<Receipt>): Progress {
    if r.receipt.Some? then
      match ReceiptCheck(c, r, r.receipt.value)
      case Err(e) => Fail(l, e)
      case Ok(_) => Progress(l, Ok(Commit(Some(r))))
    else if answer.None? then Progress(l, Err(Failed(Transport)))
    else
      match ReceiptCheck(c, r, answer.value)
      case Err(e) => Fail(l, e)
      case Ok(_) => Progress(l, Ok(Attach(r, answer.value)))
  }

  function AttachStep(c: Crypto, l: Ledger, r: Record, receipt: Receipt): Progress {
    var s := AttachReceipt(c, l, receipt);
    match s.result
    case Err(e) => Fail(s.ledger, e)
    case Ok(_) => Progress(s.ledger, Ok(Check(r)))
  }

  function CheckStep(c: Crypto, l: Ledger, r: Record): Progress {
    if !(1 <= r.sequence <= |l.events|) || l.events[r.sequence - 1].receipt.None? then Fail(l, ReceiptMismatch)
    else
      var row := l.events[r.sequence - 1];
      match ReceiptCheck(c, row, row.receipt.value)
      case Err(e) => Fail(l, e)
      case Ok(_) => Progress(l, Ok(Commit(Some(row))))
  }

  function Finish<T>(s: Step<T>, wrap: T -> Reply): Progress {
    Progress(s.ledger, Err(match s.result case Err(e) => Failed(Store(e)) case Ok(v) => wrap(v)))
  }

  function CommitStep(c: Crypto, t: Text, l: Ledger, job: Job, row: Option<Record>, env: Env): Progress {
    match job
    case AppendJob(_) => if row.None? then Fail(l, InvalidInput) else Progress(l, Err(AppendDone(row.value)))
    case ClaimJob(i) => Finish(ClaimExecution(c, t, l, i, env.mint), x => Claim(x))
    case CompleteJob(i, result) => Finish(CompleteExecution(c, t, l, i, result, env.mint, env.now), x => Complete(x))
    case ResolveJob(i) => Finish(FinalizeResolution(t, l, i, true), x => Resolve(x))
    case RecoverJob =>
      if row.None? then Fail(l, InvalidInput)
      else Finish(Recover(c, t, l, row.value.sequence, row.value.eventHash, env.now), x => Recovered(x))
  }

  function CallStep(c: Crypto, t: Text, l: Ledger, call: Call, env: Env): Progress {
    match call.stage
    case Begin => BeginStep(c, t, l, call.job, env)
    case Load => LoadStep(c, t, l, call.job, env)
    case Witness(r) => WitnessStep(c, l, r, env.answer)
    case Attach(r, receipt) => AttachStep(c, l, r, receipt)
    case Check(r) => CheckStep(c, l, r)
    case Commit(row) => CommitStep(c, t, l, call.job, row, env)
  }

  function Next(c: Crypto, t: Text, s: System, a: Action): System {
    match a
    case Start(id, job) => if id in s.calls then s else s.(calls := s.calls[id := Call(job, Begin)])
    case Direct(op) =>
      if !DirectAllowed(op) then s
      else
        var n := Apply(c, t, s.ledger, op);
        s.(ledger := n, raw := if n == s.ledger then s.raw else s.raw + Settles(op))
    case Advance(id, env) =>
      if id !in s.calls then s
      else
        var p := CallStep(c, t, s.ledger, s.calls[id], env);
        match p.next
        case Ok(stage) => s.(ledger := p.ledger, calls := s.calls[id := Call(s.calls[id].job, stage)])
        case Err(reply) => System(p.ledger, s.calls - {id}, s.log + [Returned(s.calls[id].job, reply)], s.raw)
  }

  function RunSystem(c: Crypto, t: Text, actions: seq<Action>): System {
    if actions == [] then START
    else Next(c, t, RunSystem(c, t, actions[..|actions| - 1]), actions[|actions| - 1])
  }

  // ----- the invariant ---------------------------------------------------------------------------

  /** The stream holds a witnessed event with this retry key. */
  ghost predicate WitnessedKey(c: Crypto, l: Ledger, principal: Text, phase: Phase, key: Text) {
    exists i :: 0 <= i < |l.events| && Keyed(l.events[i], principal, phase, key) && Witnessed(c, l.events[i])
  }

  /** A claim has a witnessed intent, a completion a witnessed outcome. */
  ghost predicate ExecutionWitnessed(c: Crypto, l: Ledger, k: RetryKey, e: Execution) {
    && 1 <= e.intentSequence <= |l.events| && Witnessed(c, l.events[e.intentSequence - 1])
    && (e.state == Completed ==> WitnessedKey(c, l, k.principal, Outcome, k.key))
  }

  ghost predicate ResolutionWitnessed(c: Crypto, l: Ledger, x: Resolution) {
    x.finalized ==> 1 <= x.auditSequence <= |l.events| && Witnessed(c, l.events[x.auditSequence - 1])
  }

  /** Every row that no direct call settled has its witnessed events. */
  ghost predicate AllWitnessed(c: Crypto, l: Ledger, raw: set<RetryKey>) {
    && (forall k :: k in l.executions && k !in raw ==> ExecutionWitnessed(c, l, k, l.executions[k]))
    && (forall k :: k in l.resolutions && k !in raw ==> ResolutionWitnessed(c, l, l.resolutions[k]))
  }

  /** `r` is a row of the stream, as it was read earlier. */
  ghost predicate RowOf(l: Ledger, r: Record) {
    1 <= r.sequence <= |l.events| && EventExtends(r, l.events[r.sequence - 1])
  }

  /** The row a call is witnessing is the one its job is about. */
  ghost predicate RowFor(l: Ledger, job: Job, r: Record) {
    && RowOf(l, r)
    && match job
       case AppendJob(i) => SameContent(r, i) && r.key == i.key
       case ClaimJob(i) => i.key.Some? && Keyed(r, i.principal, Intent, i.key.value)
       case CompleteJob(i, _) => i.key.Some? && Keyed(r, i.principal, Outcome, i.key.value)
       case ResolveJob(i) => i.target in l.resolutions && l.resolutions[i.target].auditSequence == r.sequence
       case RecoverJob => true
  }

  /** The ledger holds the execution that the event is about, for the same request. */
  ghost predicate StoredFor(l: Ledger, i: EventInput)
    requires i.key.Some?
  {
    RetryKey(i.principal, i.key.value) in l.executions && l.executions[RetryKey(i.principal, i.key.value)].requestHash == i.requestHash
  }

  ghost predicate CallOk(c: Crypto, l: Ledger, call: Call) {
    match call.stage
    case Begin => true
    case Load =>
      && (call.job.ClaimJob? ==> call.job.input.key.Some? && call.job.input.phase == Intent)
      && (call.job.CompleteJob? ==> call.job.input.key.Some? && call.job.input.phase == Outcome && StoredFor(l, call.job.input))
    case Witness(r) => RowFor(l, call.job, r)
    case Attach(r, _) => RowFor(l, call.job, r)
    case Check(r) => RowFor(l, call.job, r)
    case Commit(Some(r)) => RowFor(l, call.job, r) && Witnessed(c, r)
    case Commit(None) =>
      match call.job
      case AppendJob(_) => false
      case ClaimJob(i) => i.key.Some? && KeyOf(i) in l.executions
      case CompleteJob(i, _) => i.key.Some? && KeyOf(i) in l.executions && l.executions[KeyOf(i)].state != Claimed
      case ResolveJob(i) => i.target in l.resolutions && l.resolutions[i.target].finalized
      case RecoverJob => false
  }

  ghost predicate AcquiredFor(r: Returned, k: RetryKey) {
    r.job.ClaimJob? && r.job.input.key.Some? && KeyOf(r.job.input) == k && r.reply.Claim? && r.reply.claim.Acquired?
  }

  /** What each returned reply promises about the rows from then on. */
  ghost predicate ReplyOk(c: Crypto, l: Ledger, raw: set<RetryKey>, r: Returned) {
    match r.reply
    case AppendDone(x) => r.job.AppendJob? && RowOf(l, x) && Witnessed(c, x) && SameContent(x, r.job.input) && x.key == r.job.input.key
    case Claim(Acquired(e)) =>
      && r.job.ClaimJob? && r.job.input.key.Some? && KeyOf(r.job.input) in l.executions
      && ExecutionAdvances(e, l.executions[KeyOf(r.job.input)])
      && 1 <= e.intentSequence <= |l.events| && Witnessed(c, l.events[e.intentSequence - 1])
      && Keyed(l.events[e.intentSequence - 1], r.job.input.principal, Intent, r.job.input.key.value)
      && l.events[e.intentSequence - 1].requestHash == r.job.input.requestHash
    case Claim(Existing(e)) =>
      && r.job.ClaimJob? && r.job.input.key.Some? && KeyOf(r.job.input) in l.executions
      && ExecutionAdvances(e, l.executions[KeyOf(r.job.input)]) && e.requestHash == r.job.input.requestHash
    case Complete(e) =>
      && r.job.CompleteJob? && r.job.input.key.Some? && e.state == Completed && e.result == Some(r.job.result)
      && KeyOf(r.job.input) in l.executions && l.executions[KeyOf(r.job.input)] == e && e.requestHash == r.job.input.requestHash
      && (KeyOf(r.job.input) in raw || WitnessedKey(c, l, r.job.input.principal, Outcome, r.job.input.key.value))
    case Resolve(x) =>
      && r.job.ResolveJob? && x.finalized && SameConclusion(x, r.job.conclusion)
      && r.job.conclusion.target in l.resolutions && l.resolutions[r.job.conclusion.target] == x
      && (r.job.conclusion.target in raw || ResolutionWitnessed(c, l, x))
    case _ => true
  }

  ghost predicate LogOk(c: Crypto, l: Ledger, raw: set<RetryKey>, log: seq<Returned>) {
    && (forall i :: 0 <= i < |log| ==> ReplyOk(c, l, raw, log[i]))
    && (forall i, j, k :: 0 <= i < j < |log| ==> !(AcquiredFor(log[i], k) && AcquiredFor(log[j], k)))
  }

  ghost predicate SystemInv(c: Crypto, t: Text, s: System) {
    && LedgerInv(c, t, s.ledger)
    && AllWitnessed(c, s.ledger, s.raw)
    && (forall id :: id in s.calls ==> CallOk(c, s.ledger, s.calls[id]))
    && LogOk(c, s.ledger, s.raw, s.log)
  }

  // ----- everything a call or a reply relies on is stable ----------------------------------------

  lemma WitnessedStable(c: Crypto, l: Ledger, n: Ledger, i: nat)
    requires LedgerExtends(l, n) && i < |l.events| && Witnessed(c, l.events[i])
    ensures i < |n.events| && Witnessed(c, n.events[i])
  {
    assert EventExtends(l.events[i], n.events[i]);
  }

  lemma WitnessedKeyStable(c: Crypto, l: Ledger, n: Ledger, principal: Text, phase: Phase, key: Text)
    requires LedgerExtends(l, n) && WitnessedKey(c, l, principal, phase, key)
    ensures WitnessedKey(c, n, principal, phase, key)
  {
    var i :| 0 <= i < |l.events| && Keyed(l.events[i], principal, phase, key) && Witnessed(c, l.events[i]);
    assert EventExtends(l.events[i], n.events[i]);
  }

  lemma RowStable(l: Ledger, n: Ledger, job: Job, r: Record)
    requires LedgerExtends(l, n) && RowFor(l, job, r)
    ensures RowFor(n, job, r)
  {
    assert EventExtends(l.events[r.sequence - 1], n.events[r.sequence - 1]);
  }

  lemma CallStable(c: Crypto, l: Ledger, n: Ledger, call: Call)
    requires LedgerExtends(l, n) && CallOk(c, l, call)
    ensures CallOk(c, n, call)
  {
    match call.stage {
      case Witness(r) => RowStable(l, n, call.job, r);
      case Attach(r, _) => RowStable(l, n, call.job, r);
      case Check(r) => RowStable(l, n, call.job, r);
      case Commit(Some(r)) => RowStable(l, n, call.job, r);
      case _ =>
    }
  }

  lemma ReplyStable(c: Crypto, l: Ledger, n: Ledger, raw: set<RetryKey>, more: set<RetryKey>, r: Returned)
    requires LedgerExtends(l, n) && raw <= more && ReplyOk(c, l, raw, r)
    ensures ReplyOk(c, n, more, r)
  {
    match r.reply {
      case AppendDone(x) => assert EventExtends(l.events[x.sequence - 1], n.events[x.sequence - 1]);
      case Claim(Acquired(e)) =>
        WitnessedStable(c, l, n, e.intentSequence - 1);
        assert EventExtends(l.events[e.intentSequence - 1], n.events[e.intentSequence - 1]);
        var k := KeyOf(r.job.input);
        assert ExecutionAdvances(l.executions[k], n.executions[k]);
      case Claim(Existing(e)) => assert ExecutionAdvances(l.executions[KeyOf(r.job.input)], n.executions[KeyOf(r.job.input)]);
      case Complete(e) =>
        assert ExecutionAdvances(l.executions[KeyOf(r.job.input)], n.executions[KeyOf(r.job.input)]);
        if KeyOf(r.job.input) !in raw { WitnessedKeyStable(c, l, n, r.job.input.principal, Outcome, r.job.input.key.value); }
      case Resolve(x) =>
        assert ResolutionAdvances(l.resolutions[r.job.conclusion.target], n.resolutions[r.job.conclusion.target]);
        if r.job.conclusion.target !in raw { WitnessedStable(c, l, n, x.auditSequence - 1); }
      case _ =>
    }
  }

  lemma ExecutionWitnessStable(c: Crypto, l: Ledger, n: Ledger, k: RetryKey, e: Execution)
    requires LedgerExtends(l, n) && ExecutionWitnessed(c, l, k, e)
    ensures ExecutionWitnessed(c, n, k, e)
  {
    WitnessedStable(c, l, n, e.intentSequence - 1);
    if e.state == Completed { WitnessedKeyStable(c, l, n, k.principal, Outcome, k.key); }
  }

  lemma CallsStable(c: Crypto, s: System, n: Ledger)
    requires LedgerExtends(s.ledger, n) && forall id :: id in s.calls ==> CallOk(c, s.ledger, s.calls[id])
    ensures forall id :: id in s.calls ==> CallOk(c, n, s.calls[id])
  {
    forall id | id in s.calls ensures CallOk(c, n, s.calls[id]) { CallStable(c, s.ledger, n, s.calls[id]); }
  }

  lemma LogStable(c: Crypto, l: Ledger, n: Ledger, raw: set<RetryKey>, more: set<RetryKey>, log: seq<Returned>)
    requires LedgerExtends(l, n) && raw <= more && LogOk(c, l, raw, log)
    ensures LogOk(c, n, more, log)
  {
    forall i | 0 <= i < |log| ensures ReplyOk(c, n, more, log[i]) { ReplyStable(c, l, n, raw, more, log[i]); }
  }

  // ----- what each kind of step keeps --------------------------------------------------------------

  /** Outside some keys, nothing new was claimed, completed or finalized. */
  ghost predicate NothingSettled(l: Ledger, n: Ledger, except: set<RetryKey>) {
    && (forall k :: k in n.executions && k !in except ==>
          && k in l.executions && n.executions[k].intentSequence == l.executions[k].intentSequence
          && (n.executions[k].state == Completed ==> l.executions[k].state == Completed))
    && (forall k :: k in n.resolutions && k !in except && n.resolutions[k].finalized ==> k in l.resolutions && n.resolutions[k] == l.resolutions[k])
  }

  /** Outside the keys in `raw`, rows of which nothing new was settled stay witnessed. */
  lemma NothingSettledKeeps(c: Crypto, l: Ledger, n: Ledger, raw: set<RetryKey>, more: set<RetryKey>)
    requires AllWitnessed(c, l, raw) && LedgerExtends(l, n) && raw <= more && NothingSettled(l, n, more)
    ensures AllWitnessed(c, n, more)
  {
    hide Witnessed;
    forall k | k in n.executions && k !in more ensures ExecutionWitnessed(c, n, k, n.executions[k]) {
      assert ExecutionWitnessed(c, l, k, l.executions[k]);
      ExecutionWitnessStable(c, l, n, k, l.executions[k]);
    }
    forall k | k in n.resolutions && k !in more ensures ResolutionWitnessed(c, n, n.resolutions[k]) {
      if n.resolutions[k].finalized {
        assert ResolutionWitnessed(c, l, l.resolutions[k]);
        WitnessedStable(c, l, n, l.resolutions[k].auditSequence - 1);
      }
    }
  }

  lemma HarmlessSettlesNothing(c: Crypto, t: Text, l: Ledger, op: Op)
    requires Harmless(op) || op.OpRecover?
    ensures NothingSettled(l, Apply(c, t, l, op), {})
  {
    hide ValidIdentifier;
    hide EventHash;
    hide ResolutionEvent;
    hide VerifyFrom;
    hide ReceiptCheck;
  }

  lemma DirectSettlesItsKey(c: Crypto, t: Text, l: Ledger, op: Op)
    requires op.OpClaim? || op.OpComplete? || op.OpFinalize?
    ensures NothingSettled(l, Apply(c, t, l, op), Settles(op))
  {
    hide ValidIdentifier;
    hide ValidResolutionInput;
    hide AppendIn;
  }

  lemma MoreExceptions(l: Ledger, n: Ledger, except: set<RetryKey>, more: set<RetryKey>)
    requires NothingSettled(l, n, except) && except <= more
    ensures NothingSettled(l, n, more)
  {
  }

  /** A direct call keeps every row it did not itself settle witnessed. */
  lemma DirectKeeps(c: Crypto, t: Text, l: Ledger, raw: set<RetryKey>, op: Op)
    requires LedgerInv(c, t, l) && AllWitnessed(c, l, raw)
    ensures var n := Apply(c, t, l, op);
      && LedgerInv(c, t, n) && LedgerExtends(l, n)
      && AllWitnessed(c, n, raw + Settles(op)) && (n == l || Harmless(op) || op.OpRecover? ==> AllWitnessed(c, n, raw))
  {
    hide LedgerInv;
    hide LedgerExtends;
    hide AllWitnessed;
    hide NothingSettled;
    hide Apply;
    var n := Apply(c, t, l, op);
    ApplyKeeps(c, t, l, op);
    if Harmless(op) || op.OpRecover? {
      HarmlessSettlesNothing(c, t, l, op);
      assert raw + Settles(op) == raw;
      MoreExceptions(l, n, {}, raw);
      NothingSettledKeeps(c, l, n, raw, raw);
    } else {
      DirectSettlesItsKey(c, t, l, op);
      MoreExceptions(l, n, Settles(op), raw + Settles(op));
      NothingSettledKeeps(c, l, n, raw, raw + Settles(op));
    }
  }

  /** With unique retry keys, the event that holds the key is the witnessed one. */
  lemma KeyedIsWitnessed(c: Crypto, l: Ledger, principal: Text, phase: Phase, key: Text, i: nat)
    requires KeysUnique(l.events) && WitnessedKey(c, l, principal, phase, key)
    requires i < |l.events| && Keyed(l.events[i], principal, phase, key)
    ensures Witnessed(c, l.events[i])
  {
    hide Witnessed;
    var j :| 0 <= j < |l.events| && Keyed(l.events[j], principal, phase, key) && Witnessed(c, l.events[j]);
    assert SameRetryKey(l.events[i], l.events[j]) && SameRetryKey(l.events[j], l.events[i]);
  }

  /** A row read as witnessed is a witnessed event of the stream with the same retry key. */
  lemma RowGivesWitnessedKey(c: Crypto, l: Ledger, r: Record, principal: Text, phase: Phase, key: Text)
    requires RowOf(l, r) && Witnessed(c, r) && Keyed(r, principal, phase, key)
    ensures WitnessedKey(c, l, principal, phase, key)
  {
    assert EventExtends(r, l.events[r.sequence - 1]);
    assert Witnessed(c, l.events[r.sequence - 1]);
  }

  /** What a claim that changed the rows wrote. */
  lemma NewClaimShape(c: Crypto, t: Text, l: Ledger, i: EventInput, m: Mint)
    requires LedgerInv(c, t, l) && i.key.Some?
    ensures var s := ClaimExecution(c, t, l, i, m);
      && (s.result.Ok? && s.result.value.Acquired? <==> s.ledger != l)
      && (s.ledger != l ==>
            && KeyOf(i) !in l.executions
            && s.ledger.executions == l.executions[KeyOf(i) := s.result.value.execution]
            && s.ledger.resolutions == l.resolutions
            && s.result.value.execution.state == Claimed && s.result.value.execution.requestHash == i.requestHash)
  {
    hide LedgerInv;
    hide ValidInput;
    hide AppendIn;
    var s := ClaimExecution(c, t, l, i, m);
    if s.result.Ok? && s.result.value.Acquired? { assert KeyOf(i) in s.ledger.executions; }
  }

  lemma ExistingReply(c: Crypto, t: Text, l: Ledger, i: EventInput, m: Mint)
    requires LedgerInv(c, t, l) && i.key.Some?
    ensures var s := ClaimExecution(c, t, l, i, m);
      s.result.Ok? && s.result.value.Existing? ==>
        && s.ledger == l && KeyOf(i) in l.executions && s.result.value.execution == l.executions[KeyOf(i)]
        && s.result.value.execution.requestHash == i.requestHash
  {
    hide LedgerInv;
    hide ClaimExecution;
    ClaimMeets(c, t, l, i, m);
    hide Written;
    hide Chained;
    hide Contradicted;
    hide GoodInput;
  }

  lemma ClaimCommits(c: Crypto, t: Text, l: Ledger, raw: set<RetryKey>, i: EventInput, m: Mint)
    requires LedgerInv(c, t, l) && AllWitnessed(c, l, raw) && i.key.Some?
    requires KeyOf(i) in l.executions || WitnessedKey(c, l, i.principal, Intent, i.key.value)
    ensures var s := ClaimExecution(c, t, l, i, m);
      && LedgerInv(c, t, s.ledger) && LedgerExtends(l, s.ledger) && AllWitnessed(c, s.ledger, raw)
      && (s.result.Ok? ==> ReplyOk(c, s.ledger, raw, Returned(ClaimJob(i), Claim(s.result.value))))
      && (s.result.Ok? && s.result.value.Acquired? ==> KeyOf(i) !in l.executions)
  {
    hide ClaimExecution;
    hide ChainOk;
    hide KeysUnique;
    hide LedgerExtends;
    hide Witnessed;
    var s := ClaimExecution(c, t, l, i, m);
    ClaimKeeps(c, t, l, i, m);
    NewClaimShape(c, t, l, i, m);
    ExistingReply(c, t, l, i, m);
    if s.ledger != l {
      var k, e := KeyOf(i), s.result.value.execution;
      assert k in s.ledger.executions && s.ledger.executions[k] == e;
      assert ExecutionOk(s.ledger.events, k, e);
      WitnessedKeyStable(c, l, s.ledger, i.principal, Intent, i.key.value);
      KeyedIsWitnessed(c, s.ledger, i.principal, Intent, i.key.value, e.intentSequence - 1);
      forall x | x in s.ledger.executions && x !in raw ensures ExecutionWitnessed(c, s.ledger, x, s.ledger.executions[x]) {
        if x != k {
          assert ExecutionWitnessed(c, l, x, l.executions[x]);
          ExecutionWitnessStable(c, l, s.ledger, x, l.executions[x]);
        }
      }
      ResolutionsStayWitnessed(c, l, s.ledger, raw);
    }
  }

  lemma ResolutionsStayWitnessed(c: Crypto, l: Ledger, n: Ledger, raw: set<RetryKey>)
    requires AllWitnessed(c, l, raw) && LedgerExtends(l, n) && n.resolutions == l.resolutions
    ensures forall k :: k in n.resolutions && k !in raw ==> ResolutionWitnessed(c, n, n.resolutions[k])
  {
    hide Witnessed;
    forall k | k in n.resolutions && k !in raw ensures ResolutionWitnessed(c, n, n.resolutions[k]) {
      assert ResolutionWitnessed(c, l, l.resolutions[k]);
      if n.resolutions[k].finalized { WitnessedStable(c, l, n, l.resolutions[k].auditSequence - 1); }
    }
  }

  /** What a completion returns and writes. */
  lemma CompletionShape(c: Crypto, t: Text, l: Ledger, i: EventInput, result: Text, m: Mint, now: int)
    requires LedgerInv(c, t, l) && i.key.Some?
    ensures var s := CompleteExecution(c, t, l, i, result, m, now);
      && (s.result.Ok? ==> s.result.value.state == Completed && s.result.value.result == Some(result))
      && (s.result.Ok? ==>
            && KeyOf(i) in s.ledger.executions && s.ledger.executions[KeyOf(i)] == s.result.value
            && s.result.value.requestHash == i.requestHash)
      && (s.result.Ok? && s.ledger == l ==> KeyOf(i) in l.executions && l.executions[KeyOf(i)].state == Completed)
      && (s.ledger != l ==>
            && KeyOf(i) in l.executions && l.executions[KeyOf(i)].state == Claimed
            && (exists f :: s.ledger.executions == l.executions[KeyOf(i) := f] && f.intentSequence == l.executions[KeyOf(i)].intentSequence)
            && s.ledger.resolutions == l.resolutions)
  {
    hide LedgerInv;
    hide ValidInput;
    hide AppendIn;
    var s := CompleteExecution(c, t, l, i, result, m, now);
    if s.ledger != l { assert s.ledger.executions == l.executions[KeyOf(i) := s.result.value]; }
    if s.result.Ok? && l.executions[KeyOf(i)].state == Claimed { assert s.ledger.executions[KeyOf(i)].state == Completed; }
  }

  lemma CompleteCommits(c: Crypto, t: Text, l: Ledger, raw: set<RetryKey>, i: EventInput, result: Text, m: Mint, now: int)
    requires LedgerInv(c, t, l) && AllWitnessed(c, l, raw) && i.key.Some?
    requires || (KeyOf(i) in l.executions && l.executions[KeyOf(i)].state != Claimed)
             || WitnessedKey(c, l, i.principal, Outcome, i.key.value)
    ensures var s := CompleteExecution(c, t, l, i, result, m, now);
      && LedgerInv(c, t, s.ledger) && LedgerExtends(l, s.ledger) && AllWitnessed(c, s.ledger, raw)
      && (s.result.Ok? ==> ReplyOk(c, s.ledger, raw, Returned(CompleteJob(i, result), Complete(s.result.value))))
  {
    hide CompleteExecution;
    hide LedgerInv;
    hide LedgerExtends;
    hide Witnessed;
    var s := CompleteExecution(c, t, l, i, result, m, now);
    CompleteKeeps(c, t, l, i, result, m, now);
    CompletionShape(c, t, l, i, result, m, now);
    if s.ledger != l {
      WitnessedKeyStable(c, l, s.ledger, i.principal, Outcome, i.key.value);
      forall x | x in s.ledger.executions && x !in raw ensures ExecutionWitnessed(c, s.ledger, x, s.ledger.executions[x]) {
        assert ExecutionWitnessed(c, l, x, l.executions[x]);
        ExecutionWitnessStable(c, l, s.ledger, x, l.executions[x]);
      }
      ResolutionsStayWitnessed(c, l, s.ledger, raw);
    } else if s.result.Ok? && KeyOf(i) !in raw {
      assert ExecutionWitnessed(c, l, KeyOf(i), l.executions[KeyOf(i)]);
    }
  }

  lemma ResolveCommits(c: Crypto, t: Text, l: Ledger, raw: set<RetryKey>, i: ResolutionInput)
    requires LedgerInv(c, t, l) && AllWitnessed(c, l, raw) && i.target in l.resolutions
    requires i.target in raw || ResolutionWitnessed(c, l, l.resolutions[i.target].(finalized := true))
    ensures var s := FinalizeResolution(t, l, i, true);
      && LedgerInv(c, t, s.ledger) && LedgerExtends(l, s.ledger) && AllWitnessed(c, s.ledger, raw)
      && (s.result.Ok? ==> ReplyOk(c, s.ledger, raw, Returned(ResolveJob(i), Resolve(s.result.value))))
  {
    hide LedgerInv;
    hide ValidResolutionInput;
    hide Witnessed;
    var s := FinalizeResolution(t, l, i, true);
    FinalizeKeeps(c, t, l, i, true);
    forall k | k in s.ledger.executions && k !in raw ensures ExecutionWitnessed(c, s.ledger, k, s.ledger.executions[k]) {
      assert ExecutionWitnessed(c, l, k, l.executions[k]);
      ExecutionWitnessStable(c, l, s.ledger, k, l.executions[k]);
    }
    forall k | k in s.ledger.resolutions && k !in raw ensures ResolutionWitnessed(c, s.ledger, s.ledger.resolutions[k]) {
      assert ResolutionWitnessed(c, l, l.resolutions[k]);
    }
  }

  /** The promise one step of a call makes. */
  ghost predicate StepOk(c: Crypto, t: Text, l: Ledger, raw: set<RetryKey>, call: Call, p: Progress) {
    && LedgerInv(c, t, p.ledger) && LedgerExtends(l, p.ledger) && AllWitnessed(c, p.ledger, raw)
    && match p.next
       case Ok(stage) => CallOk(c, p.ledger, Call(call.job, stage))
       case Err(reply) =>
         && ReplyOk(c, p.ledger, raw, Returned(call.job, reply))
         && forall k :: AcquiredFor(Returned(call.job, reply), k) ==> k !in l.executions
  }

  lemma CommitStepOk(c: Crypto, t: Text, l: Ledger, raw: set<RetryKey>, call: Call, env: Env)
    requires LedgerInv(c, t, l) && AllWitnessed(c, l, raw) && call.stage.Commit? && CallOk(c, l, call)
    ensures StepOk(c, t, l, raw, call, CallStep(c, t, l, call, env))
  {
    hide LedgerInv;
    hide LedgerExtends;
    hide AllWitnessed;
    hide Witnessed;
    hide ClaimExecution;
    hide CompleteExecution;
    hide FinalizeResolution;
    hide Recover;
    var row := call.stage.witnessed;
    match call.job {
      case AppendJob(_) => ExtendsItself(l);
      case ClaimJob(i) =>
        if row.Some? { RowGivesWitnessedKey(c, l, row.value, i.principal, Intent, i.key.value); }
        ClaimCommits(c, t, l, raw, i, env.mint);
      case CompleteJob(i, result) =>
        if row.Some? { RowGivesWitnessedKey(c, l, row.value, i.principal, Outcome, i.key.value); }
        CompleteCommits(c, t, l, raw, i, result, env.mint, env.now);
      case ResolveJob(i) =>
        ResolutionRowWitnessed(c, l, raw, call);
        ResolveCommits(c, t, l, raw, i);
      case RecoverJob =>
        DirectKeeps(c, t, l, raw, OpRecover(row.value.sequence, row.value.eventHash, env.now));
    }
  }

  lemma ResolutionRowWitnessed(c: Crypto, l: Ledger, raw: set<RetryKey>, call: Call)
    requires AllWitnessed(c, l, raw) && call.stage.Commit? && call.job.ResolveJob? && CallOk(c, l, call)
    ensures var i := call.job.conclusion;
      i.target in l.resolutions && (i.target in raw || ResolutionWitnessed(c, l, l.resolutions[i.target].(finalized := true)))
  {
    var i := call.job.conclusion;
    assert i.target !in raw ==> ResolutionWitnessed(c, l, l.resolutions[i.target]);
    if call.stage.witnessed.Some? {
      var r := call.stage.witnessed.value;
      assert EventExtends(r, l.events[r.sequence - 1]);
    }
  }

  lemma BeginStepOk(c: Crypto, t: Text, l: Ledger, raw: set<RetryKey>, call: Call, env: Env)
    requires LedgerInv(c, t, l) && AllWitnessed(c, l, raw) && call.stage.Begin?
    ensures StepOk(c, t, l, raw, call, CallStep(c, t, l, call, env))
  {
    hide LedgerInv;
    hide LedgerExtends;
    hide BeginResolution;
    hide AllWitnessed;
    hide ValidInput;
    ExtendsItself(l);
    if call.job.ResolveJob? {
      DirectKeeps(c, t, l, raw, OpBegin(call.job.conclusion, env.mint, env.now));
      if BeginResolution(c, t, l, call.job.conclusion, env.mint, env.now).result.Ok? {
        BeginReservesRow(c, t, l, call.job.conclusion, env.mint, env.now);
      }
    }
  }

  lemma BeginReservesRow(c: Crypto, t: Text, l: Ledger, i: ResolutionInput, m: Mint, now: int)
    requires LedgerInv(c, t, l) && BeginResolution(c, t, l, i, m, now).result.Ok?
    ensures var s := BeginResolution(c, t, l, i, m, now);
            var r := s.result.value;
      && RowOf(s.ledger, r.record) && i.target in s.ledger.resolutions
      && s.ledger.resolutions[i.target] == r.resolution && r.resolution.auditSequence == r.record.sequence
  {
    hide ExecutionOk;
    hide KeysUnique;
    hide ChainOk;
    hide EventsExtend;
    hide ResolutionKey;
    hide ResolutionEvent;
    hide ValidResolutionInput;
    hide ValidInput;
    hide EventHash;
    if i.target in l.resolutions {
      SequenceIsPosition(c, t, l.events, l.resolutions[i.target].auditSequence - 1);
    } else {
      AppendInKeeps(c, t, l.events, ResolutionEvent(c, t, i, l.executions[i.target]), m);
    }
  }

  lemma LoadStepOk(c: Crypto, t: Text, l: Ledger, raw: set<RetryKey>, call: Call, env: Env)
    requires LedgerInv(c, t, l) && AllWitnessed(c, l, raw) && call.stage.Load?
    requires CallOk(c, l, call)
    ensures StepOk(c, t, l, raw, call, CallStep(c, t, l, call, env))
  {
    hide LedgerInv;
    hide LedgerExtends;
    hide AllWitnessed;
    hide ValidInput;
    hide AppendIn;
    ExtendsItself(l);
    match call.job {
      case AppendJob(i) => AppendGivesRow(c, t, l, raw, i, env.mint);
      case ClaimJob(i) => AppendGivesRow(c, t, l, raw, i, env.mint);
      case CompleteJob(i, _) => AppendGivesRow(c, t, l, raw, i, env.mint);
      case ResolveJob(_) =>
      case RecoverJob => if l.events != [] { HeadIsRow(c, t, l); }
    }
  }

  lemma HeadIsRow(c: Crypto, t: Text, l: Ledger)
    requires LedgerInv(c, t, l) && l.events != []
    ensures RowOf(l, l.events[|l.events| - 1])
  {
    SequenceIsPosition(c, t, l.events, |l.events| - 1);
  }

  lemma AppendGivesRow(c: Crypto, t: Text, l: Ledger, raw: set<RetryKey>, i: EventInput, m: Mint)
    requires LedgerInv(c, t, l) && AllWitnessed(c, l, raw)
    ensures var s := Append(c, t, l, i, m);
      && LedgerInv(c, t, s.ledger) && LedgerExtends(l, s.ledger) && AllWitnessed(c, s.ledger, raw)
      && (s.result.Ok? ==> RowOf(s.ledger, s.result.value) && SameContent(s.result.value, i) && s.result.value.key == i.key)
  {
    hide ExecutionOk;
    hide ResolutionOk;
    hide ChainOk;
    hide KeysUnique;
    hide LedgerExtends;
    hide EventHash;
    hide EventsExtend;
    hide ValidInput;
    hide AllWitnessed;
    DirectKeeps(c, t, l, raw, OpAppend(i, m));
    if Append(c, t, l, i, m).result.Ok? { AppendInKeeps(c, t, l.events, i, m); }
  }

  lemma WitnessRoundOk(c: Crypto, t: Text, l: Ledger, raw: set<RetryKey>, call: Call, env: Env)
    requires LedgerInv(c, t, l) && AllWitnessed(c, l, raw) && CallOk(c, l, call)
    requires call.stage.Witness? || call.stage.Attach? || call.stage.Check?
    ensures StepOk(c, t, l, raw, call, CallStep(c, t, l, call, env))
  {
    hide LedgerInv;
    hide LedgerExtends;
    hide Attachable;
    hide AllWitnessed;
    ExtendsItself(l);
    match call.stage {
      case Witness(r) =>
      case Attach(r, receipt) =>
        DirectKeeps(c, t, l, raw, OpAttach(receipt));
        RowStable(l, AttachReceipt(c, l, receipt).ledger, call.job, r);
      case Check(r) => assert EventExtends(r, l.events[r.sequence - 1]);
    }
  }

  lemma CallStepOk(c: Crypto, t: Text, l: Ledger, raw: set<RetryKey>, call: Call, env: Env)
    requires LedgerInv(c, t, l) && AllWitnessed(c, l, raw) && CallOk(c, l, call)
    ensures StepOk(c, t, l, raw, call, CallStep(c, t, l, call, env))
  {
    hide LedgerInv;
    hide AllWitnessed;
    hide StepOk;
    hide CallOk;
    hide CallStep;
    match call.stage {
      case Begin => BeginStepOk(c, t, l, raw, call, env);
      case Load => LoadStepOk(c, t, l, raw, call, env);
      case Commit(_) => CommitStepOk(c, t, l, raw, call, env);
      case _ => WitnessRoundOk(c, t, l, raw, call, env);
    }
  }

  // ----- every interleaving ------------------------------------------------------------------------

  lemma LogGrows(c: Crypto, l: Ledger, n: Ledger, raw: set<RetryKey>, log: seq<Returned>, r: Returned)
    requires LogOk(c, l, raw, log) && LedgerExtends(l, n) && ReplyOk(c, n, raw, r)
    requires forall k :: AcquiredFor(r, k) ==> k !in l.executions
    ensures LogOk(c, n, raw, log + [r])
  {
    hide LedgerExtends;
    LogStable(c, l, n, raw, raw, log);
    forall i, j, k | 0 <= i < j < |log + [r]| ensures !(AcquiredFor((log + [r])[i], k) && AcquiredFor((log + [r])[j], k)) {
      if j == |log| { assert ReplyOk(c, l, raw, log[i]); }
    }
  }

  lemma NextKeeps(c: Crypto, t: Text, s: System, a: Action)
    requires SystemInv(c, t, s)
    ensures SystemInv(c, t, Next(c, t, s, a)) && LedgerExtends(s.ledger, Next(c, t, s, a).ledger)
  {
    hide LedgerInv;
    hide LedgerExtends;
    hide AllWitnessed;
    hide LogOk;
    hide CallStep;
    hide Apply;
    ExtendsItself(s.ledger);
    match a {
      case Start(id, job) =>
      case Direct(op) =>
        if DirectAllowed(op) {
          var n := Apply(c, t, s.ledger, op);
          DirectKeeps(c, t, s.ledger, s.raw, op);
          CallsStable(c, s, n);
          LogStable(c, s.ledger, n, s.raw, Next(c, t, s, a).raw, s.log);
        }
      case Advance(id, env) =>
        if id in s.calls {
          var p := CallStep(c, t, s.ledger, s.calls[id], env);
          CallStepOk(c, t, s.ledger, s.raw, s.calls[id], env);
          CallsStable(c, s, p.ledger);
          match p.next {
            case Ok(stage) => LogStable(c, s.ledger, p.ledger, s.raw, s.raw, s.log);
            case Err(reply) => LogGrows(c, s.ledger, p.ledger, s.raw, s.log, Returned(s.calls[id].job, reply));
          }
        }
    }
  }

  /** The invariant holds after every interleaving, and every earlier state survives in every later one. */
  lemma {:induction false} EveryInterleaving(c: Crypto, t: Text, actions: seq<Action>, j: nat)
    requires j <= |actions|
    ensures SystemInv(c, t, RunSystem(c, t, actions))
    ensures LedgerExtends(RunSystem(c, t, actions[..j]).ledger, RunSystem(c, t, actions).ledger)
    decreases |actions|
  {
    hide LedgerExtends;
    hide SystemInv;
    hide Next;
    if j == |actions| {
      assert actions[..j] == actions;
      ExtendsItself(RunSystem(c, t, actions).ledger);
    }
    if actions == [] {
      StartOk(c, t);
    } else {
      var n := |actions| - 1;
      EveryInterleaving(c, t, actions[..n], if j <= n then j else 0);
      NextKeeps(c, t, RunSystem(c, t, actions[..n]), actions[n]);
      if j <= n {
        assert actions[..n][..j] == actions[..j];
        ExtendsTransitive(RunSystem(c, t, actions[..j]).ledger, RunSystem(c, t, actions[..n]).ledger, RunSystem(c, t, actions).ledger);
      }
    }
  }

  lemma StartOk(c: Crypto, t: Text)
    ensures SystemInv(c, t, START)
  {
    EmptyLedger(c, t);
  }

  /** At most one caller ever acquires a retry key, whatever the interleaving. */
  lemma AtMostOneAcquired(c: Crypto, t: Text, actions: seq<Action>, i: nat, j: nat, k: RetryKey)
    requires i < |RunSystem(c, t, actions).log| && j < |RunSystem(c, t, actions).log|
    requires AcquiredFor(RunSystem(c, t, actions).log[i], k) && AcquiredFor(RunSystem(c, t, actions).log[j], k)
    ensures i == j
  {
    hide Next;
    EveryInterleaving(c, t, actions, 0);
  }

  /** The stream holds a witnessed outcome for this key and request. */
  ghost predicate WitnessedOutcome(c: Crypto, l: Ledger, k: RetryKey, requestHash: Text) {
    exists i :: 0 <= i < |l.events| && Keyed(l.events[i], k.principal, Outcome, k.key) && l.events[i].requestHash == requestHash && Witnessed(c, l.events[i])
  }

  /** The event a resolution row points at is witnessed and records this very conclusion about this very execution. */
  ghost predicate WitnessedConclusion(c: Crypto, t: Text, l: Ledger, k: RetryKey, x: Resolution) {
    && k in l.executions && 1 <= x.auditSequence <= |l.events|
    && var e := l.events[x.auditSequence - 1];
       && Witnessed(c, e) && Keyed(e, x.resolvedBy, Outcome, ResolutionKey(c, t, k))
       && StatesConclusion(c, e, Conclusion(k, x), l.executions[k])
  }

  /** What a reply means once it was given, in every later state. */
  ghost predicate ReplyWitnessed(c: Crypto, t: Text, s: System, r: Returned) {
    var l := s.ledger;
    match r.reply
    case AppendDone(x) =>
      && r.job.AppendJob? && SameContent(x, r.job.input) && x.key == r.job.input.key
      && 1 <= x.sequence <= |l.events| && Bare(l.events[x.sequence - 1]) == Bare(x) && Witnessed(c, l.events[x.sequence - 1])
    case Claim(Acquired(e)) =>
      && r.job.ClaimJob? && r.job.input.key.Some? && 1 <= e.intentSequence <= |l.events|
      && var x := l.events[e.intentSequence - 1];
         Witnessed(c, x) && Keyed(x, r.job.input.principal, Intent, r.job.input.key.value) && x.requestHash == r.job.input.requestHash
    case Claim(Existing(e)) =>
      && r.job.ClaimJob? && r.job.input.key.Some? && KeyOf(r.job.input) in l.executions && e.requestHash == r.job.input.requestHash
      && ExecutionAdvances(e, l.executions[KeyOf(r.job.input)])
    case Complete(e) =>
      && r.job.CompleteJob? && r.job.input.key.Some? && e.state == Completed && e.result == Some(r.job.result)
      && (KeyOf(r.job.input) !in s.raw ==> WitnessedOutcome(c, l, KeyOf(r.job.input), r.job.input.requestHash))
    case Resolve(x) =>
      && r.job.ResolveJob? && x.finalized && Conclusion(r.job.conclusion.target, x) == r.job.conclusion
      && (r.job.conclusion.target !in s.raw ==> WitnessedConclusion(c, t, l, r.job.conclusion.target, x))
    case _ => true
  }

  /** The outcome event that a completed row has is the witnessed one. */
  lemma OutcomeIsWitnessed(c: Crypto, l: Ledger, k: RetryKey, requestHash: Text)
    requires KeysUnique(l.events) && HasOutcome(l.events, k, requestHash) && WitnessedKey(c, l, k.principal, Outcome, k.key)
    ensures WitnessedOutcome(c, l, k, requestHash)
  {
    hide Witnessed;
    var i :| 0 <= i < |l.events| && Keyed(l.events[i], k.principal, Outcome, k.key) && l.events[i].requestHash == requestHash;
    KeyedIsWitnessed(c, l, k.principal, Outcome, k.key, i);
  }

  lemma CompletionMeans(c: Crypto, t: Text, s: System, r: Returned)
    requires LedgerInv(c, t, s.ledger) && ReplyOk(c, s.ledger, s.raw, r) && r.reply.Complete?
    ensures ReplyWitnessed(c, t, s, r)
  {
    hide ResolutionOk;
    hide ChainOk;
    hide KeysUnique;
    var k, e := KeyOf(r.job.input), r.reply.execution;
    assert ExecutionOk(s.ledger.events, k, e);
    if k !in s.raw { OutcomeIsWitnessed(c, s.ledger, k, e.requestHash); }
  }

  lemma ReplyMeans(c: Crypto, t: Text, s: System, r: Returned)
    requires LedgerInv(c, t, s.ledger) && ReplyOk(c, s.ledger, s.raw, r)
    ensures ReplyWitnessed(c, t, s, r)
  {
    hide ResolutionEvent;
    hide ResolutionKey;
    hide ChainOk;
    hide KeysUnique;
    var l := s.ledger;
    match r.reply {
      case AppendDone(x) => assert EventExtends(x, l.events[x.sequence - 1]);
      case Complete(_) => CompletionMeans(c, t, s, r);
      case Resolve(x) =>
        assert ResolutionOk(c, t, l, r.job.conclusion.target, x);
        EventStatesConclusion(c, t, l.events[x.auditSequence - 1], Conclusion(r.job.conclusion.target, x), l.executions[r.job.conclusion.target]);
        hide StatesConclusion;
      case _ =>
    }
  }

  /**
   * Every append, acquired claim, completed execution and finalized resolution that was ever returned has its
   * own event on the chain under a valid receipt, then and ever after: the appended record, the intent, the
   * outcome, and the event recording that verdict and evidence. The same holds of every row. Only keys that a
   * direct call completed or concluded without a witness are excepted.
   */
  lemma RepliesAreWitnessed(c: Crypto, t: Text, actions: seq<Action>)
    ensures var s := RunSystem(c, t, actions);
      && (forall i :: 0 <= i < |s.log| ==> ReplyWitnessed(c, t, s, s.log[i]))
      && (forall k :: k in s.ledger.executions && k !in s.raw ==> ExecutionWitnessed(c, s.ledger, k, s.ledger.executions[k]))
      && (forall k :: k in s.ledger.resolutions && k !in s.raw && s.ledger.resolutions[k].finalized ==>
            WitnessedConclusion(c, t, s.ledger, k, s.ledger.resolutions[k]))
  {
    hide Next;
    hide ResolutionEvent;
    hide ResolutionKey;
    hide Witnessed;
    EveryInterleaving(c, t, actions, 0);
    hide RunSystem;
    var s := RunSystem(c, t, actions);
    forall i | 0 <= i < |s.log| ensures ReplyWitnessed(c, t, s, s.log[i]) {
      assert ReplyOk(c, s.ledger, s.raw, s.log[i]);
      ReplyMeans(c, t, s, s.log[i]);
    }
    hide ReplyOk;
    hide ReplyWitnessed;
    forall k | k in s.ledger.resolutions && k !in s.raw && s.ledger.resolutions[k].finalized
      ensures WitnessedConclusion(c, t, s.ledger, k, s.ledger.resolutions[k])
    {
      assert ResolutionWitnessed(c, s.ledger, s.ledger.resolutions[k]);
      ConclusionIsWitnessed(c, t, s.ledger, k);
    }
  }

  lemma ConclusionIsWitnessed(c: Crypto, t: Text, l: Ledger, k: RetryKey)
    requires LedgerInv(c, t, l) && k in l.resolutions && l.resolutions[k].finalized && ResolutionWitnessed(c, l, l.resolutions[k])
    ensures WitnessedConclusion(c, t, l, k, l.resolutions[k])
  {
    hide ResolutionEvent;
    hide ResolutionKey;
    hide Witnessed;
    hide ChainOk;
    hide KeysUnique;
    hide ExecutionOk;
    hide StatesConclusion;
    var x := l.resolutions[k];
    assert ResolutionOk(c, t, l, k, x);
    EventStatesConclusion(c, t, l.events[x.auditSequence - 1], Conclusion(k, x), l.executions[k]);
  }

  /** Without direct settling calls, no key is excepted. */
  lemma {:induction false} HarmlessRunsExceptNothing(c: Crypto, t: Text, actions: seq<Action>)
    requires forall i :: 0 <= i < |actions| && actions[i].Direct? ==> Harmless(actions[i].op)
    ensures RunSystem(c, t, actions).raw == {}
    decreases |actions|
  {
    hide CallStep;
    hide Apply;
    if actions != [] { HarmlessRunsExceptNothing(c, t, actions[..|actions| - 1]); }
  }

  /** A receipt once attached is never replaced, in any continuation of any run. */
  lemma ReceiptsAreWriteOnce(c: Crypto, t: Text, actions: seq<Action>, j: nat, i: nat)
    requires j <= |actions| && i < |RunSystem(c, t, actions[..j]).ledger.events|
    ensures var l, n := RunSystem(c, t, actions[..j]).ledger, RunSystem(c, t, actions).ledger;
      && i < |n.events| && Bare(n.events[i]) == Bare(l.events[i])
      && (l.events[i].receipt.Some? ==> n.events[i].receipt == l.events[i].receipt)
  {
    hide Next;
    EveryInterleaving(c, t, actions, j);
    var l, n := RunSystem(c, t, actions[..j]).ledger, RunSystem(c, t, actions).ledger;
    assert EventExtends(l.events[i], n.events[i]);
  }

  /**
   * In every interleaving, the block clears only when a recovery call commits, and at that instant the
   * whole chain verifies and its head is the row that call had witnessed, under a valid receipt.
   */
  lemma BlockClearsOnlyByRecovery(c: Crypto, t: Text, s: System, a: Action)
    requires Blocked(s.ledger) && !Blocked(Next(c, t, s, a).ledger)
    ensures a.Advance? && a.id in s.calls && s.calls[a.id].job.RecoverJob?
    ensures s.calls[a.id].stage.Commit? && s.calls[a.id].stage.witnessed.Some?
    ensures VerifyFrom(c, s.ledger.events, 0) == Ok(|s.ledger.events|) && s.ledger.events != []
    ensures var head, row := s.ledger.events[|s.ledger.events| - 1], s.calls[a.id].stage.witnessed.value;
      head.sequence == row.sequence && head.eventHash == row.eventHash && Witnessed(c, head)
    ensures Next(c, t, s, a).ledger.events == s.ledger.events
  {
    hide VerifyFrom;
    hide ValidIdentifier;
    var l := s.ledger;
    match a {
      case Start(_, _) =>
      case Direct(op) => if DirectAllowed(op) { BlockPersists(c, t, l, op); }
      case Advance(id, env) =>
        if id in s.calls && IsRecoverCommit(s.calls[id]) {
          var row := s.calls[id].stage.witnessed.value;
          BlockClearsOnlyOnVerifiedHead(c, t, l, OpRecover(row.sequence, row.eventHash, env.now));
        } else if id in s.calls {
          OtherCallsKeepBlock(c, t, l, s.calls[id], env);
        }
    }
  }

  /** In every interleaving, a blocked stream does not grow. */
  lemma BlockedStreamCannotGrow(c: Crypto, t: Text, s: System, a: Action)
    requires SystemInv(c, t, s) && Blocked(s.ledger)
    ensures |Next(c, t, s, a).ledger.events| == |s.ledger.events|
  {
    hide LedgerInv;
    hide ValidIdentifier;
    hide VerifyFrom;
    hide ResolutionEvent;
    match a {
      case Start(_, _) =>
      case Direct(op) => BlockedChainCannotGrow(c, t, s.ledger, op);
      case Advance(id, env) => if id in s.calls { BlockedCallCannotGrow(c, t, s.ledger, s.calls[id], env); }
    }
  }

  lemma BlockedCallCannotGrow(c: Crypto, t: Text, l: Ledger, call: Call, env: Env)
    requires LedgerInv(c, t, l) && Blocked(l)
    ensures |CallStep(c, t, l, call, env).ledger.events| == |l.events|
  {
    hide LedgerInv;
    hide ValidIdentifier;
    hide VerifyFrom;
    hide ResolutionEvent;
    match call.stage {
      case Begin => if call.job.ResolveJob? { BlockedChainCannotGrow(c, t, l, OpBegin(call.job.conclusion, env.mint, env.now)); }
      case Attach(_, receipt) => BlockedChainCannotGrow(c, t, l, OpAttach(receipt));
      case Commit(_) =>
        if call.job.ClaimJob? { BlockedChainCannotGrow(c, t, l, OpClaim(call.job.input, env.mint)); }
      case _ =>
    }
  }

  predicate IsRecoverCommit(call: Call) {
    call.job.RecoverJob? && call.stage.Commit? && call.stage.witnessed.Some?
  }

  lemma OtherCallsKeepBlock(c: Crypto, t: Text, l: Ledger, call: Call, env: Env)
    requires Blocked(l) && !IsRecoverCommit(call)
    ensures Blocked(CallStep(c, t, l, call, env).ledger)
  {
    hide VerifyFrom;
    hide ValidIdentifier;
    hide ResolutionEvent;
    match call.stage {
      case Begin => if call.job.ResolveJob? { BlockPersists(c, t, l, OpBegin(call.job.conclusion, env.mint, env.now)); }
      case Commit(_) => if call.job.ClaimJob? { BlockPersists(c, t, l, OpClaim(call.job.input, env.mint)); }
      case _ =>
    }
  }
}
