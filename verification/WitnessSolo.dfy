/**
 * A witnessed call that nobody disturbs, with a working witness: what it answers and leaves is what the plain store
 * transaction answers and leaves, plus receipts (`WitnessedAudit`, crates/henosis-audit/src/lib.rs).
 */
module WitnessSolo {
  import opened Base
  import opened AuditChain
  import opened AuditLedger
  import opened AuditContracts
  import opened ResolutionRecord
  import opened WitnessProtocol

  // ----- a call left alone -----------------------------------------------------------------------------------------

  function Rank(stage: Stage): nat {
    match stage
    case Begin => 5
    case Load => 4
    case Witness(_) => 3
    case Attach(_, _) => 2
    case Check(_) => 1
    case Commit(_) => 0
  }

  datatype Ending = Ending(ledger: Ledger, reply: Reply)

  lemma StageDrops(c: Crypto, t: Text, l: Ledger, call: Call, env: Env)
    ensures var p := CallStep(c, t, l, call, env); p.next.Ok? ==> Rank(p.next.value) < Rank(call.stage)
  {
    hide BeginResolution;
    hide Append;
    hide AttachReceipt;
    hide ReceiptCheck;
    hide ClaimExecution;
    hide CompleteExecution;
    hide FinalizeResolution;
    hide Recover;
  }

  /** The witness answers for the row it is shown. */
  function EnvOf(call: Call, w: Record -> Receipt, m: Mint, now: int): Env {
    Env(if call.stage.Witness? then Some(w(call.stage.record)) else None, m, now)
  }

  /** The call runs to its reply without anybody else in between; it never takes more than six steps. */
  function Alone(c: Crypto, t: Text, l: Ledger, call: Call, w: Record -> Receipt, m: Mint, now: int): Ending
    decreases Rank(call.stage)
  {
    var p := CallStep(c, t, l, call, EnvOf(call, w, m, now));
    match p.next
    case Err(reply) => Ending(p.ledger, reply)
    case Ok(stage) =>
      StageDrops(c, t, l, call, EnvOf(call, w, m, now));
      Alone(c, t, p.ledger, Call(call.job, stage), w, m, now)
  }

  /** Every answer of the witness is a valid receipt for the row it was shown. */
  ghost predicate Working(c: Crypto, w: Record -> Receipt) {
    forall r :: ReceiptFor(c, r, w(r))
  }

  /** Receipts that are already attached name the configured witness. */
  ghost predicate KnownReceipts(c: Crypto, l: Ledger) {
    forall e :: e in l.events && e.receipt.Some? ==> Witnessed(c, e)
  }

  /** The rows after the witness round for one event. */
  function Sealed(l: Ledger, r: Record, w: Record -> Receipt): Ledger
    requires 1 <= r.sequence <= |l.events|
  {
    if r.receipt.Some? then l else l.(events := l.events[r.sequence - 1 := r.(receipt := Some(w(r)))])
  }

  lemma SealedMeans(c: Crypto, t: Text, l: Ledger, r: Record, w: Record -> Receipt)
    requires LedgerInv(c, t, l) && Working(c, w) && KnownReceipts(c, l) && 1 <= r.sequence <= |l.events| && l.events[r.sequence - 1] == r
    ensures var n := Sealed(l, r, w);
      && LedgerInv(c, t, n) && KnownReceipts(c, n) && EventsExtend(l.events, n.events) && |n.events| == |l.events|
      && n == l.(events := n.events) && Witnessed(c, n.events[r.sequence - 1]) && Bare(n.events[r.sequence - 1]) == Bare(r)
  {
    if r.receipt.None? {
      AttachKeeps(c, t, l, w(r));
      assert ReceiptFor(c, r, w(r));
      assert Attachable(l, w(r));
      assert AttachReceipt(c, l, w(r)).ledger == Sealed(l, r, w);
      hide LedgerInv;
      var n := Sealed(l, r, w);
      forall e | e in n.events && e.receipt.Some? ensures Witnessed(c, e) {
        if e != n.events[r.sequence - 1] { assert e in l.events; }
      }
    } else {
      hide LedgerInv;
      assert r in l.events;
    }
  }

  /** The witness round: with a working witness it ends at the commit, with the row sealed. */
  lemma AloneRound(c: Crypto, t: Text, l: Ledger, job: Job, r: Record, w: Record -> Receipt, m: Mint, now: int)
    requires LedgerInv(c, t, l) && Working(c, w) && KnownReceipts(c, l) && 1 <= r.sequence <= |l.events| && l.events[r.sequence - 1] == r
    ensures var n := Sealed(l, r, w);
      Alone(c, t, l, Call(job, Witness(r)), w, m, now) == Alone(c, t, n, Call(job, Commit(Some(n.events[r.sequence - 1]))), w, m, now)
  {
    SealedMeans(c, t, l, r, w);
    if r.receipt.Some? {
      WitnessedAlready(c, t, l, job, r, w, m, now);
    } else {
      WitnessedAnew(c, t, l, job, r, w, m, now);
    }
  }

  lemma WitnessedAlready(c: Crypto, t: Text, l: Ledger, job: Job, r: Record, w: Record -> Receipt, m: Mint, now: int)
    requires r.receipt.Some? && Witnessed(c, r)
    ensures Alone(c, t, l, Call(job, Witness(r)), w, m, now) == Alone(c, t, l, Call(job, Commit(Some(r))), w, m, now)
  {
    var call := Call(job, Witness(r));
    assert CallStep(c, t, l, call, EnvOf(call, w, m, now)) == Progress(l, Ok(Commit(Some(r))));
    hide CallStep;
  }

  lemma WitnessedAnew(c: Crypto, t: Text, l: Ledger, job: Job, r: Record, w: Record -> Receipt, m: Mint, now: int)
    requires r.receipt.None? && ReceiptFor(c, r, w(r)) && 1 <= r.sequence <= |l.events| && l.events[r.sequence - 1] == r
    ensures var n := Sealed(l, r, w);
      Alone(c, t, l, Call(job, Witness(r)), w, m, now) == Alone(c, t, n, Call(job, Commit(Some(n.events[r.sequence - 1]))), w, m, now)
  {
    var n := Sealed(l, r, w);
    var ask, put, look := Call(job, Witness(r)), Call(job, Attach(r, w(r))), Call(job, Check(r));
    assert CallStep(c, t, l, ask, EnvOf(ask, w, m, now)) == Progress(l, Ok(Attach(r, w(r))));
    assert Attachable(l, w(r));
    assert CallStep(c, t, l, put, EnvOf(put, w, m, now)) == Progress(n, Ok(Check(r)));
    assert n.events[r.sequence - 1] == r.(receipt := Some(w(r)));
    assert CallStep(c, t, n, look, EnvOf(look, w, m, now)) == Progress(n, Ok(Commit(Some(n.events[r.sequence - 1]))));
    hide *;
    AloneStep(c, t, l, ask, w, m, now);
    AloneStep(c, t, l, put, w, m, now);
    AloneStep(c, t, n, look, w, m, now);
  }

  /** The same tables, the same events, at most with more receipts. */
  ghost predicate SameUpToReceipts(a: Ledger, b: Ledger) {
    b == a.(events := b.events) && |a.events| == |b.events| && EventsExtend(a.events, b.events)
  }

  lemma AloneStep(c: Crypto, t: Text, l: Ledger, call: Call, w: Record -> Receipt, m: Mint, now: int)
    ensures var p := CallStep(c, t, l, call, EnvOf(call, w, m, now));
      Alone(c, t, l, call, w, m, now) ==
        match p.next case Err(reply) => Ending(p.ledger, reply) case Ok(stage) => Alone(c, t, p.ledger, Call(call.job, stage), w, m, now)
  {
    hide CallStep;
  }

  /** Appending and witnessing, up to the commit. */
  lemma AloneLoad(c: Crypto, t: Text, l: Ledger, job: Job, i: EventInput, w: Record -> Receipt, m: Mint, now: int) returns (n: Ledger, row: Record)
    requires LedgerInv(c, t, l) && Working(c, w) && KnownReceipts(c, l)
    requires (job.AppendJob? || job.ClaimJob? || job.CompleteJob?) && job.input == i && Append(c, t, l, i, m).result.Ok?
    ensures var s := Append(c, t, l, i, m);
      && LedgerInv(c, t, n) && SameUpToReceipts(s.ledger, n) && s.result.value.sequence == row.sequence && 1 <= row.sequence <= |n.events|
      && n.events[row.sequence - 1] == row && Witnessed(c, row) && Bare(row) == Bare(s.result.value)
      && Alone(c, t, l, Call(job, Load), w, m, now) == Alone(c, t, n, Call(job, Commit(Some(row))), w, m, now)
  {
    hide *;
    var s := Append(c, t, l, i, m);
    var r := s.result.value;
    AppendKeeps(c, t, l, i, m);
    AppendedRow(c, t, l, i, m);
    LoadStepped(c, t, l, job, i, w, m, now);
    AloneStep(c, t, l, Call(job, Load), w, m, now);
    AloneRound(c, t, s.ledger, job, r, w, m, now);
    SealedMeans(c, t, s.ledger, r, w);
    n := Sealed(s.ledger, r, w);
    row := n.events[r.sequence - 1];
    SameSequence(row, r);
    SameFrom(s.ledger, n);
  }

  lemma SameSequence(a: Record, b: Record)
    requires Bare(a) == Bare(b)
    ensures a.sequence == b.sequence && a.createdAt == b.createdAt && a.requestHash == b.requestHash
  {
  }

  lemma SameFrom(a: Ledger, b: Ledger)
    requires b == a.(events := b.events) && |a.events| == |b.events| && EventsExtend(a.events, b.events)
    ensures SameUpToReceipts(a, b)
  {
  }

  lemma LoadStepped(c: Crypto, t: Text, l: Ledger, job: Job, i: EventInput, w: Record -> Receipt, m: Mint, now: int)
    requires (job.AppendJob? || job.ClaimJob? || job.CompleteJob?) && job.input == i && Append(c, t, l, i, m).result.Ok?
    ensures var s := Append(c, t, l, i, m); var call := Call(job, Load);
      CallStep(c, t, l, call, EnvOf(call, w, m, now)) == Progress(s.ledger, Ok(Witness(s.result.value)))
  {
    hide Append;
  }

  /** The appended or recorded row, at its place in a stream whose receipts are still known. */
  lemma AppendedRow(c: Crypto, t: Text, l: Ledger, i: EventInput, m: Mint)
    requires LedgerInv(c, t, l) && KnownReceipts(c, l) && Append(c, t, l, i, m).result.Ok?
    ensures var s := Append(c, t, l, i, m); var r := s.result.value;
      KnownReceipts(c, s.ledger) && 1 <= r.sequence <= |s.ledger.events| && s.ledger.events[r.sequence - 1] == r
  {
    hide LedgerInv;
    hide Append;
    AppendMeets(c, t, l, i, m);
    var s := Append(c, t, l, i, m);
    assert Written(l, s.ledger.events, i, s.result.value) && (!Recorded(l, i) ==> s.result.value.receipt == None);
    hide AppendContract;
    StillKnown(c, l, s.ledger, i, s.result.value);
  }

  lemma StillKnown(c: Crypto, l: Ledger, n: Ledger, i: EventInput, r: Record)
    requires KnownReceipts(c, l) && Written(l, n.events, i, r) && (!Recorded(l, i) ==> r.receipt == None)
    ensures KnownReceipts(c, n)
  {
    hide Witnessed;
    forall e | e in n.events && e.receipt.Some? ensures Witnessed(c, e) {
      assert e in l.events || e == r;
    }
  }

  /** Left alone, a witnessed append answers what the plain append answers, with the record under a valid receipt. */
  lemma AloneAppend(c: Crypto, t: Text, l: Ledger, i: EventInput, w: Record -> Receipt, m: Mint, now: int)
    requires LedgerInv(c, t, l) && Working(c, w) && KnownReceipts(c, l)
    ensures var s := Append(c, t, l, i, m); var o := Alone(c, t, l, Call(AppendJob(i), Begin), w, m, now);
      if s.result.Err? then o == Ending(l, Failed(Store(s.result.error)))
      else o.reply.AppendDone? && Bare(o.reply.record) == Bare(s.result.value) && Witnessed(c, o.reply.record) && SameUpToReceipts(s.ledger, o.ledger)
  {
    hide *;
    var job := AppendJob(i);
    var s := Append(c, t, l, i, m);
    AppendBegins(c, t, l, job, i, w, m, now);
    AloneStep(c, t, l, Call(job, Begin), w, m, now);
    if s.result.Err? {
      LoadRefused(c, t, l, job, i, w, m, now);
      AloneStep(c, t, l, Call(job, Load), w, m, now);
    } else {
      var n, row := AloneLoad(c, t, l, job, i, w, m, now);
      AppendCommits(c, t, n, i, row, w, m, now);
      AloneStep(c, t, n, Call(job, Commit(Some(row))), w, m, now);
    }
  }

  /** A call that starts by appending. */
  lemma AppendBegins(c: Crypto, t: Text, l: Ledger, job: Job, i: EventInput, w: Record -> Receipt, m: Mint, now: int)
    requires job == AppendJob(i) || (job == ClaimJob(i) && ValidExecutionEvent(t, i, Intent) && KeyOf(i) !in l.executions)
    ensures var call := Call(job, Begin); CallStep(c, t, l, call, EnvOf(call, w, m, now)) == Progress(l, Ok(Load))
  {
    hide ValidInput;
  }

  lemma LoadRefused(c: Crypto, t: Text, l: Ledger, job: Job, i: EventInput, w: Record -> Receipt, m: Mint, now: int)
    requires (job.AppendJob? || job.ClaimJob? || job.CompleteJob?) && job.input == i && Append(c, t, l, i, m).result.Err?
    ensures var call := Call(job, Load);
      CallStep(c, t, l, call, EnvOf(call, w, m, now)) == Progress(l, Err(Failed(Store(Append(c, t, l, i, m).result.error))))
  {
    hide ValidInput;
    hide AppendIn;
  }

  lemma AppendCommits(c: Crypto, t: Text, l: Ledger, i: EventInput, row: Record, w: Record -> Receipt, m: Mint, now: int)
    ensures var call := Call(AppendJob(i), Commit(Some(row))); CallStep(c, t, l, call, EnvOf(call, w, m, now)) == Progress(l, Err(AppendDone(row)))
  {
  }

  /** The event that a witnessed call appended is the one that a second append finds. */
  lemma FoundAgain(c: Crypto, t: Text, l: Ledger, i: EventInput, m: Mint, n: Ledger, row: Record)
    requires LedgerInv(c, t, l) && LedgerInv(c, t, n) && i.key.Some?
    requires Append(c, t, l, i, m).result.Ok? && SameUpToReceipts(Append(c, t, l, i, m).ledger, n)
    requires 1 <= row.sequence <= |n.events| && n.events[row.sequence - 1] == row && Bare(row) == Bare(Append(c, t, l, i, m).result.value)
    ensures var s := Append(c, t, l, i, m);
      && !Blocked(l) && s.ledger == l.(events := s.ledger.events) && ValidInput(t, i)
      && AppendIn(c, t, l.events, i, m) == Ok(Appended(s.ledger.events, s.result.value))
      && AppendIn(c, t, n.events, i, m) == Ok(Appended(n.events, row))
  {
    var s := Append(c, t, l, i, m);
    AppendMeets(c, t, l, i, m);
    assert Written(l, s.ledger.events, i, s.result.value) && s.ledger == l.(events := s.ledger.events) && !Blocked(l);
    hide AppendContract;
    assert Keyed(row, i.principal, i.phase, i.key.value) && SameContent(row, i);
    assert row in n.events;
    KeyHolderIsUnique(n.events, i);
    hide LedgerInv;
    hide ValidInput;
    assert AppendIn(c, t, n.events, i, m) == Ok(Appended(n.events, row));
    hide FindKeyed;
    hide Written;
  }

  lemma ClaimAfterLoad(c: Crypto, t: Text, l: Ledger, i: EventInput, m: Mint, n: Ledger, row: Record)
    requires LedgerInv(c, t, l) && LedgerInv(c, t, n) && ValidExecutionEvent(t, i, Intent) && i.key.Some? && KeyOf(i) !in l.executions
    requires Append(c, t, l, i, m).result.Ok? && SameUpToReceipts(Append(c, t, l, i, m).ledger, n)
    requires 1 <= row.sequence <= |n.events| && n.events[row.sequence - 1] == row && Bare(row) == Bare(Append(c, t, l, i, m).result.value)
    ensures var plain, late := ClaimExecution(c, t, l, i, m), ClaimExecution(c, t, n, i, m);
      plain.result.Ok? && late.result == plain.result && SameUpToReceipts(plain.ledger, late.ledger)
  {
    hide LedgerInv;
    hide Append;
    hide AppendIn;
    hide ValidInput;
    FoundAgain(c, t, l, i, m, n, row);
    SameSequence(row, Append(c, t, l, i, m).result.value);
    hide EventsExtend;
  }

  /** The reply that a plain claim would have given. */
  function PlainReply(r: Result<ExecutionClaim, AuditError>): Reply {
    match r case Ok(x) => Claim(x) case Err(e) => Failed(Store(e))
  }

  /**
   * Left alone with a working witness, a witnessed claim answers exactly what the plain claim answers, whether
   * acquired, existing or refused, and leaves the same rows, plus the receipt on its intent.
   */
  lemma AloneClaim(c: Crypto, t: Text, l: Ledger, i: EventInput, w: Record -> Receipt, m: Mint, now: int)
    requires LedgerInv(c, t, l) && Working(c, w) && KnownReceipts(c, l)
    ensures var plain := ClaimExecution(c, t, l, i, m); var o := Alone(c, t, l, Call(ClaimJob(i), Begin), w, m, now);
      o.reply == PlainReply(plain.result) && SameUpToReceipts(plain.ledger, o.ledger)
  {
    hide *;
    var job := ClaimJob(i);
    if ValidExecutionEvent(t, i, Intent) && IsNew(l, i) {
      NewClaim(c, t, l, i, w, m, now);
    } else {
      NotNew(t, l, i);
      ClaimAtOnce(c, t, l, i, w, m, now);
    }
  }

  ghost predicate IsNew(l: Ledger, i: EventInput) {
    i.key.Some? && KeyOf(i) !in l.executions
  }

  lemma NotNew(t: Text, l: Ledger, i: EventInput)
    requires !(ValidExecutionEvent(t, i, Intent) && IsNew(l, i))
    ensures !(ValidExecutionEvent(t, i, Intent) && i.key.Some? && KeyOf(i) !in l.executions)
  {
    hide ValidInput;
  }

  lemma NewClaim(c: Crypto, t: Text, l: Ledger, i: EventInput, w: Record -> Receipt, m: Mint, now: int)
    requires LedgerInv(c, t, l) && Working(c, w) && KnownReceipts(c, l) && ValidExecutionEvent(t, i, Intent) && IsNew(l, i)
    ensures var plain := ClaimExecution(c, t, l, i, m); var o := Alone(c, t, l, Call(ClaimJob(i), Begin), w, m, now);
      o.reply == PlainReply(plain.result) && SameUpToReceipts(plain.ledger, o.ledger)
  {
    assert i.key.Some? && KeyOf(i) !in l.executions;
    hide *;
    var job := ClaimJob(i);
    AppendBegins(c, t, l, job, i, w, m, now);
    AloneStep(c, t, l, Call(job, Begin), w, m, now);
    var s := Append(c, t, l, i, m);
    if s.result.Ok? {
      var n, row := AloneLoad(c, t, l, job, i, w, m, now);
      ClaimAfterLoad(c, t, l, i, m, n, row);
      ClaimCommitted(c, t, n, i, Some(row), w, m, now);
      AloneStep(c, t, n, Call(job, Commit(Some(row))), w, m, now);
    } else {
      LoadRefused(c, t, l, job, i, w, m, now);
      AloneStep(c, t, l, Call(job, Load), w, m, now);
      ClaimRefused(c, t, l, i, m);
      Refused(ClaimExecution(c, t, l, i, m).result, s.result.error);
      SameAsItself(l);
    }
  }

  lemma Refused(r: Result<ExecutionClaim, AuditError>, e: AuditError)
    requires r == Err(e)
    ensures PlainReply(r) == Failed(Store(e))
  {
  }

  lemma SameAsItself(l: Ledger)
    ensures SameUpToReceipts(l, l)
  {
  }

  lemma ClaimCommitted(c: Crypto, t: Text, l: Ledger, i: EventInput, row: Option<Record>, w: Record -> Receipt, m: Mint, now: int)
    ensures var call := Call(ClaimJob(i), Commit(row)); var s := ClaimExecution(c, t, l, i, m);
      CallStep(c, t, l, call, EnvOf(call, w, m, now)) == Progress(s.ledger, Err(PlainReply(s.result)))
  {
    hide ClaimExecution;
  }

  lemma ClaimRefused(c: Crypto, t: Text, l: Ledger, i: EventInput, m: Mint)
    requires ValidExecutionEvent(t, i, Intent) && KeyOf(i) !in l.executions && Append(c, t, l, i, m).result.Err?
    ensures var plain, s := ClaimExecution(c, t, l, i, m), Append(c, t, l, i, m);
      plain.ledger == l && s.ledger == l && plain.result == Err(s.result.error)
  {
    hide ValidInput;
    hide AppendIn;
  }

  lemma ClaimAtOnce(c: Crypto, t: Text, l: Ledger, i: EventInput, w: Record -> Receipt, m: Mint, now: int)
    requires !(ValidExecutionEvent(t, i, Intent) && i.key.Some? && KeyOf(i) !in l.executions)
    ensures var plain := ClaimExecution(c, t, l, i, m); var o := Alone(c, t, l, Call(ClaimJob(i), Begin), w, m, now);
      o == Ending(l, PlainReply(plain.result)) && plain.ledger == l && SameUpToReceipts(l, l)
  {
    hide ValidInput;
    hide AppendIn;
    AloneStep(c, t, l, Call(ClaimJob(i), Begin), w, m, now);
    AloneStep(c, t, l, Call(ClaimJob(i), Commit(None)), w, m, now);
    hide Alone;
  }

  // ----- completion, conclusion, recovery -----------------------------------------------------------------------------

  lemma CompleteBegins(c: Crypto, t: Text, l: Ledger, i: EventInput, result: Text, w: Record -> Receipt, m: Mint, now: int)
    requires ValidExecutionEvent(t, i, Outcome) && KeyOf(i) in l.executions && l.executions[KeyOf(i)].requestHash == i.requestHash
    ensures var call := Call(CompleteJob(i, result), Begin);
      CallStep(c, t, l, call, EnvOf(call, w, m, now)) == Progress(l, Ok(if l.executions[KeyOf(i)].state == Claimed then Load else Commit(None)))
  {
    hide ValidInput;
  }

  lemma CompleteCommitted(c: Crypto, t: Text, l: Ledger, i: EventInput, result: Text, row: Option<Record>, w: Record -> Receipt, m: Mint, now: int)
    ensures var call := Call(CompleteJob(i, result), Commit(row)); var s := CompleteExecution(c, t, l, i, result, m, now);
      CallStep(c, t, l, call, EnvOf(call, w, m, now))
        == Progress(s.ledger, Err(match s.result case Ok(x) => Complete(x) case Err(e) => Failed(Store(e))))
  {
    hide CompleteExecution;
  }

  /** What a successful plain completion presupposes. */
  lemma CompletionNeeds(c: Crypto, t: Text, l: Ledger, i: EventInput, result: Text, m: Mint, now: int)
    requires CompleteExecution(c, t, l, i, result, m, now).result.Ok?
    ensures ValidExecutionEvent(t, i, Outcome) && i.key.Some? && KeyOf(i) in l.executions && l.executions[KeyOf(i)].requestHash == i.requestHash
    ensures l.executions[KeyOf(i)].state == Claimed ==> Append(c, t, l, i, m).result.Ok?
    ensures l.executions[KeyOf(i)].state != Claimed ==> CompleteExecution(c, t, l, i, result, m, now).ledger == l
  {
    hide ValidInput;
    hide AppendIn;
  }

  lemma CompleteAfterLoad(c: Crypto, t: Text, l: Ledger, i: EventInput, result: Text, m: Mint, now: int, n: Ledger, row: Record)
    requires LedgerInv(c, t, l) && LedgerInv(c, t, n) && CompleteExecution(c, t, l, i, result, m, now).result.Ok?
    requires i.key.Some? && KeyOf(i) in l.executions && l.executions[KeyOf(i)].state == Claimed
    requires Append(c, t, l, i, m).result.Ok? && SameUpToReceipts(Append(c, t, l, i, m).ledger, n)
    requires 1 <= row.sequence <= |n.events| && n.events[row.sequence - 1] == row && Bare(row) == Bare(Append(c, t, l, i, m).result.value)
    ensures var plain, late := CompleteExecution(c, t, l, i, result, m, now), CompleteExecution(c, t, n, i, result, m, now);
      late.result == plain.result && SameUpToReceipts(plain.ledger, late.ledger)
  {
    hide LedgerInv;
    hide Append;
    hide AppendIn;
    hide ValidInput;
    FoundAgain(c, t, l, i, m, n, row);
    hide EventsExtend;
  }

  /** Left alone with a working witness, a completion that the plain store accepts succeeds alike, with its outcome sealed. */
  lemma AloneComplete(c: Crypto, t: Text, l: Ledger, i: EventInput, result: Text, w: Record -> Receipt, m: Mint, now: int)
    requires LedgerInv(c, t, l) && Working(c, w) && KnownReceipts(c, l) && CompleteExecution(c, t, l, i, result, m, now).result.Ok?
    ensures var plain := CompleteExecution(c, t, l, i, result, m, now); var o := Alone(c, t, l, Call(CompleteJob(i, result), Begin), w, m, now);
      o.reply == Complete(plain.result.value) && SameUpToReceipts(plain.ledger, o.ledger)
  {
    hide *;
    var job := CompleteJob(i, result);
    CompletionNeeds(c, t, l, i, result, m, now);
    CompleteBegins(c, t, l, i, result, w, m, now);
    AloneStep(c, t, l, Call(job, Begin), w, m, now);
    if l.executions[KeyOf(i)].state == Claimed {
      var n, row := AloneLoad(c, t, l, job, i, w, m, now);
      CompleteAfterLoad(c, t, l, i, result, m, now, n, row);
      CompleteCommitted(c, t, n, i, result, Some(row), w, m, now);
      AloneStep(c, t, n, Call(job, Commit(Some(row))), w, m, now);
    } else {
      CompleteCommitted(c, t, l, i, result, None, w, m, now);
      AloneStep(c, t, l, Call(job, Commit(None)), w, m, now);
      SameAsItself(l);
    }
  }

  lemma ResolveBegins(c: Crypto, t: Text, l: Ledger, i: ResolutionInput, w: Record -> Receipt, m: Mint, now: int)
    ensures var call := Call(ResolveJob(i), Begin); var s := BeginResolution(c, t, l, i, m, now);
      CallStep(c, t, l, call, EnvOf(call, w, m, now)) ==
        Progress(s.ledger, match s.result
          case Err(e) => Err(Failed(Store(e)))
          case Ok(r) => Ok(if r.resolution.finalized then Commit(None) else Witness(r.record)))
  {
    hide BeginResolution;
  }

  lemma ResolveCommitted(c: Crypto, t: Text, l: Ledger, i: ResolutionInput, row: Option<Record>, w: Record -> Receipt, m: Mint, now: int)
    ensures var call := Call(ResolveJob(i), Commit(row)); var s := FinalizeResolution(t, l, i, true);
      CallStep(c, t, l, call, EnvOf(call, w, m, now)) == Progress(s.ledger, Err(match s.result case Ok(x) => Resolve(x) case Err(e) => Failed(Store(e))))
  {
    hide FinalizeResolution;
  }

  /** The reservation, in a stream whose receipts are still known. */
  lemma ReservedRow(c: Crypto, t: Text, l: Ledger, i: ResolutionInput, m: Mint, now: int)
    requires LedgerInv(c, t, l) && KnownReceipts(c, l) && BeginResolution(c, t, l, i, m, now).result.Ok?
    ensures var s := BeginResolution(c, t, l, i, m, now); var x, r := s.result.value.resolution, s.result.value.record;
      && LedgerInv(c, t, s.ledger) && KnownReceipts(c, s.ledger)
      && i.target in s.ledger.resolutions && s.ledger.resolutions[i.target] == x && Conclusion(i.target, x) == i && GoodConclusion(t, i)
      && 1 <= x.auditSequence <= |s.ledger.events| && s.ledger.events[x.auditSequence - 1] == r && r.sequence == x.auditSequence
  {
    hide LedgerInv;
    hide BeginResolution;
    hide StatesConclusion;
    hide GoodConclusion;
    hide KnownReceipts;
    BeginKeeps(c, t, l, i, m, now);
    BeginMeets(c, t, l, i, m, now);
    BeginKnown(c, t, l, i, m, now);
    var s := BeginResolution(c, t, l, i, m, now);
    PlaceOf(c, t, s.ledger, s.result.value.resolution.auditSequence - 1);
  }

  lemma BeginKnown(c: Crypto, t: Text, l: Ledger, i: ResolutionInput, m: Mint, now: int)
    requires LedgerInv(c, t, l) && KnownReceipts(c, l)
    ensures KnownReceipts(c, BeginResolution(c, t, l, i, m, now).ledger)
  {
    hide ResolutionEvent;
    hide ValidInput;
    hide ValidResolutionInput;
    if i.target !in l.resolutions && i.target in l.executions {
      var event := ResolutionEvent(c, t, i, l.executions[i.target]);
      AppendInMeets(c, t, l, event, m);
      var a := AppendIn(c, t, l.events, event, m);
      if a.Ok? {
        assert !Recorded(l, event) ==> a.value.record.receipt == None;
        hide AppendIn;
        hide LedgerInv;
        StillKnown(c, l, l.(events := a.value.events), event, a.value.record);
      }
    }
  }

  /** With its event sealed, the reserved conclusion becomes final. */
  lemma SealedConcludes(c: Crypto, t: Text, l: Ledger, i: ResolutionInput)
    requires i.target in l.resolutions && GoodConclusion(t, i)
    requires var x := l.resolutions[i.target];
      Conclusion(i.target, x) == i && 1 <= x.auditSequence <= |l.events| && (x.finalized || Witnessed(c, l.events[x.auditSequence - 1]))
    ensures var s := FinalizeResolution(t, l, i, true); var x := l.resolutions[i.target].(finalized := true);
      s.result == Ok(x) && s.ledger == l.(resolutions := l.resolutions[i.target := x])
  {
    FinalizeMeets(t, l, i, true);
    hide GoodConclusion;
    hide FinalizeResolution;
  }

  /** Left alone with a working witness, a conclusion that can be reserved becomes final, and any other is refused alike. */
  lemma AloneResolve(c: Crypto, t: Text, l: Ledger, i: ResolutionInput, w: Record -> Receipt, m: Mint, now: int)
    requires LedgerInv(c, t, l) && Working(c, w) && KnownReceipts(c, l)
    ensures var s := BeginResolution(c, t, l, i, m, now); var o := Alone(c, t, l, Call(ResolveJob(i), Begin), w, m, now);
      if s.result.Err? then o.reply == Failed(Store(s.result.error))
      else
        var x := s.result.value.resolution.(finalized := true);
        && o.reply == Resolve(x)
        && SameUpToReceipts(s.ledger.(resolutions := s.ledger.resolutions[i.target := x]), o.ledger)
  {
    hide *;
    var job := ResolveJob(i);
    var s := BeginResolution(c, t, l, i, m, now);
    ResolveBegins(c, t, l, i, w, m, now);
    AloneStep(c, t, l, Call(job, Begin), w, m, now);
    if s.result.Ok? {
      ReservedRow(c, t, l, i, m, now);
      var x, r := s.result.value.resolution, s.result.value.record;
      if x.finalized {
        SealedConcludes(c, t, s.ledger, i);
        ResolveCommitted(c, t, s.ledger, i, None, w, m, now);
        AloneStep(c, t, s.ledger, Call(job, Commit(None)), w, m, now);
        SameAsItself(s.ledger.(resolutions := s.ledger.resolutions[i.target := x.(finalized := true)]));
      } else {
        AloneRound(c, t, s.ledger, job, r, w, m, now);
        SealedMeans(c, t, s.ledger, r, w);
        var n := Sealed(s.ledger, r, w);
        SealedConcludes(c, t, n, i);
        ResolveCommitted(c, t, n, i, Some(n.events[r.sequence - 1]), w, m, now);
        AloneStep(c, t, n, Call(job, Commit(Some(n.events[r.sequence - 1]))), w, m, now);
        SameResolved(s.ledger, n, i.target, x.(finalized := true));
      }
    }
  }

  lemma SameResolved(a: Ledger, b: Ledger, k: RetryKey, x: Resolution)
    requires b == a.(events := b.events) && |a.events| == |b.events| && EventsExtend(a.events, b.events)
    ensures SameUpToReceipts(a.(resolutions := a.resolutions[k := x]), b.(resolutions := b.resolutions[k := x]))
  {
    hide EventsExtend;
  }

  lemma RecoverBegins(c: Crypto, t: Text, l: Ledger, w: Record -> Receipt, m: Mint, now: int)
    requires ValidIdentifier(t) && l.stream.Some? && l.events != []
    ensures var call := Call(RecoverJob, Begin); CallStep(c, t, l, call, EnvOf(call, w, m, now)) == Progress(l, Ok(Load))
    ensures var call := Call(RecoverJob, Load); CallStep(c, t, l, call, EnvOf(call, w, m, now)) == Progress(l, Ok(Witness(l.events[|l.events| - 1])))
  {
    hide ValidIdentifier;
  }

  lemma RecoverCommitted(c: Crypto, t: Text, l: Ledger, row: Record, w: Record -> Receipt, m: Mint, now: int)
    ensures var call := Call(RecoverJob, Commit(Some(row))); var s := Recover(c, t, l, row.sequence, row.eventHash, now);
      CallStep(c, t, l, call, EnvOf(call, w, m, now)) == Progress(s.ledger, Err(match s.result case Ok(x) => Recovered(x) case Err(e) => Failed(Store(e))))
  {
    hide Recover;
  }

  /** A sealed head of a coherent stream lets it recover. */
  lemma SealedRecovers(c: Crypto, t: Text, l: Ledger, now: int)
    requires LedgerInv(c, t, l) && ValidIdentifier(t) && ValidIdentifier(c.keyId) && l.stream.Some? && l.events != []
    requires Witnessed(c, l.events[|l.events| - 1])
    ensures var head := l.events[|l.events| - 1]; var s := Recover(c, t, l, head.sequence, head.eventHash, now);
      head.sequence == |l.events| && s.result == Ok(Recovery(|l.events|, |l.events|)) && !Blocked(s.ledger) && s.ledger == l.(stream := s.ledger.stream)
  {
    var head := l.events[|l.events| - 1];
    SequenceIsPosition(c, t, l.events, |l.events| - 1);
    assert Linked(c, l.events);
    RecoverMeets(c, t, l, head.sequence, head.eventHash, now);
    hide LedgerInv;
    hide Linked;
    hide Recover;
    hide ValidIdentifier;
  }

  /** Left alone with a working witness, recovery opens every blocked stream that has events. */
  lemma AloneRecover(c: Crypto, t: Text, l: Ledger, w: Record -> Receipt, m: Mint, now: int)
    requires LedgerInv(c, t, l) && Working(c, w) && KnownReceipts(c, l)
    requires ValidIdentifier(t) && ValidIdentifier(c.keyId) && l.stream.Some? && l.events != []
    ensures var o := Alone(c, t, l, Call(RecoverJob, Begin), w, m, now);
      o.reply == Recovered(Recovery(|l.events|, |l.events|)) && !Blocked(o.ledger) && |o.ledger.events| == |l.events|
  {
    hide *;
    var head := l.events[|l.events| - 1];
    RecoverBegins(c, t, l, w, m, now);
    AloneStep(c, t, l, Call(RecoverJob, Begin), w, m, now);
    AloneStep(c, t, l, Call(RecoverJob, Load), w, m, now);
    PlaceOf(c, t, l, |l.events| - 1);
    AloneRound(c, t, l, RecoverJob, head, w, m, now);
    SealedMeans(c, t, l, head, w);
    var n := Sealed(l, head, w);
    SealedRecovers(c, t, n, now);
    RecoverCommitted(c, t, n, n.events[head.sequence - 1], w, m, now);
    AloneStep(c, t, n, Call(RecoverJob, Commit(Some(n.events[head.sequence - 1]))), w, m, now);
  }

  lemma PlaceOf(c: Crypto, t: Text, l: Ledger, i: nat)
    requires LedgerInv(c, t, l) && i < |l.events|
    ensures l.events[i].sequence == i + 1
  {
    SequenceIsPosition(c, t, l.events, i);
  }

  /** Without a block record or without events there is nothing to recover, and nothing is asked or written. */
  lemma AloneRecoverRefused(c: Crypto, t: Text, l: Ledger, w: Record -> Receipt, m: Mint, now: int)
    requires !ValidIdentifier(t) || l.stream.None? || l.events == []
    ensures Alone(c, t, l, Call(RecoverJob, Begin), w, m, now) == Ending(l, Failed(Store(InvalidInput)))
  {
    AloneStep(c, t, l, Call(RecoverJob, Begin), w, m, now);
    AloneStep(c, t, l, Call(RecoverJob, Load), w, m, now);
    hide Alone;
    hide ValidIdentifier;
  }
}
