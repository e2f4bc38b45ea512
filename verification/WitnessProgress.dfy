/**
 * What the witnessed calls answer (`WitnessedAudit`, crates/henosis-audit/src/lib.rs): each commit answers what the
 * store's contract says, every stored row was acquired by exactly one caller, and a failed call writes nothing.
 */
module WitnessProgress {
  import opened Base
  import opened AuditChain
  import opened AuditLedger
  import opened AuditContracts
  import opened ResolutionRecord
  import opened WitnessProtocol

  // ----- what a commit answers ---------------------------------------------------------------------------------

  /** The reply that a store result becomes. */
  ghost predicate Answers<T(!new)>(reply: Reply, r: Result<T, AuditError>, wrap: T -> Reply) {
    reply == match r case Ok(v) => wrap(v) case Err(e) => Failed(Store(e))
  }

  /** The commit of a call gives exactly the answer that the store's contract allows for the rows before and after it. */
  ghost predicate CommitContract(c: Crypto, t: Text, l: Ledger, call: Call, env: Env, n: Ledger, reply: Reply)
    requires call.stage.Commit?
  {
    match call.job
    case AppendJob(_) => n == l && (call.stage.witnessed.Some? ==> reply == AppendDone(call.stage.witnessed.value))
    case ClaimJob(i) => exists r :: ClaimContract(c, t, l, i, env.mint, n, r) && Answers(reply, r, x => Claim(x))
    case CompleteJob(i, result) => exists r :: CompleteContract(t, l, i, result, env.now, n, r) && Answers(reply, r, x => Complete(x))
    case ResolveJob(i) => exists r :: FinalizeContract(t, l, i, true, n, r) && Answers(reply, r, x => Resolve(x))
    case RecoverJob =>
      call.stage.witnessed.Some? ==>
        var row := call.stage.witnessed.value;
        exists r :: RecoverContract(c, t, l, row.sequence, row.eventHash, n, r) && Answers(reply, r, x => Recovered(x))
  }

  lemma CommitMeets(c: Crypto, t: Text, l: Ledger, call: Call, env: Env)
    requires LedgerInv(c, t, l) && call.stage.Commit?
    ensures var p := CallStep(c, t, l, call, env); p.next.Err? && CommitContract(c, t, l, call, env, p.ledger, p.next.error)
  {
    hide LedgerInv;
    hide ClaimExecution;
    hide CompleteExecution;
    hide FinalizeResolution;
    hide Recover;
    hide ClaimContract;
    hide CompleteContract;
    hide FinalizeContract;
    hide RecoverContract;
    match call.job {
      case AppendJob(_) =>
      case ClaimJob(i) => ClaimMeets(c, t, l, i, env.mint);
      case CompleteJob(i, result) => CompleteMeets(c, t, l, i, result, env.mint, env.now);
      case ResolveJob(i) => FinalizeMeets(t, l, i, true);
      case RecoverJob =>
        if call.stage.witnessed.Some? {
          RecoverMeets(c, t, l, call.stage.witnessed.value.sequence, call.stage.witnessed.value.eventHash, env.now);
        }
    }
  }

  /**
   * In every interleaving: at the commit of a claim the caller is told `Acquired` exactly when that very step entered
   * the key, with the row it entered, and `Existing` only with the row that was stored before.
   */
  lemma ClaimAnswersExactly(c: Crypto, t: Text, actions: seq<Action>, id: nat, env: Env)
    requires var s := RunSystem(c, t, actions); id in s.calls && s.calls[id].stage.Commit? && s.calls[id].job.ClaimJob?
    ensures var s := RunSystem(c, t, actions); var n := Next(c, t, s, Advance(id, env)); var i := s.calls[id].job.input;
      && |n.log| == |s.log| + 1 && n.log[|s.log|].job == s.calls[id].job
      && i.key.Some?
      && var reply := n.log[|s.log|].reply;
         && (reply.Claim? && reply.claim.Acquired? <==> KeyOf(i) !in s.ledger.executions && KeyOf(i) in n.ledger.executions)
         && (reply.Claim? && reply.claim.Acquired? ==> reply.claim.execution == n.ledger.executions[KeyOf(i)])
         && (reply.Claim? && reply.claim.Existing? ==> n.ledger == s.ledger && KeyOf(i) in s.ledger.executions && reply.claim.execution == s.ledger.executions[KeyOf(i)])
         && (!reply.Claim? ==> n.ledger == s.ledger)
  {
    EveryInterleaving(c, t, actions, 0);
    hide RunSystem;
    var s := RunSystem(c, t, actions);
    assert CallOk(c, s.ledger, s.calls[id]);
    var i := s.calls[id].job.input;
    CommitMeets(c, t, s.ledger, s.calls[id], env);
    hide LedgerInv;
    hide LogOk;
    hide AllWitnessed;
    hide CallStep;
    var p := CallStep(c, t, s.ledger, s.calls[id], env);
    var r :| ClaimContract(c, t, s.ledger, i, env.mint, p.ledger, r) && Answers(p.next.error, r, x => Claim(x));
    hide Written;
    hide Chained;
    hide Contradicted;
    hide GoodInput;
  }

  // ----- every row was acquired -----------------------------------------------------------------------------------

  ghost predicate AcquiredBySomebody(s: System, k: RetryKey) {
    exists i :: 0 <= i < |s.log| && AcquiredFor(s.log[i], k)
  }

  ghost predicate AllAcquired(s: System) {
    forall k :: k in s.ledger.executions && k !in s.raw ==> AcquiredBySomebody(s, k)
  }

  /** No step but a claim's commit or a direct claim enters a key. */
  lemma OnlyClaimsEnter(c: Crypto, t: Text, l: Ledger, call: Call, env: Env, k: RetryKey)
    requires k !in l.executions && k in CallStep(c, t, l, call, env).ledger.executions && LedgerInv(c, t, l)
    ensures call.stage.Commit? && call.job.ClaimJob?
  {
    hide LedgerInv;
    hide ValidIdentifier;
    hide VerifyFrom;
    hide AppendIn;
    hide ReceiptCheck;
    hide ResolutionEvent;
  }

  lemma DirectEnters(c: Crypto, t: Text, l: Ledger, op: Op, k: RetryKey)
    requires k !in l.executions && k in Apply(c, t, l, op).executions
    ensures k in Settles(op)
  {
    hide ValidIdentifier;
    hide VerifyFrom;
    hide AppendIn;
    hide ReceiptCheck;
    hide ResolutionEvent;
  }

  lemma StillAcquired(s: System, n: System, k: RetryKey)
    requires AcquiredBySomebody(s, k) && |s.log| <= |n.log| && n.log[..|s.log|] == s.log
    ensures AcquiredBySomebody(n, k)
  {
    var i :| 0 <= i < |s.log| && AcquiredFor(s.log[i], k);
    assert n.log[i] == n.log[..|s.log|][i];
  }

  lemma NextLog(c: Crypto, t: Text, s: System, a: Action)
    ensures var n := Next(c, t, s, a); |s.log| <= |n.log| && n.log[..|s.log|] == s.log && s.raw <= n.raw
  {
    hide CallStep;
    hide Apply;
  }

  /**
   * Over every interleaving, every stored execution whose key no direct call settled was acquired by a caller who was
   * told so; by `AtMostOneAcquired` it was one caller only.
   */
  lemma {:induction false} EveryRowWasAcquired(c: Crypto, t: Text, actions: seq<Action>)
    ensures AllAcquired(RunSystem(c, t, actions))
    decreases |actions|
  {
    if actions != [] {
      hide Next;
      hide AcquiredBySomebody;
      var n := |actions| - 1;
      EveryRowWasAcquired(c, t, actions[..n]);
      var s, a := RunSystem(c, t, actions[..n]), actions[n];
      forall k | k in Next(c, t, s, a).ledger.executions && k !in Next(c, t, s, a).raw ensures AcquiredBySomebody(Next(c, t, s, a), k) {
        NextLog(c, t, s, a);
        if k in s.ledger.executions {
          StillAcquired(s, Next(c, t, s, a), k);
        } else {
          EntersByCommit(c, t, actions[..n], a, k);
        }
      }
    }
  }

  lemma EntersByCommit(c: Crypto, t: Text, actions: seq<Action>, a: Action, k: RetryKey)
    requires var s := RunSystem(c, t, actions); k !in s.ledger.executions && k in Next(c, t, s, a).ledger.executions && k !in Next(c, t, s, a).raw
    ensures AcquiredBySomebody(Next(c, t, RunSystem(c, t, actions), a), k)
  {
    EveryInterleaving(c, t, actions, 0);
    hide RunSystem;
    hide LedgerInv;
    hide CallStep;
    hide Apply;
    hide LogOk;
    hide AllWitnessed;
    var s := RunSystem(c, t, actions);
    match a {
      case Start(_, _) =>
      case Direct(op) => DirectEnters(c, t, s.ledger, op, k);
      case Advance(id, env) =>
        OnlyClaimsEnter(c, t, s.ledger, s.calls[id], env, k);
        CommitEnters(c, t, actions, id, env, k);
    }
  }

  lemma CommitEnters(c: Crypto, t: Text, actions: seq<Action>, id: nat, env: Env, k: RetryKey)
    requires var s := RunSystem(c, t, actions); id in s.calls && s.calls[id].stage.Commit? && s.calls[id].job.ClaimJob?
    requires var s := RunSystem(c, t, actions); k !in s.ledger.executions && k in Next(c, t, s, Advance(id, env)).ledger.executions
    ensures AcquiredBySomebody(Next(c, t, RunSystem(c, t, actions), Advance(id, env)), k)
  {
    ClaimAnswersExactly(c, t, actions, id, env);
    hide RunSystem;
    var s := RunSystem(c, t, actions);
    var i := s.calls[id].job.input;
    EntersItsKey(c, t, s.ledger, i, env.mint, k, Next(c, t, s, Advance(id, env)).ledger, s.calls[id], env);
    var n := Next(c, t, s, Advance(id, env));
    hide Next;
    assert AcquiredFor(n.log[|s.log|], k);
  }

  lemma EntersItsKey(c: Crypto, t: Text, l: Ledger, i: EventInput, m: Mint, k: RetryKey, n: Ledger, call: Call, env: Env)
    requires call.stage.Commit? && call.job == ClaimJob(i) && m == env.mint && i.key.Some? && n == CallStep(c, t, l, call, env).ledger
    requires k !in l.executions && k in n.executions
    ensures k == KeyOf(i)
  {
    hide ValidInput;
    hide AppendIn;
  }

  // ----- refused and interrupted calls ---------------------------------------------------------------------------

  lemma BeginFailures(c: Crypto, t: Text, l: Ledger, job: Job, env: Env)
    ensures var p := BeginStep(c, t, l, job, env);
      p.next.Err? ==> p.ledger == l && p.next.error.Failed? && p.next.error.failure.Store?
  {
    hide AppendIn;
    hide ResolutionEvent;
    hide ValidResolutionInput;
    hide ValidExecutionEvent;
    hide ValidIdentifier;
  }

  lemma LoadFailures(c: Crypto, t: Text, l: Ledger, job: Job, env: Env)
    ensures var p := LoadStep(c, t, l, job, env);
      p.next.Err? ==> p.ledger == l && p.next.error.Failed? && p.next.error.failure.Store?
  {
    hide AppendIn;
    hide ValidInput;
  }

  lemma AttachFailures(c: Crypto, l: Ledger, r: Receipt)
    ensures AttachReceipt(c, l, r).result.Err? ==> AttachReceipt(c, l, r).ledger == l
  {
  }

  lemma CommitFailures(c: Crypto, t: Text, l: Ledger, call: Call, env: Env)
    requires call.stage.Commit?
    ensures var p := CallStep(c, t, l, call, env);
      p.next.Err? && (p.next.error.Failed? ==> p.ledger == l && p.next.error.failure.Store?)
  {
    hide AppendIn;
    hide ValidExecutionEvent;
    hide ValidResolutionInput;
    hide ValidIdentifier;
    hide VerifyFrom;
    hide ReceiptCheck;
  }

  /**
   * Whatever fails at any step of any call, the rows stay as that step found them; and a call reports the transport
   * exactly when it asked the witness about an unwitnessed event and got no answer.
   */
  lemma FailuresWriteNothing(c: Crypto, t: Text, l: Ledger, call: Call, env: Env)
    ensures var p := CallStep(c, t, l, call, env);
      && (p.next.Err? && p.next.error.Failed? ==> p.ledger == l)
      && (p.next == Err(Failed(Transport)) <==> call.stage.Witness? && call.stage.record.receipt.None? && env.answer.None?)
  {
    match call.stage {
      case Begin => BeginFailures(c, t, l, call.job, env);
      case Load => LoadFailures(c, t, l, call.job, env);
      case Commit(_) => CommitFailures(c, t, l, call, env);
      case Attach(_, _) => AttachFailures(c, l, call.stage.receipt);
      case _ =>
    }
  }

  /**
   * What a witness may answer for an unwitnessed event: only a signed receipt that names this tenant, sequence and
   * digest under the configured key goes on; one that names something else is a mismatch, whoever signed it.
   */
  lemma OnlyItsOwnReceiptCounts(c: Crypto, t: Text, l: Ledger, call: Call, env: Env)
    requires call.stage.Witness? && call.stage.record.receipt.None? && env.answer.Some?
    ensures var p, e, w := CallStep(c, t, l, call, env), call.stage.record, env.answer.value;
      && p.ledger == l
      && (p.next == Ok(Attach(e, w)) <==> w == Receipt(e.tenant, e.sequence, e.eventHash, c.keyId, w.witnessedAt, w.signature) && c.signed(w))
      && (p.next == Err(Failed(Store(InvalidSignature))) <==> w == Receipt(e.tenant, e.sequence, e.eventHash, c.keyId, w.witnessedAt, w.signature) && !c.signed(w))
      && (p.next == Err(Failed(Store(ReceiptMismatch))) <==> w.tenant != e.tenant || w.sequence != e.sequence || w.eventHash != e.eventHash || w.keyId != c.keyId)
  {
  }

  /**
   * In every interleaving, when a completion is about to record its outcome, the execution it completes is stored, for
   * the very request it names: an outcome for an unknown key or another request is never recorded by a witnessed call.
   */
  lemma OutcomesHaveTheirExecution(c: Crypto, t: Text, actions: seq<Action>, id: nat)
    requires var s := RunSystem(c, t, actions); id in s.calls && s.calls[id].job.CompleteJob? && s.calls[id].stage.Load?
    ensures var s := RunSystem(c, t, actions); var i := s.calls[id].job.input;
      i.key.Some? && RetryKey(i.principal, i.key.value) in s.ledger.executions
      && s.ledger.executions[RetryKey(i.principal, i.key.value)].requestHash == i.requestHash
  {
    EveryInterleaving(c, t, actions, 0);
    hide RunSystem;
    var s := RunSystem(c, t, actions);
    assert CallOk(c, s.ledger, s.calls[id]);
  }
}
