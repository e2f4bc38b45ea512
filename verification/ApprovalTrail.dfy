/**
 * Where an authorization comes from: over every run, each consumption uses a row that a request created and an
 * operator approved, for exactly the request that the consumer presents (crates/henosis-approval/src/lib.rs).
 */
module ApprovalTrail {
  import opened Base
  import opened Approvals
  import OneUse

  /** Operation `k` asked for this very row. */
  ghost predicate Requested(op: Op, a: Approval) {
    && op.OpCreate? && op.newId == a.id && op.request.binding == a.binding && op.request.prompt == a.prompt
    && op.request.createdAt == a.createdAt && op.request.expiresAt == a.expiresAt && op.now < a.expiresAt
  }

  /** Operation `k` approved this very row before its deadline. */
  ghost predicate Granted(op: Op, a: Approval) {
    && op.OpDecide? && op.approve && op.tenant == a.binding.tenant && op.id == a.id && op.now < a.expiresAt
    && a.decidedAt == Some(op.now) && a.actor == Some(op.actor) && a.reason == op.reason
  }

  ghost predicate Denied(op: Op, a: Approval) {
    && op.OpDecide? && !op.approve && op.tenant == a.binding.tenant && op.id == a.id && op.now < a.expiresAt
    && a.decidedAt == Some(op.now) && a.actor == Some(op.actor) && a.reason == op.reason
  }

  /** Every row was requested, and whatever was decided about it was decided by somebody. */
  ghost predicate Documented(ops: seq<Op>, a: Approval) {
    && (exists k :: 0 <= k < |ops| && Requested(ops[k], a))
    && (a.status == Approved || a.status == Consumed ==> exists k :: 0 <= k < |ops| && Granted(ops[k], a))
    && (a.status == Status.Denied ==> exists k :: 0 <= k < |ops| && Denied(ops[k], a))
  }

  /** The same request, with a status that needs no new decision. */
  ghost predicate Continues(a: Approval, b: Approval) {
    && b == a.(status := b.status, consumedAt := b.consumedAt)
    && (b.status == a.status || b.status == Expired || (a.status == Approved && b.status == Consumed))
  }

  /** One step: every row continues an earlier one, or this very operation requested or decided it. */
  lemma RowOrigin(rows: Rows, op: Op, i: nat)
    requires i < |Apply(rows, op).rows|
    ensures var b := Apply(rows, op).rows[i];
      || (i < |rows| && Continues(rows[i], b))
      || (i >= |rows| && Requested(op, b) && b.status == Pending)
      || (i < |rows| && rows[i].status == Pending && b.(status := Pending, decidedAt := rows[i].decidedAt, actor := rows[i].actor, reason := rows[i].reason) == rows[i]
          && ((b.status == Approved && Granted(op, b)) || (b.status == Status.Denied && Denied(op, b))))
  {
    hide ValidRequest;
    hide CanonicalToken;
  }

  lemma DocumentedLonger(ops: seq<Op>, op: Op, a: Approval, b: Approval)
    requires Documented(ops, a) && Continues(a, b)
    ensures Documented(ops + [op], b)
  {
    var all := ops + [op];
    var k :| 0 <= k < |ops| && Requested(ops[k], a);
    assert Requested(all[k], b);
    if b.status == Approved || b.status == Consumed {
      var j :| 0 <= j < |ops| && Granted(ops[j], a);
      assert Granted(all[j], b);
    }
    if b.status == Status.Denied {
      var j :| 0 <= j < |ops| && Denied(ops[j], a);
      assert Denied(all[j], b);
    }
  }

  lemma DocumentedNow(ops: seq<Op>, op: Op, b: Approval)
    requires Requested(op, b) && b.status == Pending
    ensures Documented(ops + [op], b)
  {
    assert (ops + [op])[|ops|] == op;
  }

  lemma DecidedNow(ops: seq<Op>, op: Op, a: Approval, b: Approval)
    requires Documented(ops, a) && b.(status := Pending, decidedAt := a.decidedAt, actor := a.actor, reason := a.reason) == a
    requires (b.status == Approved && Granted(op, b)) || (b.status == Status.Denied && Denied(op, b))
    ensures Documented(ops + [op], b)
  {
    var all := ops + [op];
    var k :| 0 <= k < |ops| && Requested(ops[k], a);
    assert Requested(all[k], b);
    assert all[|ops|] == op;
  }

  /** Over every run, every row is documented. */
  lemma {:induction false} EveryRowIsDocumented(ops: seq<Op>, i: nat)
    requires i < |Run(ops)|
    ensures Documented(ops, Run(ops)[i])
    decreases |ops|
  {
    hide Apply;
    hide Documented;
    hide Requested;
    hide Granted;
    hide Denied;
    hide Continues;
    var n := |ops| - 1;
    var before, op := ops[..n], ops[n];
    var rows := Run(before);
    RowOrigin(rows, op, i);
    var b := Apply(rows, op).rows[i];
    assert before + [op] == ops;
    if i < |rows| {
      EveryRowIsDocumented(before, i);
      if Continues(rows[i], b) {
        DocumentedLonger(before, op, rows[i], b);
      } else {
        DecidedNow(before, op, rows[i], b);
      }
    } else {
      DocumentedNow(before, op, b);
    }
  }

  /**
   * No authorization without approval: whenever a claim is consumed in any run, there is one request, for the tenant,
   * principal, token, hash and policy that the claim presents, and an operator's approval of that very row before its
   * deadline; and the consumption itself is before the deadline.
   */
  lemma ConsumptionIsAuthorized(ops: seq<Op>, i: nat, b: Binding)
    requires i < |ops| && OneUse.ConsumedAt(ops, i, b)
    ensures var c := ops[i].claim;
      && b == Binding(c.tenant, c.principal, c.token, b.tool, b.action, c.hash, c.policy)
      && exists a: Approval, k, j :: a.id == c.id && a.binding == b && ops[i].now < a.expiresAt
           && 0 <= k < i && 0 <= j < i && Requested(ops[k], a) && Granted(ops[j], a)
  {
    hide CanonicalToken;
    hide Run;
    var c := ops[i].claim;
    var rows := Run(ops[..i]);
    var r := Find(rows, c.tenant, c.id).value;
    EveryRowIsDocumented(ops[..i], r);
    var a := rows[r];
    var k :| 0 <= k < i && Requested(ops[..i][k], a);
    var j :| 0 <= j < i && Granted(ops[..i][j], a);
    assert Requested(ops[k], a) && Granted(ops[j], a);
  }
}
