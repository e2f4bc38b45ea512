/**
 * Lazy expiry refines eager expiry: the store that only expires rows when it touches them answers exactly
 * like one that expires every row at every tick (crates/henosis-approval/src/lib.rs).
 */
module LazyExpiry {
  import opened Base
  import opened Approvals

  /** Two tables that differ only in rows of other bindings. */
  ghost predicate AgreeOn(rs: Rows, ss: Rows, b: Binding) {
    && |rs| == |ss|
    && forall i :: 0 <= i < |rs| ==> rs[i].binding == ss[i].binding && rs[i].id == ss[i].id && (rs[i].binding == b ==> rs[i] == ss[i])
  }

  lemma {:induction false} NewestAgrees(rs: Rows, ss: Rows, b: Binding, liveOnly: bool)
    requires AgreeOn(rs, ss, b)
    ensures Newest(rs, b, liveOnly) == Newest(ss, b, liveOnly)
  {
    if rs != [] {
      NewestAgrees(rs[..|rs| - 1], ss[..|ss| - 1], b, liveOnly);
    }
  }

  lemma {:induction false} FindNormalized(rows: Rows, now: int, tenant: nat, id: nat)
    ensures Find(Normalize(rows, now), tenant, id) == Find(rows, tenant, id)
  {
    if rows != [] {
      var n := |rows| - 1;
      FindNormalized(rows[..n], now, tenant, id);
      assert Normalize(rows, now)[..n] == Normalize(rows[..n], now);
    }
  }

  lemma {:induction false} InsertNormalized(sorted: Rows, x: Approval, now: int)
    ensures InsertNewest(Normalize(sorted, now), Effective(x, now)) == Normalize(InsertNewest(sorted, x), now)
  {
    if !(sorted == [] || x.createdAt > sorted[0].createdAt) {
      InsertNormalized(sorted[1..], x, now);
      assert Normalize(sorted, now)[1..] == Normalize(sorted[1..], now);
    }
  }

  lemma {:induction false} SortNormalized(rows: Rows, now: int, tenant: nat)
    ensures NewestFirst(Normalize(rows, now), tenant) == Normalize(NewestFirst(rows, tenant), now)
  {
    if rows != [] {
      var n := |rows| - 1;
      SortNormalized(rows[..n], now, tenant);
      assert Normalize(rows, now)[..n] == Normalize(rows[..n], now);
      InsertNormalized(NewestFirst(rows[..n], tenant), rows[n], now);
    }
  }

  lemma NormalizeTwice(rows: Rows, t: int, now: int)
    requires t <= now
    ensures Normalize(Normalize(rows, t), now) == Normalize(rows, now)
  {
  }

  lemma SweepNormalized(rows: Rows, tenant: nat, now: int)
    ensures Normalize(ExpireTenant(rows, tenant, now), now) == Normalize(rows, now)
    ensures ExpireTenant(Normalize(rows, now), tenant, now) == Normalize(rows, now)
  {
  }

  lemma CreateRefines(rows: Rows, q: Request, id: nat, now: int)
    ensures var lazy, eager := Create(rows, q, id, now), Create(Normalize(rows, now), q, id, now);
      lazy.result == eager.result && eager.rows == Normalize(lazy.rows, now)
  {
    if ValidRequest(q) && q.expiresAt > now {
      hide ValidRequest;
      var b := q.binding;
      var swept, all := ExpireTenant(rows, b.tenant, now), Normalize(rows, now);
      SweepNormalized(rows, b.tenant, now);
      assert AgreeOn(swept, all, b);
      NewestAgrees(swept, all, b, false);
      NewestAgrees(swept, all, b, true);
      ConflictsAgree(swept, all, id, b);
      assert Normalize(swept + [Fresh(q, id)], now) == Normalize(swept, now) + [Fresh(q, id)];
    }
  }

  lemma ConflictsAgree(rs: Rows, ss: Rows, id: nat, b: Binding)
    requires AgreeOn(rs, ss, b)
    ensures Conflicts(rs, id, b) <==> Conflicts(ss, id, b)
  {
    if i :| 0 <= i < |rs| && (rs[i].id == id || Selected(rs[i], b, true)) {
      assert ss[i].id == id || Selected(ss[i], b, true);
    }
    if i :| 0 <= i < |ss| && (ss[i].id == id || Selected(ss[i], b, true)) {
      assert rs[i].id == id || Selected(rs[i], b, true);
    }
  }

  lemma UpdateNormalized(rows: Rows, i: nat, a: Approval, now: int)
    requires i < |rows|
    ensures Normalize(rows[i := a], now) == Normalize(rows, now)[i := Effective(a, now)]
    ensures Effective(a, now) == Effective(rows[i], now) ==> Normalize(rows[i := a], now) == Normalize(rows, now)
  {
  }

  lemma DecideRefines(rows: Rows, t: nat, id: nat, approve: bool, actor: Text, reason: Option<Text>, now: int)
    ensures var lazy, eager := Decide(rows, t, id, approve, actor, reason, now), Decide(Normalize(rows, now), t, id, approve, actor, reason, now);
      lazy.result == eager.result && eager.rows == Normalize(lazy.rows, now)
  {
    hide ValidDecision;
    FindNormalized(rows, now, t, id);
    var i := Find(rows, t, id);
    if i.Some? {
      var a := rows[i.value];
      var decided := Decided(a, approve, actor, reason, now);
      assert a.expiresAt > now ==> Effective(decided, now) == decided;
      assert a.expiresAt > now ==> Effective(a, now) == a;
      assert a.expiresAt <= now && a.status == Pending ==> Effective(a, now) == Effective(a.(status := Expired), now);
      hide Decided;
      UpdateNormalized(rows, i.value, a.(status := Expired), now);
      UpdateNormalized(rows, i.value, decided, now);
    }
  }

  lemma ConsumeRefines(rows: Rows, op: Op)
    requires op.OpConsume?
    ensures var lazy, eager := Apply(rows, op), Apply(Normalize(rows, op.now), op);
      lazy.result == eager.result && eager.rows == Normalize(lazy.rows, op.now)
  {
    hide CanonicalToken;
    FindNormalized(rows, op.now, op.claim.tenant, op.claim.id);
    var i := Find(rows, op.claim.tenant, op.claim.id);
    if i.Some? {
      UpdateNormalized(rows, i.value, rows[i.value].(status := Expired), op.now);
      UpdateNormalized(rows, i.value, rows[i.value].(status := Consumed, consumedAt := Some(op.now)), op.now);
    }
  }

  /**
   * One step: on a table and on the same table with every lapsed row already expired, each operation gives
   * the same answer and leaves tables that again differ only in lapsed rows.
   */
  lemma StepRefines(rows: Rows, op: Op)
    ensures var lazy, eager := Apply(rows, op), Apply(Normalize(rows, op.now), op);
      lazy.result == eager.result && eager.rows == Normalize(lazy.rows, op.now)
  {
    var now := op.now;
    match op {
      case OpCreate(q, id, _) => CreateRefines(rows, q, id, now);
      case OpGet(t, id, _) => FindNormalized(rows, now, t, id);
      case OpList(t, _) =>
        SortNormalized(rows, now, t);
        NormalizeTwice(NewestFirst(rows, t), now, now);
      case OpDecide(t, id, approve, actor, reason, _) => DecideRefines(rows, t, id, approve, actor, reason, now);
      case OpExpire(t, _) => SweepNormalized(rows, t, now);
      case OpConsume(_, _) => ConsumeRefines(rows, op);
      case OpTick(_) =>
    }
  }

  /** The rows of a tenant whose stored status the eager store would already have replaced. */
  ghost function Behind(rows: Rows, tenant: nat, now: int): set<nat> {
    set i | 0 <= i < |rows| && rows[i].binding.tenant == tenant && rows[i] != Normalize(rows, now)[i]
  }

  /**
   * The one answer that differs: `expire` counts exactly the rows by which the lazy table is behind the eager one,
   * and the eager store has none left to count.
   */
  lemma ExpireCountIsTheGap(rows: Rows, tenant: nat, now: int)
    ensures Expire(rows, tenant, now).result == |Behind(rows, tenant, now)|
    ensures Expire(Normalize(rows, now), tenant, now).result == 0
    ensures Behind(Expire(rows, tenant, now).rows, tenant, now) == {}
  {
    assert Behind(rows, tenant, now)
      == set i | 0 <= i < |rows| && rows[i].binding.tenant == tenant && Live(rows[i].status) && rows[i].expiresAt <= now;
    var all := Normalize(rows, now);
    assert (set i | 0 <= i < |all| && all[i].binding.tenant == tenant && Live(all[i].status) && all[i].expiresAt <= now) == {};
  }

  /** The eager store: every tick expires every lapsed row of every tenant before anything else happens. */
  function EagerApply(rows: Rows, op: Op): Step<Outcome> {
    Apply(Normalize(rows, op.now), op)
  }

  function EagerRun(ops: seq<Op>): Rows {
    if ops == [] then [] else EagerApply(EagerRun(ops[..|ops| - 1]), ops[|ops| - 1]).rows
  }

  function EagerAnswer(ops: seq<Op>): Outcome
    requires ops != []
  {
    EagerApply(EagerRun(ops[..|ops| - 1]), ops[|ops| - 1]).result
  }

  /**
   * Every run under a monotone clock: both stores answer alike, and the eager table is the lazy one read at
   * the last tick.
   */
  lemma {:induction false} LazyRefinesEager(ops: seq<Op>)
    requires Monotone(ops) && ops != []
    ensures LastAnswer(ops) == EagerAnswer(ops)
    ensures EagerRun(ops) == Normalize(Run(ops), ops[|ops| - 1].now)
    decreases |ops|
  {
    hide Apply;
    var n := |ops| - 1;
    var before, op := ops[..n], ops[n];
    if n > 0 {
      LazyRefinesEager(before);
      NormalizeTwice(Run(before), before[n - 1].now, op.now);
    } else {
      assert before == [] && Normalize([], op.now) == [];
    }
    StepRefines(Run(before), op);
  }

  /** In particular every answer along a run, not only the last. */
  lemma EveryAnswerAgrees(ops: seq<Op>, k: nat)
    requires Monotone(ops) && 0 < k <= |ops|
    ensures LastAnswer(ops[..k]) == EagerAnswer(ops[..k])
  {
    LazyRefinesEager(ops[..k]);
  }
}
