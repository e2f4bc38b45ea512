/**
 * One use per request: what the unique index guarantees on every run, and exactly when each seven-field
 * binding is consumed at most once (crates/henosis-approval/src/lib.rs).
 */
module OneUse {
  import opened Base
  import opened Approvals

  // ----- what every operation keeps -----------------------------------------------------------------------

  /** Identities and deadlines never change, and a row that is no longer live never changes again. */
  ghost predicate Evolves(rs: Rows, ss: Rows) {
    && |rs| <= |ss|
    && forall i :: 0 <= i < |rs| ==>
      && ss[i].id == rs[i].id && ss[i].binding == rs[i].binding
      && ss[i].createdAt == rs[i].createdAt && ss[i].expiresAt == rs[i].expiresAt
      && (!Live(rs[i].status) ==> ss[i] == rs[i])
  }

  lemma ApplyEvolves(rows: Rows, op: Op)
    ensures Evolves(rows, Apply(rows, op).rows)
    ensures |Apply(rows, op).rows| > |rows| ==> op.OpCreate? && Inserts(rows, op)
  {
    hide ValidRequest;
    hide CanonicalToken;
  }

  /** The guards of a creation that really inserts a row. */
  predicate Inserts(rows: Rows, op: Op)
    requires op.OpCreate?
  {
    var b := op.request.binding;
    var swept := ExpireTenant(rows, b.tenant, op.now);
    var newest := Newest(swept, b, false);
    && ValidRequest(op.request) && op.request.expiresAt > op.now
    && (newest.None? || newest.value.status == Expired)
    && !Conflicts(swept, op.newId, b)
  }

  lemma InsertedRow(rows: Rows, op: Op)
    requires op.OpCreate? && Inserts(rows, op)
    ensures Apply(rows, op).rows == ExpireTenant(rows, op.request.binding.tenant, op.now) + [Fresh(op.request, op.newId)]
  {
    hide ValidRequest;
  }

  lemma {:induction false} RunEvolves(ops: seq<Op>, i: nat, j: nat)
    requires i <= j <= |ops|
    ensures Evolves(Run(ops[..i]), Run(ops[..j]))
    decreases j - i
  {
    if i < j {
      hide Apply;
      hide Evolves;
      RunEvolves(ops, i, j - 1);
      assert ops[..j][..j - 1] == ops[..j - 1];
      ApplyEvolves(Run(ops[..j - 1]), ops[j - 1]);
      EvolvesTransitive(Run(ops[..i]), Run(ops[..j - 1]), Run(ops[..j]));
    } else {
      EvolvesFromItself(Run(ops[..i]));
    }
  }

  lemma EvolvesFromItself(rs: Rows)
    ensures Evolves(rs, rs)
  {
  }

  lemma EvolvesTransitive(rs: Rows, ss: Rows, ts: Rows)
    requires Evolves(rs, ss) && Evolves(ss, ts)
    ensures Evolves(rs, ts)
  {
  }

  // ----- the unique index, on every run ----------------------------------------------------------------------

  ghost predicate UniqueIds(rows: Rows) {
    forall i, j :: 0 <= i < j < |rows| ==> rows[i].id != rows[j].id
  }

  ghost predicate OneLive(rows: Rows) {
    forall i, j :: 0 <= i < j < |rows| && rows[i].binding == rows[j].binding ==> !Live(rows[i].status) || !Live(rows[j].status)
  }

  lemma IndexKept(rows: Rows, op: Op)
    requires UniqueIds(rows) && OneLive(rows)
    ensures UniqueIds(Apply(rows, op).rows) && OneLive(Apply(rows, op).rows)
  {
    var n := Apply(rows, op).rows;
    ApplyEvolves(rows, op);
    if |n| > |rows| {
      InsertedRow(rows, op);
      var swept := ExpireTenant(rows, op.request.binding.tenant, op.now);
      assert forall i :: 0 <= i < |swept| ==> swept[i].id != op.newId && !Selected(swept[i], op.request.binding, true);
    } else {
      SameLength(rows, op);
    }
  }

  lemma SameLength(rows: Rows, op: Op)
    requires |Apply(rows, op).rows| <= |rows|
    ensures |Apply(rows, op).rows| == |rows|
  {
    ApplyEvolves(rows, op);
  }

  /** At most one live row per binding and one row per identifier, whatever clocks and stamps callers use. */
  lemma {:induction false} AtMostOneLive(ops: seq<Op>)
    ensures UniqueIds(Run(ops)) && OneLive(Run(ops))
    decreases |ops|
  {
    hide Apply;
    if ops != [] {
      AtMostOneLive(ops[..|ops| - 1]);
      IndexKept(Run(ops[..|ops| - 1]), ops[|ops| - 1]);
    }
  }

  /** The conflict-without-a-live-row error takes an identifier that is already in use. */
  lemma CorruptNeedsCollision(rows: Rows, q: Request, id: nat, now: int)
    requires forall a :: a in rows ==> a.id != id
    ensures Create(rows, q, id, now).result != Err(Corrupt)
  {
    hide ValidRequest;
    var swept := ExpireTenant(rows, q.binding.tenant, now);
    if Conflicts(swept, id, q.binding) {
      var i :| 0 <= i < |swept| && (swept[i].id == id || Selected(swept[i], q.binding, true));
      assert rows[i] in rows && swept[i] in swept;
    }
  }

  // ----- one lifecycle after another ---------------------------------------------------------------------------

  /** Every row of a binding but its last is expired, and later rows are newer in lookup order. */
  ghost predicate Ordered(rows: Rows) {
    forall i, j :: 0 <= i < j < |rows| && rows[i].binding == rows[j].binding ==> rows[i].status == Expired && Older(rows[i], rows[j])
  }

  /** The stamp a creation needs: newer than every earlier row of its binding, if it inserts at all. */
  ghost predicate Stamped(rows: Rows, op: Op) {
    op.OpCreate? && Inserts(rows, op) ==>
      forall i :: 0 <= i < |rows| && rows[i].binding == op.request.binding ==> Older(rows[i], Fresh(op.request, op.newId))
  }

  lemma EvolvedOrder(rs: Rows, ss: Rows)
    requires Ordered(rs) && Evolves(rs, ss) && |rs| == |ss|
    ensures Ordered(ss)
  {
    forall i, j | 0 <= i < j < |ss| && ss[i].binding == ss[j].binding ensures ss[i].status == Expired && Older(ss[i], ss[j]) {
      assert rs[i].status == Expired;
    }
  }

  /** In an ordered table the lookup finds the binding's last row. */
  lemma {:induction false} NewestIsLast(rows: Rows, k: nat)
    requires Ordered(rows) && k < |rows|
    requires forall j :: k < j < |rows| ==> rows[j].binding != rows[k].binding
    ensures Newest(rows, rows[k].binding, false) == Some(rows[k])
    decreases |rows|
  {
    var n := |rows| - 1;
    var b := rows[k].binding;
    if k < n {
      NewestIsLast(rows[..n], k);
    } else {
      var before := Newest(rows[..n], b, false);
      if before.Some? {
        var i :| 0 <= i < n && rows[..n][i] == before.value;
        assert Older(rows[i], rows[n]);
      }
    }
  }

  lemma {:induction false} LastOf(rows: Rows, b: Binding) returns (k: nat)
    requires exists i :: 0 <= i < |rows| && rows[i].binding == b
    ensures k < |rows| && rows[k].binding == b && forall j :: k < j < |rows| ==> rows[j].binding != b
  {
    var n := |rows| - 1;
    if rows[n].binding == b {
      k := n;
    } else {
      var i :| 0 <= i < |rows| && rows[i].binding == b;
      assert rows[..n][i].binding == b;
      k := LastOf(rows[..n], b);
      assert forall j :: k < j < n ==> rows[..n][j] == rows[j];
    }
  }

  /** When a creation inserts, every row of its binding has expired. */
  lemma InsertAfterExpiry(rows: Rows, op: Op, i: nat)
    requires Ordered(rows) && op.OpCreate? && Inserts(rows, op) && i < |rows| && rows[i].binding == op.request.binding
    ensures ExpireTenant(rows, op.request.binding.tenant, op.now)[i].status == Expired
  {
    hide ValidRequest;
    var b := op.request.binding;
    var swept := ExpireTenant(rows, b.tenant, op.now);
    EvolvedOrder(rows, swept);
    assert swept[i].binding == b;
    var k := LastOf(swept, b);
    NewestIsLast(swept, k);
  }

  /** An insertion keeps the order exactly when its stamp is newer than the binding's earlier rows. */
  lemma InsertKeepsOrder(rows: Rows, op: Op)
    requires Ordered(rows) && op.OpCreate? && Inserts(rows, op)
    ensures Ordered(Apply(rows, op).rows) <==> Stamped(rows, op)
  {
    InsertedRow(rows, op);
    var n := Apply(rows, op).rows;
    hide Apply;
    hide Inserts;
    var swept := ExpireTenant(rows, op.request.binding.tenant, op.now);
    var b, last := op.request.binding, |rows|;
    EvolvedOrder(rows, swept);
    forall i | 0 <= i < last && rows[i].binding == b
      ensures n[i].status == Expired && (Older(n[i], n[last]) <==> Older(rows[i], Fresh(op.request, op.newId)))
    {
      InsertAfterExpiry(rows, op, i);
    }
    if Stamped(rows, op) {
      forall i, j | 0 <= i < j < |n| && n[i].binding == n[j].binding ensures n[i].status == Expired && Older(n[i], n[j]) {
        if j < last { assert n[i] == swept[i] && n[j] == swept[j]; }
      }
    } else {
      var i :| 0 <= i < |rows| && rows[i].binding == b && !Older(rows[i], Fresh(op.request, op.newId));
      assert n[i].binding == n[last].binding;
    }
  }

  lemma ApplyKeepsOrder(rows: Rows, op: Op)
    requires Ordered(rows) && Stamped(rows, op)
    ensures Ordered(Apply(rows, op).rows)
  {
    ApplyEvolves(rows, op);
    if |Apply(rows, op).rows| > |rows| {
      InsertKeepsOrder(rows, op);
    } else {
      EvolvedOrder(rows, Apply(rows, op).rows);
    }
  }

  ghost predicate StampedRun(ops: seq<Op>) {
    forall i :: 0 <= i < |ops| ==> Stamped(Run(ops[..i]), ops[i])
  }

  lemma StampedPrefix(ops: seq<Op>, n: nat)
    requires StampedRun(ops) && n <= |ops|
    ensures StampedRun(ops[..n])
  {
    hide Stamped;
    forall i | 0 <= i < n ensures Stamped(Run(ops[..n][..i]), ops[..n][i]) {
      assert ops[..n][..i] == ops[..i];
    }
  }

  lemma {:induction false} ReachableOrder(ops: seq<Op>)
    requires StampedRun(ops)
    ensures Ordered(Run(ops))
    decreases |ops|
  {
    hide Apply;
    hide Stamped;
    hide Ordered;
    if ops == [] {
      NoRowsOrdered();
    } else {
      var n := |ops| - 1;
      StampedPrefix(ops, n);
      ReachableOrder(ops[..n]);
      assert Stamped(Run(ops[..n]), ops[n]);
      ApplyKeepsOrder(Run(ops[..n]), ops[n]);
    }
  }

  lemma NoRowsOrdered()
    ensures Ordered([])
  {
  }

  // ----- at most one consumption per binding ---------------------------------------------------------------------

  /** Operation `i` of the run consumed an approval of binding `b`. */
  ghost predicate ConsumedAt(ops: seq<Op>, i: nat, b: Binding)
    requires i < |ops|
  {
    && ops[i].OpConsume?
    && var r := Consume(Run(ops[..i]), ops[i].claim, ops[i].now).result;
       r.Ok? && r.value.Some? && r.value.value.binding == b
  }

  ghost predicate UsedOnce(ops: seq<Op>) {
    forall i, j, b :: 0 <= i < j < |ops| && ConsumedAt(ops, i, b) ==> !ConsumedAt(ops, j, b)
  }

  /** A consumption turns an approved row of its binding into a consumed one. */
  lemma ConsumptionRow(rows: Rows, c: Claim, now: int) returns (k: nat)
    requires var r := Consume(rows, c, now).result; r.Ok? && r.value.Some?
    ensures var s := Consume(rows, c, now);
      k < |rows| && rows[k].status == Approved && s.rows[k] == s.result.value.value && s.rows[k].status == Consumed && s.rows[k].binding == rows[k].binding
  {
    k := Find(rows, c.tenant, c.id).value;
  }

  /** Each binding is consumed at most once over any run whose creations are stamped in order. */
  lemma OneUseEver(ops: seq<Op>)
    requires StampedRun(ops)
    ensures UsedOnce(ops)
  {
    forall i, j, b | 0 <= i < j < |ops| && ConsumedAt(ops, i, b) ensures !ConsumedAt(ops, j, b) {
      NoSecondUse(ops, i, j, b);
    }
  }

  lemma NoSecondUse(ops: seq<Op>, i: nat, j: nat, b: Binding)
    requires StampedRun(ops) && i < j < |ops| && ConsumedAt(ops, i, b)
    ensures !ConsumedAt(ops, j, b)
  {
    hide StampedRun;
    hide Run;
    var k := StaysConsumed(ops, i, j, b);
    StampedPrefix(ops, j);
    ReachableOrder(ops[..j]);
    NothingBesideConsumed(Run(ops[..j]), k);
    if ops[j].OpConsume? { ConsumptionNeedsApproval(Run(ops[..j]), ops[j].claim, ops[j].now, b); }
  }

  lemma NothingBesideConsumed(rows: Rows, k: nat)
    requires Ordered(rows) && k < |rows| && rows[k].status == Consumed
    ensures forall m :: 0 <= m < |rows| && rows[m].binding == rows[k].binding ==> rows[m].status != Approved
  {
  }

  lemma ConsumptionNeedsApproval(rows: Rows, c: Claim, now: int, b: Binding)
    requires forall m :: 0 <= m < |rows| && rows[m].binding == b ==> rows[m].status != Approved
    ensures var r := Consume(rows, c, now).result; !(r.Ok? && r.value.Some? && r.value.value.binding == b)
  {
    hide CanonicalToken;
  }

  lemma StaysConsumed(ops: seq<Op>, i: nat, j: nat, b: Binding) returns (k: nat)
    requires i < j < |ops| && ConsumedAt(ops, i, b)
    ensures k < |Run(ops[..j])| && Run(ops[..j])[k].status == Consumed && Run(ops[..j])[k].binding == b
  {
    hide Run;
    k := ConsumptionRow(Run(ops[..i]), ops[i].claim, ops[i].now);
    assert ops[..i + 1] == ops[..i] + [ops[i]];
    OneMore(ops[..i], ops[i]);
    hide Consume;
    RunEvolves(ops, i + 1, j);
  }

  /** Once a binding was denied or consumed, every later creation for it returns that very row. */
  lemma TerminalForever(ops: seq<Op>, n: nat, k: nat, q: Request, id: nat, now: int)
    requires StampedRun(ops) && n <= |ops| && k < |Run(ops[..n])| && Run(ops[..n])[k].status in {Denied, Consumed}
    requires q.binding == Run(ops[..n])[k].binding && ValidRequest(q) && q.expiresAt > now
    ensures Create(Run(ops), q, id, now).result == Ok(Run(ops[..n])[k])
  {
    RunEvolves(ops, n, |ops|);
    assert ops[..|ops|] == ops;
    ReachableOrder(ops);
    hide Run;
    hide ValidRequest;
    var rows := Run(ops);
    var swept := ExpireTenant(rows, q.binding.tenant, now);
    assert swept[k] == rows[k] == Run(ops[..n])[k];
    EvolvedOrder(rows, swept);
    NewestIsLast(swept, k);
  }

  // ----- a monotone clock stamps in order ----------------------------------------------------------------------------

  /** No row is expired before its deadline, and deadlines come after stamps. */
  ghost predicate Timely(rows: Rows, clock: int) {
    forall i :: 0 <= i < |rows| ==> rows[i].createdAt < rows[i].expiresAt && (rows[i].status == Expired ==> rows[i].expiresAt <= clock)
  }

  lemma TimelyStep(rows: Rows, clock: int, op: Op)
    requires Timely(rows, clock) && clock <= op.now
    ensures Timely(Apply(rows, op).rows, op.now)
  {
    hide CanonicalToken;
  }

  lemma TimelyStamps(rows: Rows, clock: int, op: Op)
    requires Ordered(rows) && Timely(rows, clock) && clock <= op.now && (op.OpCreate? ==> op.now <= op.request.createdAt)
    ensures Stamped(rows, op)
  {
    if op.OpCreate? && Inserts(rows, op) {
      forall i | 0 <= i < |rows| && rows[i].binding == op.request.binding ensures Older(rows[i], Fresh(op.request, op.newId)) {
        InsertAfterExpiry(rows, op, i);
      }
    }
  }

  ghost predicate StampedByClock(ops: seq<Op>) {
    Monotone(ops) && forall i :: 0 <= i < |ops| && ops[i].OpCreate? ==> ops[i].now <= ops[i].request.createdAt
  }

  /** With a monotone clock and no stamp before the clock, every creation is stamped in order. */
  lemma {:induction false} ClockStampsInOrder(ops: seq<Op>)
    requires StampedByClock(ops)
    ensures StampedRun(ops) && (ops != [] ==> Timely(Run(ops), ops[|ops| - 1].now))
    decreases |ops|
  {
    if ops != [] {
      hide Apply;
      hide Stamped;
      hide Timely;
      var n := |ops| - 1;
      var before, op := ops[..n], ops[n];
      ClockStampsInOrder(before);
      ReachableOrder(before);
      if n == 0 { NoRowsTimely(op.now); }
      var clock := if n == 0 then op.now else before[n - 1].now;
      TimelyStamps(Run(before), clock, op);
      TimelyStep(Run(before), clock, op);
      forall i | 0 <= i < |ops| ensures Stamped(Run(ops[..i]), ops[i]) {
        if i < n { assert before[..i] == ops[..i] && before[i] == ops[i]; }
      }
    }
  }

  lemma NoRowsTimely(clock: int)
    ensures Timely([], clock)
  {
  }

  /** The documented guarantee, for callers that stamp with the clock. */
  lemma ClockedOneUse(ops: seq<Op>)
    requires StampedByClock(ops)
    ensures UsedOnce(ops) && Ordered(Run(ops))
  {
    ClockStampsInOrder(ops);
    OneUseEver(ops);
    ReachableOrder(ops);
  }

  // ----- a late stamp loses the guarantee ----------------------------------------------------------------------------

  const ACTOR: Text := [0x61]

  function ClaimOf(a: Approval): Claim {
    Claim(a.binding.tenant, a.id, a.binding.principal, a.binding.token, a.binding.hash, a.binding.policy)
  }

  function ApproveOp(a: Approval, now: int): Op {
    OpDecide(a.binding.tenant, a.id, true, ACTOR, None, now)
  }

  function Approve(a: Approval, now: int): Approval {
    Decided(a, true, ACTOR, None, now)
  }

  function Use(a: Approval, now: int): Approval {
    Approve(a, now).(status := Consumed, consumedAt := Some(now))
  }

  /** A pending last row can be approved and then consumed within one tick. */
  lemma LastRowIsUsable(rows: Rows, a: Approval, now: int)
    requires a.status == Pending && a.expiresAt > now && CanonicalToken(a.binding.token)
    ensures Apply(rows + [a], ApproveOp(a, now)).rows == rows + [Approve(a, now)]
    ensures Consume(rows + [Approve(a, now)], ClaimOf(a), now) == Step(rows + [Use(a, now)], Ok(Some(Use(a, now))))
  {
    hide CanonicalToken;
    var n := |rows|;
    assert (rows + [a])[n] == a && (rows + [a])[n := Approve(a, now)] == rows + [Approve(a, now)];
    var approved := rows + [Approve(a, now)];
    assert approved[n] == Approve(a, now) && approved[n := Use(a, now)] == rows + [Use(a, now)];
  }

  /** A stamp and an identifier above everything in the table. */
  lemma {:induction false} Above(rows: Rows, floor: nat) returns (m: nat)
    ensures m >= floor && forall a :: a in rows ==> a.createdAt < m && a.id < m
    decreases |rows|
  {
    if rows == [] {
      m := floor;
    } else {
      var last := rows[|rows| - 1];
      m := Above(rows[..|rows| - 1], floor);
      assert forall a :: a in rows ==> a == last || a in rows[..|rows| - 1];
      m := m + last.id + 1 + if last.createdAt >= 0 then last.createdAt else 0;
    }
  }

  /** A well-stamped request for the same binding. */
  function Again(op: Op, m: nat): Op
    requires op.OpCreate?
  {
    OpCreate(op.request.(createdAt := m, expiresAt := m + 1), m, op.now)
  }

  /** The lookup still finds the expired row, so a late row that was used up does not stop a new lifecycle. */
  lemma LateRowIsOverlooked(rows: Rows, op: Op, used: Approval, m: nat)
    requires Ordered(rows) && op.OpCreate? && Inserts(rows, op) && !Stamped(rows, op) && op.now < m
    requires used.binding == op.request.binding && used.id == op.newId && used.createdAt == op.request.createdAt && used.status == Consumed
    requires forall a :: a in rows || a == used ==> a.createdAt < m && a.id < m
    ensures var table, next := ExpireTenant(rows, op.request.binding.tenant, op.now) + [used], Again(op, m);
      && Stamped(table, next)
      && Apply(table, next).rows == table + [Fresh(next.request, m)]
  {
    var b := op.request.binding;
    var swept := ExpireTenant(rows, b.tenant, op.now);
    var table, next := swept + [used], Again(op, m);
    LateRowIsNotNewest(rows, op, used);
    SweptStays(rows, b.tenant, op.now, used);
    NothingLive(rows, op, used, m);
    assert ValidRequest(next.request) && next.request.expiresAt > op.now;
    hide *;
    AllOlder(rows, op, used, m);
    OverlookedInserts(table, next);
  }

  lemma OverlookedInserts(table: Rows, next: Op)
    requires next.OpCreate? && ExpireTenant(table, next.request.binding.tenant, next.now) == table
    requires ValidRequest(next.request) && next.request.expiresAt > next.now && !Conflicts(table, next.newId, next.request.binding)
    requires var newest := Newest(table, next.request.binding, false); newest.Some? && newest.value.status == Expired
    requires forall i :: 0 <= i < |table| ==> Older(table[i], Fresh(next.request, next.newId))
    ensures Stamped(table, next) && Apply(table, next).rows == table + [Fresh(next.request, next.newId)]
  {
    hide ValidRequest;
    hide Conflicts;
    hide Newest;
    InsertedRow(table, next);
  }

  lemma SweptStays(rows: Rows, tenant: nat, now: int, used: Approval)
    requires !Live(used.status)
    ensures var table := ExpireTenant(rows, tenant, now) + [used]; ExpireTenant(table, tenant, now) == table
  {
  }

  lemma AllOlder(rows: Rows, op: Op, used: Approval, m: nat)
    requires op.OpCreate? && forall a :: a in rows || a == used ==> a.createdAt < m
    ensures var table, next := ExpireTenant(rows, op.request.binding.tenant, op.now) + [used], Again(op, m);
      forall i :: 0 <= i < |table| ==> Older(table[i], Fresh(next.request, m))
  {
    forall i | 0 <= i < |rows| ensures rows[i].createdAt < m {
      assert rows[i] in rows;
    }
  }

  lemma NothingLive(rows: Rows, op: Op, used: Approval, m: nat)
    requires op.OpCreate? && Inserts(rows, op) && used.status == Consumed
    requires forall a :: a in rows || a == used ==> a.id < m
    ensures !Conflicts(ExpireTenant(rows, op.request.binding.tenant, op.now) + [used], m, op.request.binding)
  {
    hide ValidRequest;
    var b := op.request.binding;
    var swept := ExpireTenant(rows, b.tenant, op.now);
    forall i | 0 <= i < |swept| + 1 ensures (swept + [used])[i].id != m && !Selected((swept + [used])[i], b, true) {
      if i < |swept| { assert rows[i] in rows && !Selected(swept[i], b, true); }
    }
  }

  lemma LateRowIsNotNewest(rows: Rows, op: Op, used: Approval)
    requires Ordered(rows) && op.OpCreate? && Inserts(rows, op) && !Stamped(rows, op)
    requires used.binding == op.request.binding && used.id == op.newId && used.createdAt == op.request.createdAt
    ensures var swept := ExpireTenant(rows, op.request.binding.tenant, op.now);
            var newest := Newest(swept + [used], op.request.binding, false);
      newest.Some? && newest.value.status == Expired
  {
    hide ValidRequest;
    var b := op.request.binding;
    var swept := ExpireTenant(rows, b.tenant, op.now);
    var i :| 0 <= i < |rows| && rows[i].binding == b && !Older(rows[i], Fresh(op.request, op.newId));
    EvolvedOrder(rows, swept);
    assert swept[i].binding == b && !Older(swept[i], used);
    LateRowLoses(swept, i, used);
  }

  /** A row added behind a newer one of its binding does not become the newest. */
  lemma LateRowLoses(rows: Rows, i: nat, used: Approval)
    requires Ordered(rows) && i < |rows| && rows[i].binding == used.binding && !Older(rows[i], used)
    ensures Newest(rows + [used], used.binding, false) == Newest(rows, used.binding, false)
  {
    var k := LastOf(rows, used.binding);
    NewestIsLast(rows, k);
    assert i == k || Older(rows[i], rows[k]);
    assert (rows + [used])[..|rows|] == rows;
  }

  /** The run after a late stamp: use the late row up, start again in good order, and use that row too. */
  function Misuse(op: Op, m: nat): seq<Op>
    requires op.OpCreate?
  {
    var late, next := Fresh(op.request, op.newId), Fresh(Again(op, m).request, m);
    [ApproveOp(late, op.now), OpConsume(ClaimOf(late), op.now), Again(op, m), ApproveOp(next, op.now), OpConsume(ClaimOf(next), op.now)]
  }

  ghost predicate StampedAfter(ops: seq<Op>, more: seq<Op>) {
    forall k :: 0 <= k < |more| ==> Stamped(Run(ops + more[..k]), more[k])
  }

  /** Approving and consuming the last row of a run's table. */
  lemma UseUp(ops: seq<Op>, rows: Rows, a: Approval, now: int)
    requires Run(ops) == rows + [a] && a.status == Pending && a.expiresAt > now && CanonicalToken(a.binding.token)
    ensures Uses(ops + [ApproveOp(a, now)], OpConsume(ClaimOf(a), now), a.binding)
    ensures Run(ops + [ApproveOp(a, now)] + [OpConsume(ClaimOf(a), now)]) == rows + [Use(a, now)]
  {
    LastRowIsUsable(rows, a, now);
    OneMore(ops, ApproveOp(a, now));
    OneMore(ops + [ApproveOp(a, now)], OpConsume(ClaimOf(a), now));
    hide Run;
    hide Consume;
    hide CanonicalToken;
  }

  /** After the run `ops`, the operation consumes an approval of binding `b`. */
  ghost predicate Uses(ops: seq<Op>, op: Op, b: Binding) {
    && op.OpConsume?
    && var r := Consume(Run(ops), op.claim, op.now).result;
       r.Ok? && r.value.Some? && r.value.value.binding == b
  }

  lemma UsedTwice(ops: seq<Op>, first: Op, mid: seq<Op>, second: Op, b: Binding)
    requires Uses(ops, first, b) && Uses(ops + [first] + mid, second, b)
    ensures !UsedOnce(ops + [first] + mid + [second])
  {
    hide Run;
    hide Consume;
    var all := ops + [first] + mid + [second];
    var i, j := |ops|, |ops| + 1 + |mid|;
    assert all[..i] == ops && all[i] == first;
    assert all[..j] == ops + [first] + mid && all[j] == second;
    assert ConsumedAt(all, i, b) && ConsumedAt(all, j, b);
  }

  /** After a late stamp there is a continuation, itself stamped in order, that consumes the binding twice. */
  lemma LateStampLosesOneUse(ops: seq<Op>, op: Op) returns (more: seq<Op>)
    requires Ordered(Run(ops)) && op.OpCreate? && Inserts(Run(ops), op) && !Stamped(Run(ops), op)
    ensures StampedAfter(ops + [op], more) && !UsedOnce(ops + [op] + more)
  {
    var late := Fresh(op.request, op.newId);
    var m := Above(Run(ops) + [late], if op.now >= 0 then op.now + 1 else 0);
    assert forall a :: a in Run(ops) + [late] <==> a in Run(ops) || a == late;
    more := Misuse(op, m);
    LateRowIsOverlooked(Run(ops), op, Use(late, op.now), m);
    InsertedRow(Run(ops), op);
    OneMore(ops, op);
    assert CanonicalToken(op.request.binding.token) && op.request.expiresAt > op.now;
    MisuseUsesTwice(ops + [op], ExpireTenant(Run(ops), op.request.binding.tenant, op.now), op, m);
  }

  lemma MisuseUsesTwice(ops: seq<Op>, rows: Rows, op: Op, m: nat)
    requires op.OpCreate? && CanonicalToken(op.request.binding.token) && op.request.expiresAt > op.now && op.now < m
    requires Run(ops) == rows + [Fresh(op.request, op.newId)]
    requires var table, next := rows + [Use(Fresh(op.request, op.newId), op.now)], Again(op, m);
      Stamped(table, next) && Apply(table, next).rows == table + [Fresh(next.request, m)]
    ensures StampedAfter(ops, Misuse(op, m)) && !UsedOnce(ops + Misuse(op, m))
  {
    hide CanonicalToken;
    hide Apply;
    hide Run;
    hide Stamped;
    hide Uses;
    hide UsedOnce;
    var late, again, now := Fresh(op.request, op.newId), Again(op, m), op.now;
    var next, table := Fresh(again.request, m), rows + [Use(late, now)];
    UseUp(ops, rows, late, now);
    var p1, c1 := ops + [ApproveOp(late, now)], OpConsume(ClaimOf(late), now);
    OneMore(p1 + [c1], again);
    var p3, c2 := p1 + [c1] + [again], OpConsume(ClaimOf(next), now);
    UseUp(p3, table, next, now);
    assert p3 + [ApproveOp(next, now)] == p1 + [c1] + [again, ApproveOp(next, now)];
    UsedTwice(p1, c1, [again, ApproveOp(next, now)], c2, op.request.binding);
    var more := Misuse(op, m);
    assert p1 + [c1] + [again, ApproveOp(next, now)] + [c2] == ops + more;
    assert ops + more[..2] == p1 + [c1];
    OnlyCreationsNeedStamps(ops, more);
  }

  lemma OnlyCreationsNeedStamps(ops: seq<Op>, more: seq<Op>)
    requires |more| == 5 && Stamped(Run(ops + more[..2]), more[2])
    requires !more[0].OpCreate? && !more[1].OpCreate? && !more[3].OpCreate? && !more[4].OpCreate?
    ensures StampedAfter(ops, more)
  {
    forall k | 0 <= k < 5 ensures Stamped(Run(ops + more[..k]), more[k]) {
      if k != 2 { assert !more[k].OpCreate?; }
    }
  }

  lemma StampedConcat(ops: seq<Op>, more: seq<Op>)
    requires StampedRun(ops) && StampedAfter(ops, more)
    ensures StampedRun(ops + more)
  {
    hide Stamped;
    forall i | 0 <= i < |ops + more| ensures Stamped(Run((ops + more)[..i]), (ops + more)[i]) {
      if i < |ops| {
        assert (ops + more)[..i] == ops[..i];
      } else {
        assert (ops + more)[..i] == ops + more[..i - |ops|];
      }
    }
  }

  /**
   * The exact condition: after an orderly run, a creation that inserts a row leaves every orderly continuation
   * with at most one use per binding if and only if its stamp is newer than the binding's earlier rows.
   */
  lemma OneUseExactly(ops: seq<Op>, op: Op)
    requires StampedRun(ops) && op.OpCreate? && Inserts(Run(ops), op)
    ensures Stamped(Run(ops), op) <==> forall more :: StampedAfter(ops + [op], more) ==> UsedOnce(ops + [op] + more)
  {
    if Stamped(Run(ops), op) {
      SingletonStamped(ops, op);
      forall more | StampedAfter(ops + [op], more) ensures UsedOnce(ops + [op] + more) {
        StampedConcat(ops + [op], more);
        OneUseEver(ops + [op] + more);
      }
    } else {
      ReachableOrder(ops);
      var more := LateStampLosesOneUse(ops, op);
    }
  }

  lemma SingletonStamped(ops: seq<Op>, op: Op)
    requires StampedRun(ops) && Stamped(Run(ops), op)
    ensures StampedRun(ops + [op])
  {
    hide Stamped;
    assert ops + [op][..0] == ops;
    StampedConcat(ops, [op]);
  }

  /** Such a late stamp can happen: the first row's deadline passes, and the next request is stamped before it. */
  lemma LateStampsHappen()
    ensures exists ops, op :: StampedRun(ops) && Monotone(ops + [op]) && op.OpCreate? && Inserts(Run(ops), op) && !Stamped(Run(ops), op)
  {
    var token: Text := seq(36, i => if i in {8, 13, 18, 23} then 0x2D else if i == 14 then 0x34 else 0x30);
    var b := Binding(0, 0, token, [0x61], [0x61], [], [0x61]);
    var first := OpCreate(Request(b, [0x61], 100, 150), 1, 100);
    var late := OpCreate(Request(b, [0x61], 50, 1000), 2, 160);
    assert CanonicalToken(token);
    hide CanonicalToken;
    assert ExpireTenant([], 0, 100) == [];
    assert Newest([], b, false) == None;
    assert Run([]) == [];
    OneMore([], first);
    assert [] + [first] == [first];
    FirstRowOnly(first);
    var a := Fresh(first.request, 1);
    var lapsed := a.(status := Expired);
    assert ExpireTenant([a], 0, 160) == [lapsed];
    assert [lapsed][..0] == [] && Newest([lapsed], b, false) == Some(lapsed);
    assert Inserts([a], late) && !Older([a][0], Fresh(late.request, 2));
    assert Monotone([first] + [late]);
  }

  lemma FirstRowOnly(op: Op)
    requires op.OpCreate? && ValidRequest(op.request) && op.request.expiresAt > op.now
    ensures Run([op]) == [Fresh(op.request, op.newId)] && StampedRun([op])
  {
    hide ValidRequest;
    assert ExpireTenant([], op.request.binding.tenant, op.now) == [];
    assert [op][..0] == [] && Run([]) == [];
    assert !Conflicts([], op.newId, op.request.binding);
    OneMore([], op);
    assert [] + [op] == [op];
  }
}
