/**
 * The two-phase stale sweep interleaved with everybody else: a selected row is staled exactly when, since its
 * selection, nobody's accepted operation moved it on (crates/henosis-chiasm/src/store.rs).
 */
module StaleSweep {
  import opened Base
  import opened TaskGraph
  import opened Tasks
  import Dependencies
  import Leases

  // ----- what an accepted operation does to one task -------------------------------------------------------

  /** An accepted heartbeat or `claim_next` on the task. */
  ghost predicate Beats(db: Db, op: Op, id: TaskId) {
    || (op.OpHeartbeat? && op.id == id && InScope(db, op.scope, id))
    || (op.OpClaimNext? && op.id == id && InScope(db, op.scope, id) && db.tasks[id].assignee.None? && db.tasks[id].status == Queued)
  }

  ghost predicate Deletes(db: Db, op: Op, id: TaskId) {
    op.OpDelete? && op.id == id && InScope(db, op.scope, id)
  }

  /** The status an accepted operation gives the task, if it gives it one. */
  ghost function Sets(db: Db, op: Op, id: TaskId): Option<Status> {
    match op
    case OpUpdate(s, i, st, _, _) => if i == id && InScope(db, s, id) then st else None
    case OpClaimNext(_, _, _, _) => if Beats(db, op, id) then Some(Active) else None
    case OpUnblock(s, trigger, _) =>
      if InScope(db, s, trigger) && db.tasks[trigger].status == Completed && Unblockable(db, s, trigger, id) then Some(Active) else None
    case OpStale(i, selected, grace, sweepNow, _) =>
      if i == id && Overdue(selected, grace, sweepNow) && StillSelected(db, id, selected) then Some(Stale) else None
    case _ => None
  }

  /** One step: the task stays unless deleted, and its heartbeat and status change only as the operation says. */
  lemma RowStep(db: Db, op: Op, id: TaskId)
    requires id in db.tasks
    ensures id in Apply(db, op).tasks <==> !Deletes(db, op, id)
    ensures id in Apply(db, op).tasks ==>
      var row, next := db.tasks[id], Apply(db, op).tasks[id];
      && next.scope == row.scope
      && next.heartbeat == (if Beats(db, op, id) then Some(op.now) else row.heartbeat)
      && next.status == (if Sets(db, op, id).Some? then Sets(db, op, id).value else row.status)
  {
    hide Overdue;
    match op {
      case OpAdd(s, i, ds) => if InScope(db, s, i) { Leases.AddTouchesOnlyEdges(db, s, i, ds); }
      case OpClaims(s, i, paths, ttl, now) =>
        if InScope(db, s, i) { Dependencies.ClaimsTouchOnlyClaims(db, s, i, db.tasks[i].project, paths, now, TsPlus(now, ttl)); }
      case _ =>
    }
  }

  lemma AbsentStep(db: Db, op: Op, id: TaskId)
    requires id !in db.tasks && !(op.OpCreate? && op.id == id)
    ensures id !in Apply(db, op).tasks
  {
    hide Overdue;
    match op {
      case OpAdd(s, i, ds) => if InScope(db, s, i) { Leases.AddTouchesOnlyEdges(db, s, i, ds); }
      case OpClaims(s, i, paths, ttl, now) =>
        if InScope(db, s, i) { Dependencies.ClaimsTouchOnlyClaims(db, s, i, db.tasks[i].project, paths, now, TsPlus(now, ttl)); }
      case _ =>
    }
  }

  // ----- the log between selection and commit --------------------------------------------------------------

  ghost predicate BeatsAt(ops: seq<Op>, m: nat, id: TaskId)
    requires m < |ops|
  {
    Beats(Run(ops[..m]), ops[m], id)
  }

  ghost predicate DeletesAt(ops: seq<Op>, m: nat, id: TaskId)
    requires m < |ops|
  {
    Deletes(Run(ops[..m]), ops[m], id)
  }

  ghost predicate Survives(ops: seq<Op>, i: nat, n: nat, id: TaskId)
    requires i <= n <= |ops|
  {
    forall m :: i <= m < n ==> !DeletesAt(ops, m, id)
  }

  /** The last stamp that an accepted heartbeat or claim left between `i` and `n`, or else the one at `i`. */
  ghost function LastBeat(ops: seq<Op>, i: nat, n: nat, id: TaskId, first: Option<int>): Option<int>
    requires i <= n <= |ops|
    decreases n
  {
    if n == i then first else if BeatsAt(ops, n - 1, id) then Some(ops[n - 1].now) else LastBeat(ops, i, n - 1, id, first)
  }

  /** The last status that an accepted operation gave the task between `i` and `n`, or else the one at `i`. */
  ghost function LastStatus(ops: seq<Op>, i: nat, n: nat, id: TaskId, first: Status): Status
    requires i <= n <= |ops|
    decreases n
  {
    if n == i then first
    else
      var s := Sets(Run(ops[..n - 1]), ops[n - 1], id);
      if s.Some? then s.value else LastStatus(ops, i, n - 1, id, first)
  }

  /** Identifiers are minted once, so an existing task's identifier is not created again. */
  ghost predicate NotReused(ops: seq<Op>, i: nat, id: TaskId) {
    forall m :: i <= m < |ops| ==> !(ops[m].OpCreate? && ops[m].id == id)
  }

  /** A task's row is what the log since any earlier point says. */
  lemma {:induction false} RowFollowsLog(ops: seq<Op>, i: nat, n: nat, id: TaskId)
    requires i <= n <= |ops| && id in Run(ops[..i]).tasks && NotReused(ops, i, id)
    ensures var row, db := Run(ops[..i]).tasks[id], Run(ops[..n]);
      && (id in db.tasks <==> Survives(ops, i, n, id))
      && (id in db.tasks ==>
            && db.tasks[id].scope == row.scope
            && db.tasks[id].heartbeat == LastBeat(ops, i, n, id, row.heartbeat)
            && db.tasks[id].status == LastStatus(ops, i, n, id, row.status))
    decreases n
  {
    if i < n {
      hide Apply;
      hide Beats;
      hide Deletes;
      hide Sets;
      RowFollowsLog(ops, i, n - 1, id);
      var db, op := Run(ops[..n - 1]), ops[n - 1];
      assert ops[..n][..n - 1] == ops[..n - 1] && Run(ops[..n]) == Apply(db, op);
      if id in db.tasks { RowStep(db, op, id); } else { AbsentStep(db, op, id); }
      assert Survives(ops, i, n, id) <==> Survives(ops, i, n - 1, id) && !DeletesAt(ops, n - 1, id);
    }
  }

  // ----- the sweep -------------------------------------------------------------------------------------------

  /** What staling leaves: the task is stale without an unreleased lease, and nothing else has changed. */
  ghost predicate Staled(db: Db, id: TaskId, now: int, n: Db) {
    && id in db.tasks && n.tasks == db.tasks[id := db.tasks[id].(status := Stale, updatedAt := now)] && n.deps == db.deps
    && (forall c :: c in n.claims && c.task == id ==> c.released)
    && (forall c: Lease :: c.task != id ==> (c in n.claims <==> c in db.claims))
  }

  lemma ReleaseEffect(db: Db, id: TaskId)
    ensures forall c :: c in Released(db.claims, id) && c.task == id ==> c.released
    ensures forall c: Lease :: c.task != id ==> (c in Released(db.claims, id) <==> c in db.claims)
  {
    Leases.ReleasedRows(db, id);
    forall c: Lease | c.task != id ensures c in Released(db.claims, id) <==> c in db.claims {
      if c in Released(db.claims, id) {
        var k :| 0 <= k < |db.claims| && Released(db.claims, id)[k] == c;
      }
      if c in db.claims {
        var k :| 0 <= k < |db.claims| && db.claims[k] == c;
        assert Released(db.claims, id)[k] == c;
      }
    }
  }

  /** Nobody moved the task on: it was not deleted, and the last stamp and status it was given are the selected ones. */
  ghost predicate Undisturbed(ops: seq<Op>, i: nat, id: TaskId)
    requires i <= |ops| && id in Run(ops[..i]).tasks
  {
    var selected := Run(ops[..i]).tasks[id];
    && Survives(ops, i, |ops|, id)
    && LastBeat(ops, i, |ops|, id, selected.heartbeat) == selected.heartbeat
    && LastStatus(ops, i, |ops|, id, selected.status) == selected.status
  }

  /**
   * For every run of other operations between selecting a row and committing: the sweep stales the task exactly
   * when the selected row had been silent for longer than its interval times the grace factor and nobody's accepted
   * operation moved the task on in between.
   */
  lemma SweepFollowsLog(ops: seq<Op>, i: nat, id: TaskId, grace: real, sweepNow: int, now: int)
    requires i <= |ops| && id in Run(ops[..i]).tasks && NotReused(ops, i, id)
    ensures var selected := Run(ops[..i]).tasks[id];
            var n := StaleOne(Run(ops), id, selected, grace, sweepNow, now);
      if Silent(selected, grace, sweepNow) && Undisturbed(ops, i, id) then Staled(Run(ops), id, now, n) else n == Run(ops)
  {
    hide Run;
    OverdueMeans(Run(ops[..i]).tasks[id], grace, sweepNow);
    hide Overdue;
    hide Silent;
    assert ops[..|ops|] == ops;
    RowFollowsLog(ops, i, |ops|, id);
    ReleaseEffect(Run(ops), id);
  }

  /** No sweep at or before the instant of a heartbeat finds that task silent. */
  lemma FreshHeartbeatIsSafe(db: Db, id: TaskId, row: Task, grace: real, sweepNow: int, now: int)
    requires row.heartbeat.Some? && sweepNow <= row.heartbeat.value && row.interval >= 0 && grace >= 0.0
    ensures StaleOne(db, id, row, grace, sweepNow, now) == db
  {
    OverdueMeans(row, grace, sweepNow);
    NotNegative(row.interval as real, grace);
  }

  lemma NotNegative(a: real, b: real)
    requires a >= 0.0 && b >= 0.0
    ensures a * b * 1_000_000_000.0 >= 0.0
  {
  }

  /** A row that one sweep stales, every later sweep of the same rows stales too. */
  lemma SilenceGrows(db: Db, id: TaskId, row: Task, grace: real, sweepNow: int, later: int, now: int)
    requires sweepNow <= later && StaleOne(db, id, row, grace, sweepNow, now) != db
    ensures StaleOne(db, id, row, grace, later, now) == StaleOne(db, id, row, grace, sweepNow, now)
  {
    OverdueMeans(row, grace, sweepNow);
    OverdueMeans(row, grace, later);
  }

  /** A longer interval or a larger grace factor never stales more. */
  lemma PatienceHelps(row: Task, interval: int, grace: real, more: real, sweepNow: int)
    requires 0 <= row.interval <= interval && 0.0 <= grace <= more && Overdue(row.(interval := interval), more, sweepNow)
    ensures Overdue(row, grace, sweepNow)
  {
    OverdueMeans(row, grace, sweepNow);
    OverdueMeans(row.(interval := interval), more, sweepNow);
    ProductGrows(row.interval as real, interval as real, grace, more);
  }

  lemma ProductGrows(a: real, b: real, g: real, h: real)
    requires 0.0 <= a <= b && 0.0 <= g <= h
    ensures a * g <= b * h
  {
    assert a * g <= a * h;
    assert a * h <= b * h;
  }

  /** The last accepted heartbeat of a stretch that has one. */
  lemma {:induction false} LastBeatIsABeat(ops: seq<Op>, i: nat, n: nat, id: TaskId, first: Option<int>) returns (k: nat)
    requires i <= n <= |ops| && exists m :: i <= m < n && BeatsAt(ops, m, id)
    ensures i <= k < n && BeatsAt(ops, k, id) && LastBeat(ops, i, n, id, first) == Some(ops[k].now)
    decreases n
  {
    hide BeatsAt;
    if BeatsAt(ops, n - 1, id) {
      k := n - 1;
    } else {
      k := LastBeatIsABeat(ops, i, n - 1, id, first);
    }
  }

  /**
   * The liveness promise: if heartbeats after the selection carry stamps later than the selected one, then any
   * accepted heartbeat or claim between selection and commit saves the task.
   */
  lemma HeartbeatSavesTask(ops: seq<Op>, i: nat, k: nat, id: TaskId, grace: real, sweepNow: int, now: int)
    requires i <= k < |ops| && id in Run(ops[..i]).tasks && NotReused(ops, i, id) && BeatsAt(ops, k, id)
    requires var hb := Run(ops[..i]).tasks[id].heartbeat;
      hb.Some? && forall m :: i <= m < |ops| && BeatsAt(ops, m, id) ==> ops[m].now > hb.value
    ensures StaleOne(Run(ops), id, Run(ops[..i]).tasks[id], grace, sweepNow, now) == Run(ops)
  {
    hide Run;
    hide BeatsAt;
    hide StaleOne;
    SweepFollowsLog(ops, i, id, grace, sweepNow, now);
    var last := LastBeatIsABeat(ops, i, |ops|, id, Run(ops[..i]).tasks[id].heartbeat);
  }

  /** Likewise a task whose last accepted status change left another status is not staled. */
  lemma UpdateSavesTask(ops: seq<Op>, i: nat, id: TaskId, grace: real, sweepNow: int, now: int)
    requires i < |ops| && id in Run(ops[..i]).tasks && NotReused(ops, i, id)
    requires LastStatus(ops, i, |ops|, id, Run(ops[..i]).tasks[id].status) != Run(ops[..i]).tasks[id].status
    ensures StaleOne(Run(ops), id, Run(ops[..i]).tasks[id], grace, sweepNow, now) == Run(ops)
  {
    hide Run;
    hide StaleOne;
    hide LastStatus;
    SweepFollowsLog(ops, i, id, grace, sweepNow, now);
  }
}
