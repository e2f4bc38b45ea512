/**
 * Path leases over time and the two-phase stale sweep (crates/henosis-chiasm/src/store.rs). Clock stamps
 * are read before the store lock, so operations may commit in any stamp order.
 */
module Leases {
  import opened Base
  import opened TaskGraph
  import opened Tasks

  /** Two leases on one path of one project inside one tenant-and-owner boundary. */
  ghost predicate SameSlot(db: Db, c: Lease, d: Lease) {
    && c.task in db.tasks && d.task in db.tasks && db.tasks[c.task].scope == db.tasks[d.task].scope
    && c.project == d.project && c.path == d.path
  }

  /** No two tasks hold active leases on the same slot at time `now`. */
  ghost predicate Exclusive(db: Db, now: int) {
    forall c, d :: c in db.claims && d in db.claims && c.task != d.task && SameSlot(db, c, d) ==> !(ActiveAt(c, now) && ActiveAt(d, now))
  }

  /** Leases belong to existing tasks and carry their owner. */
  ghost predicate LeasesOwned(db: Db) {
    forall c :: c in db.claims ==> c.task in db.tasks && c.owner == db.tasks[c.task].scope.owner
  }

  /** Exclusion at the latest stamp seen, hence at any later time. */
  ghost predicate LeaseInv(db: Db, clock: int) {
    LeasesOwned(db) && Exclusive(db, clock)
  }

  function Max(a: int, b: int): int {
    if a > b then a else b
  }

  /** The latest stamp after one more operation; only lease-writing operations are stamped. */
  ghost function Tick(clock: int, op: Op): int {
    match op
    case OpClaims(_, _, _, _, now) => Max(clock, now)
    case OpHeartbeat(_, _, now, _) => Max(clock, now)
    case _ => clock
  }

  /** The heartbeat does not land on a task that has a lapsed unreleased lease. */
  ghost predicate NoRevival(db: Db, clock: int, op: Op) {
    op.OpHeartbeat? && op.refreshed && InScope(db, op.scope, op.id) ==>
      forall c :: c in db.claims && c.task == op.id && !c.released ==> c.expiresAt > Tick(clock, op)
  }

  /** A conflict check of the task's own unreleased paths would come back empty. */
  ghost predicate PathsFree(db: Db, s: Scope, id: TaskId, now: int) {
    forall c :: c in db.claims && c.task == id && !c.released ==> FirstConflict(db, s, id, c.project, c.path, db.claims, now).None?
  }

  /**
   * The heartbeat comes so late that what it extends has lapsed already, or nobody else holds one of the task's
   * paths. Both are judged at the latest stamp, since stamps may commit out of order.
   */
  ghost predicate SafeHeartbeat(db: Db, clock: int, op: Op) {
    op.OpHeartbeat? && op.refreshed && InScope(db, op.scope, op.id) ==>
      op.now + REFRESH <= Tick(clock, op) || PathsFree(db, op.scope, op.id, Tick(clock, op))
  }

  lemma ExclusiveLater(db: Db, clock: int, now: int)
    requires Exclusive(db, clock) && clock <= now
    ensures Exclusive(db, now)
  {
  }

  /** Claiming a path adds one lease against which no rival is active at the claim's own stamp. */
  lemma {:induction false} ClaimRestKeeps(db: Db, s: Scope, id: TaskId, project: Text, paths: seq<Text>, now: int, expires: int, clock: int)
    requires LeaseInv(db, clock) && InScope(db, s, id) && now <= clock
    ensures var r := ClaimRest(db, s, id, project, paths, now, expires); r.Ok? ==> LeaseInv(r.value, clock)
    decreases |paths|
  {
    if paths != [] && FirstConflict(db, s, id, project, paths[0], db.claims, now).None? {
      var lease := Lease(id, s.owner, project, paths[0], now, expires, false);
      var n := db.(claims := db.claims + [lease]);
      forall c | c in db.claims && c.task != id && SameSlot(n, c, lease) ensures !ActiveAt(c, clock) {
        assert !c.released ==> Rival(db, s, id, project, paths[0], c);
      }
      ClaimRestKeeps(n, s, id, project, paths[1..], now, expires, clock);
    }
  }

  /** The row a refreshed lease was before the heartbeat. */
  lemma BeforeRefresh(claims: seq<Lease>, id: TaskId, lease: int, c: Lease) returns (a: Lease)
    requires c in Refreshed(claims, id, lease)
    ensures a in claims && c == if a.task == id && !a.released then a.(expiresAt := lease) else a
  {
    var i :| 0 <= i < |claims| && Refreshed(claims, id, lease)[i] == c;
    a := claims[i];
  }

  /** With free paths, or leases that lapse at once, no pair is active after a heartbeat that was not before. */
  lemma SafePair(db: Db, clock: int, op: Op, c: Lease, d: Lease)
    requires LeaseInv(db, Tick(clock, op)) && op.OpHeartbeat? && op.refreshed && InScope(db, op.scope, op.id) && SafeHeartbeat(db, clock, op)
    requires var n := Apply(db, op); c in n.claims && d in n.claims && c.task != d.task && SameSlot(n, c, d)
    ensures !(ActiveAt(c, Tick(clock, op)) && ActiveAt(d, Tick(clock, op)))
  {
    var later := Tick(clock, op);
    var a := BeforeRefresh(db.claims, op.id, op.now + REFRESH, c);
    var b := BeforeRefresh(db.claims, op.id, op.now + REFRESH, d);
    assert SameSlot(db, a, b);
    if op.now + REFRESH > later {
      if a.task == op.id && !a.released && !b.released { assert Rival(db, op.scope, op.id, a.project, a.path, b); }
      if b.task == op.id && !a.released && !b.released { assert Rival(db, op.scope, op.id, b.project, b.path, a); }
    }
  }

  lemma BusyPathOverlaps(db: Db, clock: int, op: Op)
    requires LeasesOwned(db) && op.OpHeartbeat? && !SafeHeartbeat(db, clock, op)
    ensures !Exclusive(Apply(db, op), Tick(clock, op))
  {
    var s, id, now := op.scope, op.id, Tick(clock, op);
    var c :| c in db.claims && c.task == id && !c.released && FirstConflict(db, s, id, c.project, c.path, db.claims, now).Some?;
    var d := FirstConflict(db, s, id, c.project, c.path, db.claims, now).value;
    hide FirstConflict;
    hide Apply;
    hide Exclusive;
    ExtendedRivals(db, op, now, c, d);
  }

  /** Extending a lease whose path another task holds leaves two active leases on one slot. */
  lemma ExtendedRivals(db: Db, op: Op, now: int, c: Lease, d: Lease)
    requires LeasesOwned(db) && op.OpHeartbeat? && op.refreshed && InScope(db, op.scope, op.id) && op.now + REFRESH > now
    requires c in db.claims && c.task == op.id && !c.released
    requires d in db.claims && Rival(db, op.scope, op.id, c.project, c.path, d) && d.expiresAt > now
    ensures !Exclusive(Apply(db, op), now)
  {
    var n := Apply(db, op);
    var i :| 0 <= i < |db.claims| && db.claims[i] == c;
    var j :| 0 <= j < |db.claims| && db.claims[j] == d;
    assert n.claims == Refreshed(db.claims, op.id, op.now + REFRESH);
    var e := c.(expiresAt := op.now + REFRESH);
    assert n.claims[i] == e && n.claims[j] == d;
    assert e in n.claims && d in n.claims;
    assert SameSlot(n, e, d) && ActiveAt(e, now) && ActiveAt(d, now);
  }

  lemma HeartbeatKeepsOwners(db: Db, op: Op)
    requires LeasesOwned(db) && op.OpHeartbeat?
    ensures LeasesOwned(Apply(db, op))
  {
    var n := Apply(db, op);
    if InScope(db, op.scope, op.id) && op.refreshed {
      forall c | c in n.claims ensures c.task in n.tasks && c.owner == n.tasks[c.task].scope.owner {
        var a := BeforeRefresh(db.claims, op.id, op.now + REFRESH, c);
      }
    }
  }

  /**
   * Whatever its stamp, a heartbeat keeps exclusion at the latest stamp if and only if what it extends has lapsed
   * already or a conflict check of the task's own unreleased paths would come back empty.
   */
  lemma HeartbeatSafeExactly(db: Db, clock: int, op: Op)
    requires LeaseInv(db, clock) && op.OpHeartbeat?
    ensures LeasesOwned(Apply(db, op))
    ensures Exclusive(Apply(db, op), Tick(clock, op)) <==> SafeHeartbeat(db, clock, op)
  {
    var n, later := Apply(db, op), Tick(clock, op);
    ExclusiveLater(db, clock, later);
    HeartbeatKeepsOwners(db, op);
    if !SafeHeartbeat(db, clock, op) {
      BusyPathOverlaps(db, clock, op);
    } else if InScope(db, op.scope, op.id) && op.refreshed {
      hide SafeHeartbeat;
      forall c, d | c in n.claims && d in n.claims && c.task != d.task && SameSlot(n, c, d) ensures !(ActiveAt(c, later) && ActiveAt(d, later)) {
        SafePair(db, clock, op, c, d);
      }
    }
  }

  /** A heartbeat that revives nothing is safe. */
  lemma NoRevivalIsSafe(db: Db, clock: int, op: Op)
    requires LeaseInv(db, clock) && NoRevival(db, clock, op)
    ensures SafeHeartbeat(db, clock, op)
  {
    if op.OpHeartbeat? && op.refreshed && InScope(db, op.scope, op.id) {
      var later := Tick(clock, op);
      ExclusiveLater(db, clock, later);
      forall c | c in db.claims && c.task == op.id && !c.released
        ensures FirstConflict(db, op.scope, op.id, c.project, c.path, db.claims, later).None?
      {
        var r := FirstConflict(db, op.scope, op.id, c.project, c.path, db.claims, later);
        assert r.Some? ==> SameSlot(db, c, r.value);
      }
    }
  }

  /** Releasing, dropping and task changes leave every surviving lease no more active than before. */
  lemma FewerLeases(db: Db, n: Db, clock: int)
    requires LeaseInv(db, clock)
    requires forall c :: c in n.claims ==> c in db.claims || (c.released && exists b :: b in db.claims && b.task == c.task && b.owner == c.owner)
    requires forall c :: c in n.claims && c.task in db.tasks ==> c.task in n.tasks && n.tasks[c.task].scope == db.tasks[c.task].scope
    ensures LeaseInv(n, clock)
  {
    forall c | c in n.claims ensures c.task in n.tasks && c.owner == n.tasks[c.task].scope.owner {
      if c !in db.claims {
        var b :| b in db.claims && b.task == c.task && b.owner == c.owner;
      }
    }
    forall c, d | c in n.claims && d in n.claims && c.task != d.task && SameSlot(n, c, d) ensures !(ActiveAt(c, clock) && ActiveAt(d, clock)) {
      if c in db.claims && d in db.claims { assert SameSlot(db, c, d); }
    }
  }

  lemma ReleasedRows(db: Db, id: TaskId)
    ensures forall c :: c in Released(db.claims, id) ==>
      c in db.claims || (c.released && exists b :: b in db.claims && b.task == c.task && b.owner == c.owner)
    ensures forall c :: c in Released(db.claims, id) && c.task == id ==> c.released
  {
    forall c | c in Released(db.claims, id)
      ensures c in db.claims || (c.released && exists b :: b in db.claims && b.task == c.task && b.owner == c.owner)
    {
      var i :| 0 <= i < |db.claims| && Released(db.claims, id)[i] == c;
      assert db.claims[i] in db.claims;
    }
  }

  /** Every operation keeps exclusion, except a heartbeat that is not safe, which breaks it. */
  lemma StepKeepsLeases(db: Db, clock: int, op: Op)
    requires LeaseInv(db, clock)
    ensures LeasesOwned(Apply(db, op))
    ensures Exclusive(Apply(db, op), Tick(clock, op)) <==> SafeHeartbeat(db, clock, op)
  {
    match op {
      case OpHeartbeat(_, _, _, _) => HeartbeatSafeExactly(db, clock, op);
      case OpClaims(s, id, paths, ttl, now) =>
        ExclusiveLater(db, clock, Tick(clock, op));
        if InScope(db, s, id) { ClaimRestKeeps(db, s, id, db.tasks[id].project, paths, now, TsPlus(now, ttl), Tick(clock, op)); }
      case OpAdd(s, id, ds) =>
        if InScope(db, s, id) { AddTouchesOnlyEdges(db, s, id, ds); }
        FewerLeases(db, Apply(db, op), clock);
      case OpStale(id, selected, grace, sweepNow, now) =>
        ReleasedRows(db, id);
        FewerLeases(db, Apply(db, op), clock);
      case OpRelease(s, id) =>
        ReleasedRows(db, id);
        FewerLeases(db, Apply(db, op), clock);
      case _ => FewerLeases(db, Apply(db, op), clock);
    }
  }

  lemma {:induction false} AddTouchesOnlyEdges(db: Db, s: Scope, id: TaskId, ds: seq<TaskId>)
    ensures var r := AddRest(db, s, id, ds); r.Ok? ==> r.value.tasks == db.tasks && r.value.claims == db.claims
    decreases |ds|
  {
    if ds != [] {
      AddTouchesOnlyEdges(db.(deps := InsertEdge(db.deps, Edge(id, ds[0]))), s, id, ds[1..]);
    }
  }

  // ----- every run -------------------------------------------------------------------------------------

  /** The latest stamp of a run that starts at stamp `start`. */
  ghost function Clock(start: int, ops: seq<Op>): int {
    if ops == [] then start else Tick(Clock(start, ops[..|ops| - 1]), ops[|ops| - 1])
  }

  ghost predicate SafeHeartbeats(start: int, ops: seq<Op>) {
    forall i :: 0 <= i < |ops| ==> SafeHeartbeat(Run(ops[..i]), Clock(start, ops[..i]), ops[i])
  }

  ghost predicate NoRevivals(start: int, ops: seq<Op>) {
    forall i :: 0 <= i < |ops| ==> NoRevival(Run(ops[..i]), Clock(start, ops[..i]), ops[i])
  }

  lemma SafePrefix(start: int, ops: seq<Op>, n: nat)
    requires SafeHeartbeats(start, ops) && n <= |ops|
    ensures SafeHeartbeats(start, ops[..n])
  {
    hide SafeHeartbeat;
    forall i | 0 <= i < n ensures SafeHeartbeat(Run(ops[..n][..i]), Clock(start, ops[..n][..i]), ops[..n][i]) {
      assert ops[..n][..i] == ops[..i];
    }
  }

  lemma {:induction false} ReachableLeases(start: int, ops: seq<Op>)
    requires SafeHeartbeats(start, ops)
    ensures LeaseInv(Run(ops), Clock(start, ops))
    decreases |ops|
  {
    hide SafeHeartbeat;
    hide LeasesOwned;
    hide Exclusive;
    hide Apply;
    hide Tick;
    if ops == [] {
      NoLeases(start);
    } else {
      var n := |ops| - 1;
      SafePrefix(start, ops, n);
      ReachableLeases(start, ops[..n]);
      assert SafeHeartbeat(Run(ops[..n]), Clock(start, ops[..n]), ops[n]);
      StepKeepsLeases(Run(ops[..n]), Clock(start, ops[..n]), ops[n]);
    }
  }

  lemma NoLeases(start: int)
    ensures LeaseInv(EMPTY, start)
  {
  }

  /**
   * Lease exclusion: in every run whose heartbeats are safe, at any time at or after every stamp, no two tasks hold
   * active leases on the same slot.
   */
  lemma LeaseExclusion(start: int, ops: seq<Op>, now: int)
    requires SafeHeartbeats(start, ops) && now >= Clock(start, ops)
    ensures Exclusive(Run(ops), now)
  {
    ReachableLeases(start, ops);
    ExclusiveLater(Run(ops), Clock(start, ops), now);
  }

  ghost predicate AlwaysExclusive(start: int, ops: seq<Op>) {
    forall k :: 0 <= k <= |ops| ==> Exclusive(Run(ops[..k]), Clock(start, ops[..k]))
  }

  /** The condition is exact: a run is exclusive throughout if and only if every heartbeat in it is safe. */
  lemma ExclusionExactly(start: int, ops: seq<Op>)
    ensures AlwaysExclusive(start, ops) <==> SafeHeartbeats(start, ops)
  {
    hide Exclusive;
    hide SafeHeartbeat;
    hide Run;
    hide Clock;
    if SafeHeartbeats(start, ops) {
      forall k | 0 <= k <= |ops| ensures Exclusive(Run(ops[..k]), Clock(start, ops[..k])) {
        SafePrefix(start, ops, k);
        LeaseExclusion(start, ops[..k], Clock(start, ops[..k]));
      }
    } else {
      UnsafeRunOverlaps(start, ops);
    }
  }

  /** The first heartbeat that is not safe breaks exclusion on the spot. */
  lemma {:induction false} UnsafeRunOverlaps(start: int, ops: seq<Op>)
    requires !SafeHeartbeats(start, ops)
    ensures !AlwaysExclusive(start, ops)
    decreases |ops|
  {
    hide SafeHeartbeat;
    hide Exclusive;
    hide LeasesOwned;
    hide Apply;
    hide Tick;
    var n := |ops| - 1;
    if SafeHeartbeats(start, ops[..n]) {
      ReachableLeases(start, ops[..n]);
      StepKeepsLeases(Run(ops[..n]), Clock(start, ops[..n]), ops[n]);
      LastIsUnsafe(start, ops);
      assert ops[..|ops|] == ops;
      assert !Exclusive(Run(ops[..|ops|]), Clock(start, ops[..|ops|]));
    } else {
      UnsafeRunOverlaps(start, ops[..n]);
      var k :| 0 <= k <= n && !Exclusive(Run(ops[..n][..k]), Clock(start, ops[..n][..k]));
      assert ops[..n][..k] == ops[..k];
    }
  }

  lemma LastIsUnsafe(start: int, ops: seq<Op>)
    requires ops != [] && SafeHeartbeats(start, ops[..|ops| - 1]) && !SafeHeartbeats(start, ops)
    ensures !SafeHeartbeat(Run(ops[..|ops| - 1]), Clock(start, ops[..|ops| - 1]), ops[|ops| - 1])
  {
    hide SafeHeartbeat;
    var n := |ops| - 1;
    forall i | 0 <= i < n ensures SafeHeartbeat(Run(ops[..i]), Clock(start, ops[..i]), ops[i]) {
      assert ops[..n][..i] == ops[..i] && ops[..n][i] == ops[i];
    }
  }

  /** In particular a run is safe in which no heartbeat lands on a task with a lapsed unreleased lease. */
  lemma {:induction false} NoRevivalsAreSafe(start: int, ops: seq<Op>)
    requires NoRevivals(start, ops)
    ensures SafeHeartbeats(start, ops)
    decreases |ops|
  {
    hide SafeHeartbeat;
    hide NoRevival;
    hide LeaseInv;
    if ops != [] {
      var n := |ops| - 1;
      forall i | 0 <= i < n ensures NoRevival(Run(ops[..n][..i]), Clock(start, ops[..n][..i]), ops[..n][i]) {
        assert ops[..n][..i] == ops[..i];
      }
      NoRevivalsAreSafe(start, ops[..n]);
      ReachableLeases(start, ops[..n]);
      assert NoRevival(Run(ops[..n]), Clock(start, ops[..n]), ops[n]);
      NoRevivalIsSafe(Run(ops[..n]), Clock(start, ops[..n]), ops[n]);
      forall i | 0 <= i < |ops| ensures SafeHeartbeat(Run(ops[..i]), Clock(start, ops[..i]), ops[i]) {
        if i < n { assert ops[..n][..i] == ops[..i] && ops[..n][i] == ops[i]; }
      }
    }
  }

  lemma OneMore(start: int, ops: seq<Op>, op: Op)
    ensures Run(ops + [op]) == Apply(Run(ops), op) && Clock(start, ops + [op]) == Tick(Clock(start, ops), op)
  {
    assert (ops + [op])[..|ops + [op]| - 1] == ops;
  }

  /** The deliberate revival of a lapsed lease does break exclusion. */
  lemma RevivalOverlaps()
    ensures exists ops, now :: now >= Clock(0, ops) && !Exclusive(Run(ops), now)
  {
    hide Run;
    hide Clock;
    var s := Scope(0, 0);
    var task := Task(s, None, [], Active, None, 300, 0);
    var two := map[1 := task, 2 := task];
    var a := Lease(1, 0, [], [7], 0, SECOND, false);
    var b := Lease(2, 0, [], [7], 2 * SECOND, 3602 * SECOND, false);
    var ops := TwoClaims(s, task, two, a, b);
    var beat := OpHeartbeat(s, 1, 3 * SECOND, true);
    OneMore(0, ops, beat);
    var n, revived := Run(ops + [beat]), a.(expiresAt := 603 * SECOND);
    assert n.claims[0] == revived && n.claims[1] == b;
    assert revived in n.claims && b in n.claims && SameSlot(n, revived, b);
    assert !Exclusive(n, 3 * SECOND);
  }

  /** Task 1 claims a path for a second; two seconds later task 2 rightly claims the lapsed path. */
  lemma TwoClaims(s: Scope, task: Task, two: map<TaskId, Task>, a: Lease, b: Lease) returns (ops: seq<Op>)
    requires s == Scope(0, 0) && task == Task(s, None, [], Active, None, 300, 0) && two == map[1 := task, 2 := task]
    requires a == Lease(1, 0, [], [7], 0, SECOND, false) && b == Lease(2, 0, [], [7], 2 * SECOND, 3602 * SECOND, false)
    ensures Run(ops) == Db(two, [], [a, b]) && Clock(0, ops) == 2 * SECOND
  {
    assert Run([]) == EMPTY && Clock(0, []) == 0;
    hide Run;
    hide Clock;
    OneMore(0, [], OpCreate(1, task));
    ops := [] + [OpCreate(1, task)];
    OneMore(0, ops, OpCreate(2, task));
    ops := ops + [OpCreate(2, task)];
    assert Run(ops) == Db(two, [], []);
    FirstClaim(two, s, a);
    OneMore(0, ops, OpClaims(s, 1, [[7]], 1, 0));
    ops := ops + [OpClaims(s, 1, [[7]], 1, 0)];
    SecondClaim(two, s, a, b);
    OneMore(0, ops, OpClaims(s, 2, [[7]], 3600, 2 * SECOND));
    ops := ops + [OpClaims(s, 2, [[7]], 3600, 2 * SECOND)];
  }

  lemma FirstClaim(two: map<TaskId, Task>, s: Scope, a: Lease)
    requires 1 in two && two[1].scope == s == Scope(0, 0) && two[1].project == [] && a == Lease(1, 0, [], [7], 0, SECOND, false)
    ensures CreateClaims(Db(two, [], []), s, 1, [[7]], 1, 0) == Ok(Db(two, [], [a]))
  {
    assert ClaimRest(Db(two, [], [a]), s, 1, [], [], 0, SECOND) == Ok(Db(two, [], [a]));
    assert TsPlus(0, 1) == SECOND;
    assert [] + [a] == [a];
  }

  lemma SecondClaim(two: map<TaskId, Task>, s: Scope, a: Lease, b: Lease)
    requires 1 in two && 2 in two && two[1].scope == two[2].scope == s == Scope(0, 0) && two[2].project == []
    requires a == Lease(1, 0, [], [7], 0, SECOND, false) && b == Lease(2, 0, [], [7], 2 * SECOND, 3602 * SECOND, false)
    ensures CreateClaims(Db(two, [], [a]), s, 2, [[7]], 3600, 2 * SECOND) == Ok(Db(two, [], [a, b]))
  {
    var db := Db(two, [], [a]);
    assert FirstConflict(db, s, 2, [], [7], [], 2 * SECOND).None?;
    assert FirstConflict(db, s, 2, [], [7], [a], 2 * SECOND).None?;
    assert ClaimRest(Db(two, [], [a, b]), s, 2, [], [], 2 * SECOND, 3602 * SECOND) == Ok(Db(two, [], [a, b]));
    assert TsPlus(2 * SECOND, 3600) == 3602 * SECOND;
    assert [a] + [b] == [a, b];
  }
}
