/**
 * The dependency graph over every run of the task store: it stays acyclic and inside one boundary, a
 * batch is accepted exactly when it can be, and blocked tasks never deadlock
 * (crates/henosis-chiasm/src/store.rs).
 */
module Dependencies {
  import opened Base
  import opened TaskGraph
  import opened Tasks

  /** Every edge joins two existing tasks of one boundary. */
  ghost predicate EdgesScoped(db: Db) {
    forall e :: e in db.deps ==> e.task in db.tasks && e.dependsOn in db.tasks && db.tasks[e.task].scope == db.tasks[e.dependsOn].scope
  }

  ghost predicate NoDuplicateEdges(deps: seq<Edge>) {
    forall i, j :: 0 <= i < j < |deps| ==> deps[i] != deps[j]
  }

  ghost predicate DepInv(db: Db) {
    EdgesScoped(db) && NoDuplicateEdges(db.deps) && Acyclic(EdgeSet(db.deps))
  }

  // ----- adding a batch ----------------------------------------------------------------------------

  /** From inside a boundary, the edges of that boundary are all the edges there are. */
  lemma ScopedReach(db: Db, s: Scope, a: TaskId, b: TaskId)
    requires EdgesScoped(db) && InScope(db, s, a)
    ensures Reach(ScopedEdges(db, s), a, b) <==> Reach(EdgeSet(db.deps), a, b)
  {
    var es, fs := ScopedEdges(db, s), EdgeSet(db.deps);
    assert es <= fs;
    if Reach(es, a, b) { ReachMonotone(es, fs, a, b); }
    if Reach(fs, a, b) {
      var p :| PathFrom(fs, p, a, b);
      StaysInScope(db, s, p);
      assert PathFrom(es, p, a, b);
    }
  }

  lemma {:induction false} StaysInScope(db: Db, s: Scope, p: seq<TaskId>)
    requires EdgesScoped(db) && IsPath(EdgeSet(db.deps), p) && InScope(db, s, p[0])
    ensures IsPath(ScopedEdges(db, s), p) && InScope(db, s, p[|p| - 1])
  {
    if |p| > 1 {
      var q := p[..|p| - 1];
      assert IsPath(EdgeSet(db.deps), q);
      StaysInScope(db, s, q);
      assert Edge(p[|p| - 2], p[|p| - 1]) in db.deps;
      forall i | 0 < i < |p| ensures Edge(p[i - 1], p[i]) in ScopedEdges(db, s) {
        if i < |p| - 1 { assert Edge(q[i - 1], q[i]) in ScopedEdges(db, s); }
      }
    }
  }

  /** The edges a batch asks for. */
  ghost function Batch(task: TaskId, ds: seq<TaskId>): set<Edge> {
    set d | d in ds :: Edge(task, d)
  }

  lemma BatchStep(db: Db, task: TaskId, ds: seq<TaskId>)
    requires ds != []
    ensures var next := InsertEdge(db.deps, Edge(task, ds[0]));
      && EdgeSet(next) == EdgeSet(db.deps) + {Edge(task, ds[0])}
      && EdgeSet(next) + Batch(task, ds[1..]) == EdgeSet(db.deps) + Batch(task, ds)
  {
    var next := InsertEdge(db.deps, Edge(task, ds[0]));
    assert ds == [ds[0]] + ds[1..];
    assert forall e :: e in next <==> e in db.deps || e == Edge(task, ds[0]);
    forall e ensures e in Batch(task, ds) <==> e == Edge(task, ds[0]) || e in Batch(task, ds[1..]) {
    }
  }

  /**
   * A batch is accepted exactly when every target is in the boundary and the resulting graph has no
   * cycle; an accepted batch adds exactly its edges, and a cycle is reported only for an edge that closes
   * one with the edges before it.
   */
  lemma {:induction false} AddRestExact(db: Db, s: Scope, task: TaskId, ds: seq<TaskId>)
    requires DepInv(db) && InScope(db, s, task)
    ensures var r := AddRest(db, s, task, ds);
      && (r.Ok? <==> (forall d :: d in ds ==> InScope(db, s, d)) && Acyclic(EdgeSet(db.deps) + Batch(task, ds)))
      && (r.Ok? ==> DepInv(r.value) && r.value == db.(deps := r.value.deps) && EdgeSet(r.value.deps) == EdgeSet(db.deps) + Batch(task, ds))
      && (r.Err? && r.error.DependencyCycle? ==>
            exists j :: 0 <= j < |ds| && r.error == DependencyCycle(task, ds[j]) && Reach(EdgeSet(db.deps) + Batch(task, ds[..j]), ds[j], task))
    decreases |ds|
  {
    hide Acyclic;
    hide Reach;
    if ds == [] {
      assert EdgeSet(db.deps) + Batch(task, ds) == EdgeSet(db.deps);
    } else {
      var d := ds[0];
      var all := EdgeSet(db.deps) + Batch(task, ds);
      assert d in ds && Edge(task, d) in all;
      if d == task {
        ReachSelf(all, task);
        AddClosesCycle(all, task, task);
      } else if InScope(db, s, d) {
        ScopedReach(db, s, d, task);
        if Reach(ScopedEdges(db, s), d, task) {
          ReachMonotone(EdgeSet(db.deps), all, d, task);
          AddClosesCycle(all, task, d);
          assert EdgeSet(db.deps) + Batch(task, ds[..0]) == EdgeSet(db.deps);
        } else {
          var next := db.(deps := InsertEdge(db.deps, Edge(task, d)));
          BatchStep(db, task, ds);
          AddKeepsAcyclic(EdgeSet(db.deps), task, d);
          AddRestExact(next, s, task, ds[1..]);
          var r := AddRest(db, s, task, ds);
          assert forall x :: x in ds <==> x == d || x in ds[1..];
          assert forall x :: InScope(next, s, x) <==> InScope(db, s, x);
          if r.Err? && r.error.DependencyCycle? {
            CycleShifts(db, task, ds, r.error);
          }
        }
      }
    }
  }

  lemma CycleShifts(db: Db, task: TaskId, ds: seq<TaskId>, x: TaskError)
    requires ds != []
    requires exists j :: 0 <= j < |ds[1..]| && x == DependencyCycle(task, ds[1..][j])
                         && Reach(EdgeSet(InsertEdge(db.deps, Edge(task, ds[0]))) + Batch(task, ds[1..][..j]), ds[1..][j], task)
    ensures exists j :: 0 <= j < |ds| && x == DependencyCycle(task, ds[j]) && Reach(EdgeSet(db.deps) + Batch(task, ds[..j]), ds[j], task)
  {
    var j :| 0 <= j < |ds[1..]| && x == DependencyCycle(task, ds[1..][j])
             && Reach(EdgeSet(InsertEdge(db.deps, Edge(task, ds[0]))) + Batch(task, ds[1..][..j]), ds[1..][j], task);
    var head := ds[..j + 1];
    assert head[1..] == ds[1..][..j];
    BatchStep(db, task, head);
    assert ds[j + 1] == ds[1..][j];
  }

  // ----- the graph over every run --------------------------------------------------------------------

  lemma SmallerGraph(db: Db, n: Db)
    requires DepInv(db) && EdgesScoped(n) && NoDuplicateEdges(n.deps) && forall e :: e in n.deps ==> e in db.deps
    ensures DepInv(n)
  {
    assert EdgeSet(n.deps) <= EdgeSet(db.deps);
    AcyclicSubset(EdgeSet(n.deps), EdgeSet(db.deps));
  }

  lemma {:induction false} DropEdgesDistinct(deps: seq<Edge>, id: TaskId)
    requires NoDuplicateEdges(deps)
    ensures NoDuplicateEdges(DropEdges(deps, id))
  {
    if deps != [] {
      DropEdgesDistinct(deps[1..], id);
      assert deps[0] !in deps[1..];
    }
  }

  lemma {:induction false} WithoutEdgeDistinct(deps: seq<Edge>, x: Edge)
    requires NoDuplicateEdges(deps)
    ensures NoDuplicateEdges(WithoutEdge(deps, x))
  {
    if deps != [] {
      WithoutEdgeDistinct(deps[1..], x);
      assert deps[0] !in deps[1..];
    }
  }

  lemma {:induction false} ClaimsTouchOnlyClaims(db: Db, s: Scope, id: TaskId, project: Text, paths: seq<Text>, now: int, expires: int)
    ensures var r := ClaimRest(db, s, id, project, paths, now, expires); r.Ok? ==> r.value.tasks == db.tasks && r.value.deps == db.deps
    decreases |paths|
  {
    if paths != [] {
      var lease := Lease(id, s.owner, project, paths[0], now, expires, false);
      ClaimsTouchOnlyClaims(db.(claims := db.claims + [lease]), s, id, project, paths[1..], now, expires);
    }
  }

  lemma ApplyKeepsGraph(db: Db, op: Op)
    requires DepInv(db)
    ensures DepInv(Apply(db, op))
  {
    hide Acyclic;
    match op {
      case OpAdd(s, id, ds) => if InScope(db, s, id) { AddRestExact(db, s, id, ds); }
      case OpDelete(s, id) =>
        DropEdgesDistinct(db.deps, id);
        SmallerGraph(db, Delete(db, s, id));
      case OpRemove(s, id, d) =>
        WithoutEdgeDistinct(db.deps, Edge(id, d));
        SmallerGraph(db, RemoveDependency(db, s, id, d));
      case OpClaims(s, id, paths, ttl, now) =>
        if InScope(db, s, id) { ClaimsTouchOnlyClaims(db, s, id, db.tasks[id].project, paths, now, TsPlus(now, ttl)); }
      case _ =>
    }
  }

  /** The graph is acyclic and inside one boundary in every reachable state. */
  lemma {:induction false} ReachableGraph(ops: seq<Op>)
    ensures DepInv(Run(ops))
    decreases |ops|
  {
    hide DepInv;
    hide Apply;
    if ops == [] {
      EmptyGraph();
    } else {
      ReachableGraph(ops[..|ops| - 1]);
      ApplyKeepsGraph(Run(ops[..|ops| - 1]), ops[|ops| - 1]);
    }
  }

  lemma EmptyGraph()
    ensures DepInv(EMPTY)
  {
  }

  // ----- deadlock freedom ------------------------------------------------------------------------------

  /** A dependency that is incomplete, or complete with its unblock call still to come. */
  ghost predicate Unfinished(db: Db, pending: set<TaskId>, d: TaskId) {
    d in db.tasks && (db.tasks[d].status != Completed || d in pending)
  }

  ghost predicate WaitsFor(db: Db, pending: set<TaskId>, b: TaskId, except: set<TaskId>) {
    exists d :: Edge(b, d) in db.deps && d !in except && Unfinished(db, pending, d)
  }

  /** Every blocked task has a dependency that will still wake it. */
  ghost predicate NoneStranded(db: Db, pending: set<TaskId>) {
    forall b :: b in db.tasks && db.tasks[b].status == Blocked ==> WaitsFor(db, pending, b, {})
  }

  /** The completions whose `check_and_unblock` has not run yet. */
  ghost function Pending(db: Db, pending: set<TaskId>, op: Op): set<TaskId> {
    match op
    case OpUpdate(s, id, st, _, _) => if InScope(db, s, id) && st == Some(Completed) then pending + {id} else pending
    case OpUnblock(s, id, _) => if InScope(db, s, id) then pending - {id} else pending
    case OpDelete(s, id) => if InScope(db, s, id) then pending - {id} else pending
    case _ => pending
  }

  /** The guard a caller can check before an operation that could strand a blocked task. */
  ghost predicate Disciplined(db: Db, pending: set<TaskId>, op: Op) {
    match op
    case OpCreate(id, task) => id in db.tasks || task.status != Blocked
    case OpUpdate(s, id, st, _, _) => InScope(db, s, id) && st == Some(Blocked) ==> WaitsFor(db, pending, id, {})
    case OpDelete(s, id) =>
      InScope(db, s, id) ==> forall b :: b in db.tasks && b != id && db.tasks[b].status == Blocked ==> WaitsFor(db, pending, b, {id})
    case OpRemove(s, id, d) =>
      InScope(db, s, id) && InScope(db, s, d) && db.tasks[id].status == Blocked ==> WaitsFor(db, pending, id, {d})
    case _ => true
  }

  /** A witness that survives an operation. */
  lemma WaitsStill(db: Db, pending: set<TaskId>, n: Db, later: set<TaskId>, b: TaskId, except: set<TaskId>)
    requires WaitsFor(db, pending, b, except)
    requires forall d :: Edge(b, d) in db.deps && d !in except && Unfinished(db, pending, d) ==> Edge(b, d) in n.deps && Unfinished(n, later, d)
    ensures WaitsFor(n, later, b, {})
  {
    var d :| Edge(b, d) in db.deps && d !in except && Unfinished(db, pending, d);
    assert Edge(b, d) in n.deps && Unfinished(n, later, d);
  }

  lemma NoSelfEdge(db: Db, a: TaskId)
    requires DepInv(db)
    ensures Edge(a, a) !in db.deps
  {
    if Edge(a, a) in db.deps {
      assert IsPath(EdgeSet(db.deps), [a, a]);
    }
  }

  lemma UpdateStrandsNone(db: Db, pending: set<TaskId>, op: Op)
    requires DepInv(db) && NoneStranded(db, pending) && op.OpUpdate?
    ensures NoneStranded(Apply(db, op), Pending(db, pending, op)) <==> Disciplined(db, pending, op)
  {
    hide Acyclic;
    var n, later := Apply(db, op), Pending(db, pending, op);
    if InScope(db, op.scope, op.id) {
      NoSelfEdge(db, op.id);
      forall b | b in n.tasks && n.tasks[b].status == Blocked && WaitsFor(db, pending, b, {}) ensures WaitsFor(n, later, b, {}) {
        WaitsStill(db, pending, n, later, b, {});
      }
      if op.status == Some(Blocked) && WaitsFor(n, later, op.id, {}) {
        WaitsStill(n, later, db, pending, op.id, {});
      }
    }
  }

  lemma UnblockStrandsNone(db: Db, pending: set<TaskId>, op: Op)
    requires DepInv(db) && NoneStranded(db, pending) && op.OpUnblock?
    ensures NoneStranded(Apply(db, op), Pending(db, pending, op))
  {
    hide Acyclic;
    var n, later := Apply(db, op), Pending(db, pending, op);
    forall b | b in n.tasks && n.tasks[b].status == Blocked ensures WaitsFor(n, later, b, {}) {
      var d :| Edge(b, d) in db.deps && Unfinished(db, pending, d);
      if !Unfinished(n, later, d) {
        assert d == op.id && Edge(b, op.id) in db.deps && InScope(db, op.scope, b);
        assert !Unblockable(db, op.scope, op.id, b);
        var e :| e in db.deps && e.task == b && !(InScope(db, op.scope, e.dependsOn) && db.tasks[e.dependsOn].status == Completed);
        assert Edge(b, e.dependsOn) in n.deps && Unfinished(n, later, e.dependsOn);
      }
    }
  }

  lemma RemovalStrandsNone(db: Db, pending: set<TaskId>, op: Op)
    requires DepInv(db) && NoneStranded(db, pending) && (op.OpDelete? || op.OpRemove?)
    ensures NoneStranded(Apply(db, op), Pending(db, pending, op)) <==> Disciplined(db, pending, op)
  {
    hide Acyclic;
    var n, later := Apply(db, op), Pending(db, pending, op);
    var gone := if op.OpDelete? then op.id else op.d;
    forall b | b in n.tasks && n.tasks[b].status == Blocked && WaitsFor(n, later, b, {}) && (op.OpDelete? || b == op.id)
      ensures n != db ==> WaitsFor(db, pending, b, {gone})
    {
      var d :| Edge(b, d) in n.deps && Unfinished(n, later, d);
      if n != db { assert Edge(b, d) in db.deps && d != gone && Unfinished(db, pending, d); }
    }
    if Disciplined(db, pending, op) {
      forall b | b in n.tasks && n.tasks[b].status == Blocked ensures WaitsFor(n, later, b, {}) {
        if op.OpDelete? && InScope(db, op.scope, op.id) {
          WaitsStill(db, pending, n, later, b, {op.id});
        } else if op.OpRemove? && b == op.id && n != db {
          WaitsStill(db, pending, n, later, b, {op.d});
        } else {
          WaitsStill(db, pending, n, later, b, {});
        }
      }
    }
  }

  /**
   * Whatever the operation, a state in which no blocked task is stranded is followed by another one
   * exactly when the operation passes the caller's guard.
   */
  lemma DisciplineIsExact(db: Db, pending: set<TaskId>, op: Op)
    requires DepInv(db) && NoneStranded(db, pending)
    ensures NoneStranded(Apply(db, op), Pending(db, pending, op)) <==> Disciplined(db, pending, op)
  {
    hide Acyclic;
    match op {
      case OpUpdate(_, _, _, _, _) => UpdateStrandsNone(db, pending, op);
      case OpUnblock(_, _, _) => UnblockStrandsNone(db, pending, op);
      case OpDelete(_, _) => RemovalStrandsNone(db, pending, op);
      case OpRemove(_, _, _) => RemovalStrandsNone(db, pending, op);
      case OpCreate(id, task) => CreateStrandsNone(db, pending, op);
      case _ => RestStrandsNone(db, pending, op);
    }
  }

  lemma CreateStrandsNone(db: Db, pending: set<TaskId>, op: Op)
    requires DepInv(db) && NoneStranded(db, pending) && op.OpCreate?
    ensures NoneStranded(Apply(db, op), pending) <==> Disciplined(db, pending, op)
  {
    hide Acyclic;
    var n := Apply(db, op);
    forall b | b in db.tasks && db.tasks[b].status == Blocked ensures WaitsFor(n, pending, b, {}) {
      WaitsStill(db, pending, n, pending, b, {});
    }
    assert op.id !in db.tasks ==> forall e :: e in n.deps ==> e.task != op.id;
    assert op.id !in db.tasks ==> !WaitsFor(n, pending, op.id, {});
  }

  /** Claiming, heartbeats, leases, the sweep and new edges never strand a task. */
  lemma RestStrandsNone(db: Db, pending: set<TaskId>, op: Op)
    requires DepInv(db) && NoneStranded(db, pending)
    requires op.OpClaimNext? || op.OpAdd? || op.OpClaims? || op.OpHeartbeat? || op.OpRelease? || op.OpStale?
    ensures NoneStranded(Apply(db, op), pending)
  {
    hide Acyclic;
    var n := Apply(db, op);
    OnlyAddsEdges(db, op);
    forall b | b in n.tasks && n.tasks[b].status == Blocked ensures WaitsFor(n, pending, b, {}) {
      WaitsStill(db, pending, n, pending, b, {});
    }
  }

  lemma OnlyAddsEdges(db: Db, op: Op)
    requires DepInv(db)
    requires op.OpClaimNext? || op.OpAdd? || op.OpClaims? || op.OpHeartbeat? || op.OpRelease? || op.OpStale?
    ensures var n := Apply(db, op);
      && n.tasks.Keys == db.tasks.Keys && (forall e :: e in db.deps ==> e in n.deps)
      && forall id :: id in db.tasks ==> (n.tasks[id].status == Blocked ==> db.tasks[id].status == Blocked)
                                         && (n.tasks[id].status == Completed ==> db.tasks[id].status == Completed)
  {
    hide Acyclic;
    match op {
      case OpAdd(s, id, ds) =>
        if InScope(db, s, id) {
          AddRestExact(db, s, id, ds);
          forall e | e in db.deps ensures e in Apply(db, op).deps { assert e in EdgeSet(db.deps); }
        }
      case OpClaims(s, id, paths, ttl, now) =>
        if InScope(db, s, id) { ClaimsTouchOnlyClaims(db, s, id, db.tasks[id].project, paths, now, TsPlus(now, ttl)); }
      case _ =>
    }
  }

  /** A run together with the completions that still owe an unblock call. */
  ghost function RunPending(ops: seq<Op>): set<TaskId> {
    if ops == [] then {} else Pending(Run(ops[..|ops| - 1]), RunPending(ops[..|ops| - 1]), ops[|ops| - 1])
  }

  ghost predicate DisciplinedRun(ops: seq<Op>) {
    forall i :: 0 <= i < |ops| ==> Disciplined(Run(ops[..i]), RunPending(ops[..i]), ops[i])
  }

  lemma {:induction false} NoTaskStranded(ops: seq<Op>)
    requires DisciplinedRun(ops)
    ensures NoneStranded(Run(ops), RunPending(ops))
    decreases |ops|
  {
    hide Disciplined;
    hide Apply;
    hide Pending;
    if ops != [] {
      var n := |ops| - 1;
      forall i | 0 <= i < n ensures Disciplined(Run(ops[..n][..i]), RunPending(ops[..n][..i]), ops[..n][i]) {
        assert ops[..n][..i] == ops[..i];
      }
      NoTaskStranded(ops[..n]);
      ReachableGraph(ops[..n]);
      assert Disciplined(Run(ops[..n]), RunPending(ops[..n]), ops[n]);
      DisciplineIsExact(Run(ops[..n]), RunPending(ops[..n]), ops[n]);
    }
  }

  lemma {:induction false} DistinctBound(p: seq<TaskId>, s: set<TaskId>)
    requires (forall i, j :: 0 <= i < j < |p| ==> p[i] != p[j]) && forall i :: 0 <= i < |p| ==> p[i] in s
    ensures |p| <= |s|
  {
    if p != [] {
      var n := |p| - 1;
      DistinctBound(p[..n], s - {p[n]});
    }
  }

  lemma PathIsSimple(es: set<Edge>, p: seq<TaskId>)
    requires Acyclic(es) && IsPath(es, p)
    ensures forall i, j :: 0 <= i < j < |p| ==> p[i] != p[j]
  {
    forall i, j | 0 <= i < j < |p| ensures p[i] != p[j] {
      PathSlice(es, p, i, j + 1);
      assert p[i..j + 1][0] == p[i] && p[i..j + 1][|p[i..j + 1]| - 1] == p[j];
    }
  }

  ghost predicate Incomplete(db: Db, id: TaskId) {
    id in db.tasks && db.tasks[id].status != Completed
  }

  /** Following incomplete dependencies from a blocked task must end at a task that can move. */
  lemma {:induction false} FollowToMovable(db: Db, p: seq<TaskId>) returns (x: TaskId)
    requires DepInv(db) && NoneStranded(db, {})
    requires IsPath(EdgeSet(db.deps), p) && forall i :: 0 <= i < |p| ==> Incomplete(db, p[i])
    ensures Incomplete(db, x) && db.tasks[x].status != Blocked
    decreases |db.tasks| - |p|
  {
    x := p[|p| - 1];
    if db.tasks[x].status == Blocked {
      var d :| Edge(x, d) in db.deps && Unfinished(db, {}, d);
      var q := p + [d];
      assert IsPath(EdgeSet(db.deps), q);
      PathIsSimple(EdgeSet(db.deps), q);
      DistinctBound(q, db.tasks.Keys);
      x := FollowToMovable(db, q);
    }
  }

  /** Deadlock freedom: once the owed unblock calls have run, an incomplete task means a movable one. */
  lemma DeadlockFree(ops: seq<Op>, t: TaskId) returns (x: TaskId)
    requires DisciplinedRun(ops) && RunPending(ops) == {} && Incomplete(Run(ops), t)
    ensures Incomplete(Run(ops), x) && Run(ops).tasks[x].status != Blocked
  {
    hide Run;
    hide DisciplinedRun;
    NoTaskStranded(ops);
    ReachableGraph(ops);
    assert IsPath(EdgeSet(Run(ops).deps), [t]);
    x := FollowToMovable(Run(ops), [t]);
  }

  /** A blocked task without a dependency. */
  ghost predicate Stranded(db: Db, b: TaskId) {
    b in db.tasks && db.tasks[b].status == Blocked && forall e :: e in db.deps ==> e.task != b
  }

  /** Somebody deals with this very task: a status update, a deletion, a new dependency, or a sweep of a blocked row. */
  ghost predicate Touches(op: Op, b: TaskId) {
    match op
    case OpUpdate(_, id, st, _, _) => id == b && st.Some?
    case OpDelete(_, id) => id == b
    case OpAdd(_, id, _) => id == b
    case OpStale(id, selected, _, _, _) => id == b && !Sweepable(selected)
    case _ => false
  }

  lemma StaysStranded(db: Db, op: Op, b: TaskId)
    requires Stranded(db, b) && !Touches(op, b)
    ensures Stranded(Apply(db, op), b)
  {
    match op {
      case OpAdd(s, id, ds) => if InScope(db, s, id) { AddsOnlyItsOwn(db, s, id, ds, b); }
      case OpClaims(s, id, paths, ttl, now) =>
        if InScope(db, s, id) { ClaimsTouchOnlyClaims(db, s, id, db.tasks[id].project, paths, now, TsPlus(now, ttl)); }
      case OpUnblock(s, trigger, now) => assert !Unblockable(db, s, trigger, b);
      case _ =>
    }
  }

  lemma {:induction false} AddsOnlyItsOwn(db: Db, s: Scope, task: TaskId, ds: seq<TaskId>, b: TaskId)
    requires b != task
    ensures var r := AddRest(db, s, task, ds); r.Ok? ==> r.value.tasks == db.tasks && forall e :: e in r.value.deps && e.task == b ==> e in db.deps
    decreases |ds|
  {
    if ds != [] {
      AddsOnlyItsOwn(db.(deps := InsertEdge(db.deps, Edge(task, ds[0]))), s, task, ds[1..], b);
    }
  }

  /**
   * A stranded task stays stranded in every continuation in which nobody touches it, whatever is completed and
   * however often unblocking is triggered.
   */
  lemma {:induction false} StrandedUntilTouched(ops: seq<Op>, n: nat, b: TaskId)
    requires n <= |ops| && Stranded(Run(ops[..n]), b) && forall m :: n <= m < |ops| ==> !Touches(ops[m], b)
    ensures Stranded(Run(ops), b)
    decreases |ops|
  {
    hide Stranded;
    hide Touches;
    hide Apply;
    if n == |ops| {
      assert ops[..n] == ops;
    } else {
      var k := |ops| - 1;
      assert ops[..k][..n] == ops[..n];
      StrandedUntilTouched(ops[..k], n, b);
      StaysStranded(Run(ops[..k]), ops[k], b);
    }
  }

  /** Two tasks, the second of which waits for the first. */
  lemma WaitingPair(s: Scope, active: Task) returns (ops: seq<Op>)
    requires active == Task(s, None, [], Active, None, 300, 0)
    ensures Run(ops) == Db(map[1 := active, 2 := active], [Edge(2, 1)], []) && RunPending(ops) == {}
  {
    hide Run;
    hide RunPending;
    hide AddRest;
    ops := [OpCreate(1, active)];
    FirstOp(OpCreate(1, active));
    NextOp(ops, OpCreate(2, active));
    ops := ops + [OpCreate(2, active)];
    var two := Db(map[1 := active, 2 := active], [], []);
    assert Run(ops) == two;
    OneEdge(two, s);
    NextOp(ops, OpAdd(s, 2, [1]));
    ops := ops + [OpAdd(s, 2, [1])];
  }

  /** Stranding happens: removing the last dependency of a blocked task leaves it stranded, with no call outstanding. */
  lemma StrandingHappens()
    ensures exists ops, b :: Stranded(Run(ops), b) && RunPending(ops) == {} && !NoneStranded(Run(ops), {})
  {
    hide Run;
    hide RunPending;
    var s := Scope(0, 0);
    var active := Task(s, None, [], Active, None, 300, 0);
    var ops := WaitingPair(s, active);
    NextOp(ops, OpUpdate(s, 2, Some(Blocked), None, 0));
    ops := ops + [OpUpdate(s, 2, Some(Blocked), None, 0)];
    NextOp(ops, OpRemove(s, 2, 1));
    ops := ops + [OpRemove(s, 2, 1)];
    assert Stranded(Run(ops), 2);
    assert !WaitsFor(Run(ops), {}, 2, {});
  }

  lemma FirstOp(op: Op)
    ensures Run([op]) == Apply(EMPTY, op) && RunPending([op]) == Pending(EMPTY, {}, op)
  {
    assert [op][..0] == [];
    assert Run([]) == EMPTY && RunPending([]) == {};
  }

  lemma NextOp(ops: seq<Op>, op: Op)
    ensures Run(ops + [op]) == Apply(Run(ops), op) && RunPending(ops + [op]) == Pending(Run(ops), RunPending(ops), op)
  {
    assert (ops + [op])[..|ops + [op]| - 1] == ops;
  }

  lemma OneEdge(db: Db, s: Scope)
    requires InScope(db, s, 1) && InScope(db, s, 2) && db.deps == []
    ensures AddDependencies(db, s, 2, [1]) == Ok(db.(deps := [Edge(2, 1)]))
  {
    var es := ScopedEdges(db, s);
    assert es == {};
    if Reach(es, 1, 2) { var d := ReachNeedsEdge(es, 1, 2); }
    assert [1][1..] == [];
    assert AddRest(db.(deps := [Edge(2, 1)]), s, 2, []) == Ok(db.(deps := [Edge(2, 1)]));
    assert [] + [Edge(2, 1)] == [Edge(2, 1)];
  }
}
