/**
 * The task store itself: its tables, the breadth-first search behind the cycle check, and the
 * transactions, each proved against its function on rows (crates/henosis-chiasm/src/store.rs).
 */
module TaskStore {
  import opened Base
  import opened TaskGraph
  import opened Tasks
  import opened Dependencies

  // ----- the breadth-first search --------------------------------------------------------------------

  /** Everything the search can ever queue. */
  ghost function Universe(deps: seq<Edge>, start: TaskId): set<TaskId> {
    {start} + set e | e in deps :: e.dependsOn
  }

  /** The dependency query of one dequeued task, in row order. */
  method VisibleTargets(db: Db, s: Scope, current: TaskId) returns (found: seq<TaskId>)
    ensures forall d :: d in found <==> Edge(current, d) in ScopedEdges(db, s)
  {
    found := [];
    for i := 0 to |db.deps|
      invariant forall d :: d in found <==> Edge(current, d) in db.deps[..i] && InScope(db, s, current) && InScope(db, s, d)
    {
      var e := db.deps[i];
      if e.task == current && InScope(db, s, e.task) && InScope(db, s, e.dependsOn) {
        found := found + [e.dependsOn];
      }
    }
    assert db.deps[..|db.deps|] == db.deps;
  }

  /** What the search knows: all it has met is reachable, and whatever it visited has its targets in view. */
  ghost predicate Searching(es: set<Edge>, deps: seq<Edge>, start: TaskId, visited: set<TaskId>, queue: seq<TaskId>) {
    && (start in queue || start in visited)
    && (forall t :: t in queue || t in visited ==> Reach(es, start, t) && t in Universe(deps, start))
    && (forall e :: e in es && e.task in visited ==> e.dependsOn in visited || e.dependsOn in queue)
  }

  lemma SearchStarts(es: set<Edge>, deps: seq<Edge>, start: TaskId)
    ensures Searching(es, deps, start, {}, [start])
  {
    ReachSelf(es, start);
  }

  /** The next task is reachable, and visiting it for the first time uses up the universe. */
  lemma SearchHead(es: set<Edge>, deps: seq<Edge>, start: TaskId, visited: set<TaskId>, queue: seq<TaskId>)
    requires Searching(es, deps, start, visited, queue) && queue != []
    ensures Reach(es, start, queue[0])
    ensures queue[0] !in visited ==> |Universe(deps, start) - (visited + {queue[0]})| < |Universe(deps, start) - visited|
  {
    hide Reach;
    var u := Universe(deps, start);
    assert queue[0] in queue && queue[0] in u;
    assert u - (visited + {queue[0]}) == (u - visited) - {queue[0]};
  }

  /** An exhausted search has met everything the start reaches. */
  lemma SearchExhausted(es: set<Edge>, deps: seq<Edge>, visited: set<TaskId>, start: TaskId, needle: TaskId)
    requires Searching(es, deps, start, visited, []) && needle !in visited
    ensures !Reach(es, start, needle)
  {
    if Reach(es, start, needle) {
      var p :| PathFrom(es, p, start, needle);
      ClosedUnderPath(es, visited, p);
    }
  }

  lemma SearchSkips(es: set<Edge>, deps: seq<Edge>, start: TaskId, visited: set<TaskId>, queue: seq<TaskId>)
    requires Searching(es, deps, start, visited, queue) && queue != [] && queue[0] in visited
    ensures Searching(es, deps, start, visited, queue[1..])
  {
    hide Reach;
    assert forall t :: t in queue <==> t == queue[0] || t in queue[1..];
  }

  lemma SearchExpands(es: set<Edge>, deps: seq<Edge>, start: TaskId, visited: set<TaskId>, queue: seq<TaskId>, targets: seq<TaskId>)
    requires Searching(es, deps, start, visited, queue) && queue != [] && (forall e :: e in es ==> e in deps)
    requires forall d :: d in targets <==> Edge(queue[0], d) in es
    ensures Searching(es, deps, start, visited + {queue[0]}, queue[1..] + targets)
  {
    hide Reach;
    assert forall t :: t in queue <==> t == queue[0] || t in queue[1..];
    forall d | d in targets ensures Reach(es, start, d) && d in Universe(deps, start) {
      ReachStep(es, start, queue[0], d);
    }
    forall e | e in es && e.task == queue[0] ensures e.dependsOn in targets {
      assert e == Edge(queue[0], e.dependsOn);
    }
  }

  /** `reaches`: terminates, and finds the needle exactly when a path of visible edges leads to it. */
  method Reaches(db: Db, s: Scope, start: TaskId, needle: TaskId) returns (found: bool)
    ensures found <==> Reach(ScopedEdges(db, s), start, needle)
  {
    hide Reach;
    hide Searching;
    ghost var es := ScopedEdges(db, s);
    var visited: set<TaskId>, queue := {}, [start];
    SearchStarts(es, db.deps, start);
    while queue != []
      invariant Searching(es, db.deps, start, visited, queue) && needle !in visited
      decreases |Universe(db.deps, start) - visited|, |queue|
    {
      hide Universe;
      var current := queue[0];
      SearchHead(es, db.deps, start, visited, queue);
      if current == needle { return true; }
      if current in visited {
        SearchSkips(es, db.deps, start, visited, queue);
        queue := queue[1..];
      } else {
        var targets := VisibleTargets(db, s, current);
        SearchExpands(es, db.deps, start, visited, queue, targets);
        visited, queue := visited + {current}, queue[1..] + targets;
      }
    }
    SearchExhausted(es, db.deps, visited, start, needle);
    return false;
  }

  // ----- claiming queued work ----------------------------------------------------------------------------

  /**
   * `claim_next`: a queued unassigned task of the boundary becomes the claimer's active task with a first heartbeat,
   * and no second claimer gets it.
   */
  lemma ClaimedOnce(db: Db, s: Scope, id: TaskId, claimer: nat, now: int, other: nat, later: int)
    ensures var n := ClaimQueued(db, s, id, claimer, now);
      && (id in db.tasks && db.tasks[id].scope == s && db.tasks[id].assignee == None && db.tasks[id].status == Queued ==>
            n == db.(tasks := db.tasks[id := db.tasks[id].(assignee := Some(claimer), status := Active, heartbeat := Some(now), updatedAt := now)]))
      && (!(id in db.tasks && db.tasks[id].scope == s && db.tasks[id].assignee == None && db.tasks[id].status == Queued) ==> n == db)
      && (n != db ==> ClaimQueued(n, s, id, other, later) == n)
  {
  }

  // ----- conflict reports ------------------------------------------------------------------------------

  /** The rows `check_conflicts` reports for one path. */
  predicate Blocks(db: Db, s: Scope, project: Text, path: Text, exclude: Option<TaskId>, now: int, c: Lease) {
    && c.owner == s.owner && c.project == project && c.path == path && InScope(db, s, c.task)
    && ActiveAt(c, now) && exclude != Some(c.task)
  }

  /** The lease is in force at this instant, on this path of this project, for a task of this boundary. */
  ghost predicate Holds(db: Db, s: Scope, project: Text, path: Text, now: int, c: Lease) {
    && c.task in db.tasks && db.tasks[c.task].scope == s && c.owner == s.owner && c.project == project && c.path == path
    && !c.released && now < c.expiresAt
  }

  /** Some other task is in force on one of the paths. */
  ghost predicate Contested(db: Db, s: Scope, id: TaskId, project: Text, paths: seq<Text>, now: int) {
    exists c, path :: c in db.claims && path in paths && c.task != id && Holds(db, s, project, path, now, c)
  }

  lemma BlocksMeans(db: Db, s: Scope, project: Text, path: Text, exclude: Option<TaskId>, now: int, c: Lease)
    ensures Blocks(db, s, project, path, exclude, now, c) <==> Holds(db, s, project, path, now, c) && exclude != Some(c.task)
  {
  }

  /** The dependent is blocked in this boundary and waits for nothing incomplete. */
  ghost predicate ReadyToUnblock(db: Db, s: Scope, trigger: TaskId, id: TaskId) {
    && id in db.tasks && db.tasks[id].scope == s && db.tasks[id].status == Blocked && Edge(id, trigger) in db.deps
    && forall d :: Edge(id, d) in db.deps ==> d in db.tasks && db.tasks[d].status == Completed
  }

  lemma UnblockableMeans(db: Db, s: Scope, trigger: TaskId, id: TaskId)
    requires EdgesScoped(db)
    ensures Unblockable(db, s, trigger, id) <==> ReadyToUnblock(db, s, trigger, id)
  {
    if Unblockable(db, s, trigger, id) {
      forall d | Edge(id, d) in db.deps ensures d in db.tasks && db.tasks[d].status == Completed {
        assert Edge(id, d).task == id;
      }
    }
    if ReadyToUnblock(db, s, trigger, id) {
      forall e | e in db.deps && e.task == id ensures InScope(db, s, e.dependsOn) && db.tasks[e.dependsOn].status == Completed {
        assert e == Edge(id, e.dependsOn);
      }
    }
  }

  /** A lease created for `ttl` seconds ends that many seconds later, or a hundred years away at most. */
  lemma LeaseEnd(now: int, ttl: int)
    ensures -3_153_600_000 <= ttl <= 3_153_600_000 ==> TsPlus(now, ttl) == now + ttl * 1_000_000_000
    ensures ttl > 3_153_600_000 ==> TsPlus(now, ttl) == now + 3_153_600_000 * 1_000_000_000
    ensures ttl < -3_153_600_000 ==> TsPlus(now, ttl) == now - 3_153_600_000 * 1_000_000_000
  {
  }

  lemma {:induction false} NoFirstConflict(db: Db, s: Scope, id: TaskId, project: Text, path: Text, claims: seq<Lease>, now: int)
    ensures FirstConflict(db, s, id, project, path, claims, now).None? <==> !exists c :: c in claims && Blocks(db, s, project, path, Some(id), now, c)
  {
    var r := FirstConflict(db, s, id, project, path, claims, now);
    if r.Some? {
      assert r.value in claims && Blocks(db, s, project, path, Some(id), now, r.value);
    }
    forall c | c in claims && Blocks(db, s, project, path, Some(id), now, c) ensures r.Some? {
      assert Rival(db, s, id, project, path, c);
    }
  }

  /**
   * The two lease checks agree: claiming is refused exactly when a conflict check of the same paths at the
   * same instant reports something, whatever duplicates the batch holds.
   */
  lemma {:induction false} ClaimsAgreeWithConflicts(db: Db, s: Scope, id: TaskId, project: Text, paths: seq<Text>, now: int, expires: int)
    ensures ClaimRest(db, s, id, project, paths, now, expires).Ok? <==>
      !exists c, path :: c in db.claims && path in paths && Blocks(db, s, project, path, Some(id), now, c)
    decreases |paths|
  {
    if paths != [] {
      var path := paths[0];
      assert forall p :: p in paths <==> p == path || p in paths[1..];
      NoFirstConflict(db, s, id, project, path, db.claims, now);
      var lease := Lease(id, s.owner, project, path, now, expires, false);
      var n := db.(claims := db.claims + [lease]);
      ClaimsAgreeWithConflicts(n, s, id, project, paths[1..], now, expires);
      forall c, p ensures c in n.claims && Blocks(n, s, project, p, Some(id), now, c) <==> c in db.claims && Blocks(db, s, project, p, Some(id), now, c) {
      }
    }
  }

  lemma ClaimStep(db: Db, s: Scope, id: TaskId, project: Text, paths: seq<Text>, i: nat, now: int, expires: int)
    requires i < |paths|
    ensures var conflict := FirstConflict(db, s, id, project, paths[i], db.claims, now);
      ClaimRest(db, s, id, project, paths[i..], now, expires) ==
        if conflict.Some? then Err(ClaimConflict(paths[i], conflict.value.task))
        else ClaimRest(db.(claims := db.claims + [Lease(id, s.owner, project, paths[i], now, expires, false)]), s, id, project, paths[i + 1..], now, expires)
  {
    assert paths[i..][0] == paths[i] && paths[i..][1..] == paths[i + 1..];
  }

  lemma ClaimsDone(db: Db, s: Scope, id: TaskId, project: Text, paths: seq<Text>, now: int, expires: int)
    ensures ClaimRest(db, s, id, project, paths[|paths|..], now, expires) == Ok(db)
  {
  }

  /** The positions of the leases a task still holds. */
  function Unreleased(claims: seq<Lease>, id: TaskId): set<nat> {
    set i | 0 <= i < |claims| && claims[i].task == id && !claims[i].released
  }

  lemma ContestedMeans(db: Db, s: Scope, id: TaskId, project: Text, paths: seq<Text>, now: int, expires: int)
    ensures ClaimRest(db, s, id, project, paths, now, expires).Ok? <==> !Contested(db, s, id, project, paths, now)
  {
    ClaimsAgreeWithConflicts(db, s, id, project, paths, now, expires);
    forall c, path ensures Blocks(db, s, project, path, Some(id), now, c) <==> Holds(db, s, project, path, now, c) && c.task != id {
      BlocksMeans(db, s, project, path, Some(id), now, c);
    }
    hide Blocks;
    hide Holds;
    hide ClaimRest;
  }

  // ----- the sweep over selected rows ------------------------------------------------------------------

  datatype Candidate = Candidate(id: TaskId, row: Task, now: int)

  /** One compare-and-set transaction per candidate, in order. */
  function SweepAll(db: Db, cs: seq<Candidate>, grace: real, sweepNow: int): Db {
    if cs == [] then db
    else
      var c := cs[|cs| - 1];
      StaleOne(SweepAll(db, cs[..|cs| - 1], grace, sweepNow), c.id, c.row, grace, sweepNow, c.now)
  }

  lemma SweepStep(db: Db, cs: seq<Candidate>, i: nat, grace: real, sweepNow: int)
    requires i < |cs|
    ensures SweepAll(db, cs[..i + 1], grace, sweepNow) == StaleOne(SweepAll(db, cs[..i], grace, sweepNow), cs[i].id, cs[i].row, grace, sweepNow, cs[i].now)
  {
    assert cs[..i + 1][..i] == cs[..i];
  }

  /** Candidate `k` is overdue and its row is still the selected one when its turn comes. */
  ghost predicate Hit(db: Db, cs: seq<Candidate>, k: nat, grace: real, sweepNow: int)
    requires k < |cs|
  {
    Silent(cs[k].row, grace, sweepNow) && StillSelected(SweepAll(db, cs[..k], grace, sweepNow), cs[k].id, cs[k].row)
  }

  /** Task `id` is one of the first `n` candidates and its compare-and-set succeeded. */
  ghost predicate StaledBy(db: Db, cs: seq<Candidate>, n: nat, grace: real, sweepNow: int, id: TaskId)
    requires n <= |cs|
  {
    exists k :: 0 <= k < n && cs[k].id == id && Hit(db, cs, k, grace, sweepNow)
  }

  lemma StaledStep(db: Db, cs: seq<Candidate>, i: nat, grace: real, sweepNow: int)
    requires i < |cs|
    ensures forall id :: StaledBy(db, cs, i + 1, grace, sweepNow, id) <==>
      StaledBy(db, cs, i, grace, sweepNow, id)
      || (id == cs[i].id && Hit(db, cs, i, grace, sweepNow))
  {
    hide Hit;
    forall id | StaledBy(db, cs, i, grace, sweepNow, id) || (id == cs[i].id && Hit(db, cs, i, grace, sweepNow))
      ensures StaledBy(db, cs, i + 1, grace, sweepNow, id)
    {
      var k :| 0 <= k < i + 1 && cs[k].id == id && Hit(db, cs, k, grace, sweepNow);
    }
  }

  // ----- the store ---------------------------------------------------------------------------------------

  class ChiasmStore {
    var tasks: map<TaskId, Task>
    var deps: seq<Edge>
    var claims: seq<Lease>

    function Rows(): Db
      reads this
    {
      Db(tasks, deps, claims)
    }

    constructor ()
      ensures Rows() == EMPTY && DepInv(Rows())
    {
      tasks, deps, claims := map[], [], [];
      new;
      EmptyGraph();
    }

    method Create(id: TaskId, task: Task) returns (created: bool)
      requires DepInv(Rows())
      modifies this
      ensures DepInv(Rows()) && Rows() == Tasks.Create(old(Rows()), id, task)
      ensures created <==> id !in old(tasks)
      ensures !created ==> Rows() == old(Rows())
      ensures created ==> tasks == old(tasks)[id := task] && deps == old(deps) && claims == old(claims)
      ensures created ==> forall e :: e in deps ==> e.task != id && e.dependsOn != id
    {
      ApplyKeepsGraph(Rows(), OpCreate(id, task));
      created := id !in tasks;
      if created { tasks := tasks[id := task]; }
    }

    method Update(s: Scope, id: TaskId, status: Option<Status>, assignee: Option<nat>, now: int) returns (r: Result<Task, TaskError>)
      requires DepInv(Rows())
      modifies this
      ensures DepInv(Rows()) && Rows() == OrKeep(old(Rows()), Tasks.Update(old(Rows()), s, id, status, assignee, now))
      ensures r == if InScope(old(Rows()), s, id) then Ok(Rows().tasks[id]) else Err(NotFound(id))
      ensures r.Err? ==> Rows() == old(Rows())
      // Given fields are written, and nothing else of this task or of anything else changes.
      ensures r.Ok? ==>
        var before, after := old(tasks)[id], r.value;
        && (status.Some? ==> after.status == status.value) && (assignee.Some? ==> after.assignee == assignee) && after.updatedAt == now
        && after.(status := before.status, assignee := before.assignee, updatedAt := before.updatedAt) == before
        && (status.None? ==> after.status == before.status) && (assignee.None? ==> after.assignee == before.assignee)
      ensures forall other :: other != id ==> (other in tasks <==> other in old(tasks)) && (other in tasks ==> tasks[other] == old(tasks)[other])
      ensures deps == old(deps) && claims == old(claims)
    {
      ApplyKeepsGraph(Rows(), OpUpdate(s, id, status, assignee, now));
      if !InScope(Rows(), s, id) { return Err(NotFound(id)); }
      var t := tasks[id];
      if status.Some? { t := t.(status := status.value); }
      if assignee.Some? { t := t.(assignee := assignee); }
      tasks := tasks[id := t.(updatedAt := now)];
      return Ok(tasks[id]);
    }

    method Delete(s: Scope, id: TaskId) returns (deleted: bool)
      requires DepInv(Rows())
      modifies this
      ensures DepInv(Rows()) && Rows() == Tasks.Delete(old(Rows()), s, id)
      ensures deleted <==> InScope(old(Rows()), s, id)
      ensures !deleted ==> Rows() == old(Rows())
      ensures deleted ==> tasks == old(tasks) - {id}
      ensures deleted ==> forall e :: e in deps <==> e in old(deps) && e.task != id && e.dependsOn != id
      ensures deleted ==> forall c :: c in claims <==> c in old(claims) && c.task != id
    {
      ApplyKeepsGraph(Rows(), OpDelete(s, id));
      hide DepInv;
      deleted := InScope(Rows(), s, id);
      if deleted {
        tasks, deps, claims := tasks - {id}, DropEdges(deps, id), DropClaims(claims, id);
      }
    }

    /**
     * `add_dependencies`: the batch is staged and committed as a whole. It succeeds exactly when every target
     * is in the boundary and the resulting graph is acyclic; otherwise no row changes.
     */
    method AddDependencies(s: Scope, task: TaskId, ds: seq<TaskId>) returns (r: Result<(), TaskError>)
      requires DepInv(Rows())
      modifies this
      ensures DepInv(Rows()) && tasks == old(tasks) && claims == old(claims)
      ensures r.Ok? <==>
        InScope(Rows(), s, task) && (forall d :: d in ds ==> InScope(Rows(), s, d)) && Acyclic(EdgeSet(old(deps)) + Batch(task, ds))
      ensures EdgeSet(deps) == EdgeSet(old(deps)) + (if r.Ok? then Batch(task, ds) else {})
      ensures var spec := Tasks.AddDependencies(old(Rows()), s, task, ds);
        && Rows() == OrKeep(old(Rows()), spec) && (r.Err? <==> spec.Err?) && (r.Err? ==> r.error == spec.error)
    {
      hide Acyclic;
      hide Reach;
      if !InScope(Rows(), s, task) { return Err(NotFound(task)); }
      AddRestExact(Rows(), s, task, ds);
      var staged := Rows();
      for i := 0 to |ds|
        invariant staged.tasks == tasks && staged.claims == claims
        invariant AddRest(staged, s, task, ds[i..]) == AddRest(Rows(), s, task, ds)
        invariant Rows() == old(Rows())
      {
        assert ds[i..][0] == ds[i] && ds[i..][1..] == ds[i + 1..];
        if ds[i] == task { return Err(SelfDependency(task)); }
        if !InScope(staged, s, ds[i]) { return Err(NotFound(ds[i])); }
        var cycle := Reaches(staged, s, ds[i], task);
        if cycle { return Err(DependencyCycle(task, ds[i])); }
        staged := staged.(deps := InsertEdge(staged.deps, Edge(task, ds[i])));
      }
      deps := staged.deps;
      return Ok(());
    }

    method RemoveDependency(s: Scope, task: TaskId, d: TaskId) returns (removed: bool)
      requires DepInv(Rows())
      modifies this
      ensures DepInv(Rows()) && Rows() == Tasks.RemoveDependency(old(Rows()), s, task, d)
      ensures removed <==> Edge(task, d) in old(deps) && InScope(old(Rows()), s, task)
      ensures removed ==> EdgeSet(deps) == EdgeSet(old(deps)) - {Edge(task, d)}
      ensures !removed ==> EdgeSet(deps) == EdgeSet(old(deps))
    {
      ApplyKeepsGraph(Rows(), OpRemove(s, task, d));
      hide DepInv;
      removed := Edge(task, d) in deps && InScope(Rows(), s, task);
      if InScope(Rows(), s, task) && InScope(Rows(), s, d) {
        deps := WithoutEdge(deps, Edge(task, d));
      }
    }

    /** `check_and_unblock`: exactly the blocked dependents with no incomplete dependency become active. */
    method CheckAndUnblock(s: Scope, trigger: TaskId, now: int) returns (r: Result<set<TaskId>, TaskError>)
      requires DepInv(Rows())
      modifies this
      ensures DepInv(Rows()) && Rows() == OrKeep(old(Rows()), Tasks.CheckAndUnblock(old(Rows()), s, trigger, now))
      ensures r.Err? <==> !InScope(old(Rows()), s, trigger)
      ensures r.Err? ==> r.error == NotFound(trigger) && Rows() == old(Rows())
      ensures r.Ok? ==> forall id :: id in r.value <==> old(tasks)[trigger].status == Completed && ReadyToUnblock(old(Rows()), s, trigger, id)
      ensures deps == old(deps) && claims == old(claims) && tasks.Keys == old(tasks).Keys
      ensures forall id :: id in tasks ==>
        tasks[id] == if r.Ok? && id in r.value then old(tasks)[id].(status := Active, updatedAt := now) else old(tasks)[id]
    {
      ApplyKeepsGraph(Rows(), OpUnblock(s, trigger, now));
      forall id ensures Unblockable(Rows(), s, trigger, id) <==> ReadyToUnblock(Rows(), s, trigger, id) {
        UnblockableMeans(Rows(), s, trigger, id);
      }
      hide ReadyToUnblock;
      hide DepInv;
      hide Unblockable;
      if !InScope(Rows(), s, trigger) { return Err(NotFound(trigger)); }
      if tasks[trigger].status != Completed { return Ok({}); }
      var activated, rows := ActivateDependents(Rows(), s, trigger, now);
      tasks := rows;
      return Ok(activated);
    }

    /** The update statement: the rows it selects, and the table after it. */
    static method ActivateDependents(db: Db, s: Scope, trigger: TaskId, now: int) returns (activated: set<TaskId>, rows: map<TaskId, Task>)
      requires InScope(db, s, trigger) && db.tasks[trigger].status == Completed
      ensures forall id :: id in activated <==> id in db.tasks && Unblockable(db, s, trigger, id)
      ensures Tasks.CheckAndUnblock(db, s, trigger, now) == Ok(db.(tasks := rows))
      ensures rows.Keys == db.tasks.Keys && forall id :: id in rows ==>
        rows[id] == if id in activated then db.tasks[id].(status := Active, updatedAt := now) else db.tasks[id]
    {
      hide Unblockable;
      activated := set id | id in db.tasks && Unblockable(db, s, trigger, id);
      rows := map id | id in db.tasks :: if id in activated then db.tasks[id].(status := Active, updatedAt := now) else db.tasks[id];
      assert Tasks.CheckAndUnblock(db, s, trigger, now).value.tasks == rows;
    }

    /** `create_claims`: one scan of the table per path, all inserts or none. */
    method CreateClaims(s: Scope, id: TaskId, paths: seq<Text>, ttl: int, now: int) returns (r: Result<seq<Lease>, TaskError>)
      requires DepInv(Rows())
      modifies this`claims
      ensures DepInv(Rows())
      ensures var spec := Tasks.CreateClaims(old(Rows()), s, id, paths, ttl, now);
        && Rows() == OrKeep(old(Rows()), spec) && (r.Err? <==> spec.Err?) && (r.Err? ==> r.error == spec.error)
      ensures r.Ok? <==> id in tasks && tasks[id].scope == s && !Contested(old(Rows()), s, id, tasks[id].project, paths, now)
      ensures r.Err? ==> claims == old(claims)
      ensures r.Ok? ==> claims == old(claims) + r.value && |r.value| == |paths|
      ensures r.Ok? ==> forall i :: 0 <= i < |paths| ==> r.value[i] == Lease(id, s.owner, tasks[id].project, paths[i], now, TsPlus(now, ttl), false)
    {
      if id in tasks { ContestedMeans(Rows(), s, id, tasks[id].project, paths, now, TsPlus(now, ttl)); }
      hide Contested;
      ApplyKeepsGraph(Rows(), OpClaims(s, id, paths, ttl, now));
      hide DepInv;
      hide ClaimRest;
      hide TsPlus;
      if !InScope(Rows(), s, id) { return Err(NotFound(id)); }
      var staged := StageClaims(Rows(), s, id, tasks[id].project, paths, now, TsPlus(now, ttl));
      if staged.Ok? { claims := claims + staged.value; }
      return staged;
    }

    /** The loop over the paths, on the transaction's own view of the table. */
    static method StageClaims(db: Db, s: Scope, id: TaskId, project: Text, paths: seq<Text>, now: int, expires: int)
      returns (r: Result<seq<Lease>, TaskError>)
      ensures var spec := ClaimRest(db, s, id, project, paths, now, expires);
        if r.Ok? then spec == Ok(db.(claims := db.claims + r.value)) else spec == Err(r.error)
      ensures r.Ok? ==> |r.value| == |paths|
      ensures r.Ok? ==> forall i :: 0 <= i < |paths| ==> r.value[i] == Lease(id, s.owner, project, paths[i], now, expires, false)
    {
      hide ClaimRest;
      hide FirstConflict;
      var added := [];
      assert db.(claims := db.claims + added) == db && paths[0..] == paths;
      for i := 0 to |paths|
        invariant |added| == i
        invariant forall k :: 0 <= k < i ==> added[k] == Lease(id, s.owner, project, paths[k], now, expires, false)
        invariant ClaimRest(db.(claims := db.claims + added), s, id, project, paths[i..], now, expires) == ClaimRest(db, s, id, project, paths, now, expires)
      {
        var staged := db.(claims := db.claims + added);
        var conflict := ScanForConflict(staged, s, id, project, paths[i], now);
        ClaimStep(staged, s, id, project, paths, i, now, expires);
        if conflict.Some? { return Err(ClaimConflict(paths[i], conflict.value.task)); }
        var lease := Lease(id, s.owner, project, paths[i], now, expires, false);
        assert staged.claims + [lease] == db.claims + (added + [lease]);
        added := added + [lease];
      }
      ClaimsDone(db.(claims := db.claims + added), s, id, project, paths, now, expires);
      return Ok(added);
    }

    /** The earliest active rival of one path. */
    static method ScanForConflict(db: Db, s: Scope, id: TaskId, project: Text, path: Text, now: int) returns (r: Option<Lease>)
      ensures r == FirstConflict(db, s, id, project, path, db.claims, now)
    {
      for i := 0 to |db.claims|
        invariant FirstConflict(db, s, id, project, path, db.claims[i..], now) == FirstConflict(db, s, id, project, path, db.claims, now)
      {
        var c := db.claims[i];
        assert db.claims[i..][0] == c && db.claims[i..][1..] == db.claims[i + 1..];
        if Rival(db, s, id, project, path, c) && ActiveAt(c, now) { return Some(c); }
      }
      return None;
    }

    /** `check_conflicts`: reports exactly the active leases of other tasks on the given paths. */
    method CheckConflicts(s: Scope, project: Text, paths: seq<Text>, exclude: Option<TaskId>, now: int) returns (conflicts: seq<Lease>)
      ensures forall c :: c in conflicts <==> c in claims && exclude != Some(c.task) && exists path :: path in paths && Holds(Rows(), s, project, path, now, c)
    {
      conflicts := [];
      var db := Rows();
      for i := 0 to |paths|
        invariant forall c :: c in conflicts <==> c in db.claims && exists path :: path in paths[..i] && Blocks(db, s, project, path, exclude, now, c)
      {
        var hits := ConflictsOn(db, s, project, paths[i], exclude, now);
        assert forall p :: p in paths[..i + 1] <==> p in paths[..i] || p == paths[i];
        conflicts := conflicts + hits;
      }
      assert paths[..|paths|] == paths;
      forall c, path ensures Blocks(db, s, project, path, exclude, now, c) <==> Holds(db, s, project, path, now, c) && exclude != Some(c.task) {
        BlocksMeans(db, s, project, path, exclude, now, c);
      }
    }

    static method ConflictsOn(db: Db, s: Scope, project: Text, path: Text, exclude: Option<TaskId>, now: int) returns (hits: seq<Lease>)
      ensures forall c :: c in hits <==> c in db.claims && Blocks(db, s, project, path, exclude, now, c)
    {
      hits := [];
      for i := 0 to |db.claims|
        invariant forall c :: c in hits <==> c in db.claims[..i] && Blocks(db, s, project, path, exclude, now, c)
      {
        if Blocks(db, s, project, path, exclude, now, db.claims[i]) { hits := hits + [db.claims[i]]; }
      }
      assert db.claims[..|db.claims|] == db.claims;
    }

    /** `record_heartbeat`; `refreshed` is false when the lease update failed and was only logged. */
    method RecordHeartbeat(s: Scope, id: TaskId, now: int, refreshed: bool) returns (r: Result<(), TaskError>)
      requires DepInv(Rows())
      modifies this
      ensures DepInv(Rows()) && Rows() == OrKeep(old(Rows()), Heartbeat(old(Rows()), s, id, now, refreshed))
      ensures r == if InScope(old(Rows()), s, id) then Ok(()) else Err(NotFound(id))
      ensures r.Err? ==> Rows() == old(Rows())
      ensures r.Ok? ==> tasks == old(tasks)[id := old(tasks)[id].(heartbeat := Some(now), updatedAt := now)]
      // Exactly the unreleased leases of this task are extended, whether lapsed or not, and nothing else changes.
      ensures deps == old(deps) && |claims| == |old(claims)|
      ensures forall i :: 0 <= i < |claims| ==>
        claims[i] == if r.Ok? && refreshed && old(claims)[i].task == id && !old(claims)[i].released
                     then old(claims)[i].(expiresAt := now + 600_000_000_000) else old(claims)[i]
    {
      ApplyKeepsGraph(Rows(), OpHeartbeat(s, id, now, refreshed));
      hide DepInv;
      if !InScope(Rows(), s, id) { return Err(NotFound(id)); }
      tasks := tasks[id := tasks[id].(heartbeat := Some(now), updatedAt := now)];
      if refreshed { claims := Refreshed(claims, id, now + REFRESH); }
      return Ok(());
    }

    /** `release_claims`: counts the leases it releases; afterwards the task holds no unreleased lease. */
    method ReleaseClaims(s: Scope, id: TaskId) returns (count: nat)
      requires DepInv(Rows())
      modifies this`claims
      ensures DepInv(Rows()) && Rows() == Tasks.ReleaseClaims(old(Rows()), s, id)
      ensures InScope(Rows(), s, id) ==> count == |Unreleased(old(claims), id)| && Unreleased(claims, id) == {}
      ensures !InScope(Rows(), s, id) ==> count == 0
    {
      count := 0;
      if InScope(Rows(), s, id) {
        count := |Unreleased(claims, id)|;
        claims := Released(claims, id);
      }
    }

    /** The transaction of one candidate. */
    method StaleCandidate(c: Candidate, grace: real, sweepNow: int) returns (changed: bool)
      requires DepInv(Rows())
      modifies this
      ensures DepInv(Rows()) && Rows() == StaleOne(old(Rows()), c.id, c.row, grace, sweepNow, c.now)
      ensures changed <==>
        && Silent(c.row, grace, sweepNow) && c.id in old(tasks) && old(tasks)[c.id].scope == c.row.scope
        && old(tasks)[c.id].status == c.row.status && old(tasks)[c.id].heartbeat == c.row.heartbeat
      ensures !changed ==> Rows() == old(Rows())
      ensures changed ==> tasks == old(tasks)[c.id := old(tasks)[c.id].(status := Stale, updatedAt := c.now)] && deps == old(deps)
      ensures changed ==> forall l :: l in claims && l.task == c.id ==> l.released
    {
      ApplyKeepsGraph(Rows(), OpStale(c.id, c.row, grace, sweepNow, c.now));
      hide DepInv;
      OverdueMeans(c.row, grace, sweepNow);
      changed := Overdue(c.row, grace, sweepNow) && StillSelected(Rows(), c.id, c.row);
      if changed {
        tasks, claims := tasks[c.id := tasks[c.id].(status := Stale, updatedAt := c.now)], Released(claims, c.id);
      }
    }

    /** `mark_stale_candidates`: a compare-and-set per candidate; only rows that really changed are returned. */
    method MarkStaleCandidates(cs: seq<Candidate>, grace: real, sweepNow: int) returns (staled: seq<TaskId>)
      requires DepInv(Rows())
      modifies this
      ensures DepInv(Rows()) && Rows() == SweepAll(old(Rows()), cs, grace, sweepNow)
      ensures forall id :: id in staled <==> StaledBy(old(Rows()), cs, |cs|, grace, sweepNow, id)
    {
      staled := [];
      ghost var was := Rows();
      for i := 0 to |cs|
        invariant DepInv(Rows()) && Rows() == SweepAll(was, cs[..i], grace, sweepNow)
        invariant forall id :: id in staled <==> StaledBy(was, cs, i, grace, sweepNow, id)
      {
        hide DepInv;
        hide StaledBy;
        hide SweepAll;
        hide StaleOne;
        SweepStep(was, cs, i, grace, sweepNow);
        StaledStep(was, cs, i, grace, sweepNow);
        var changed := StaleCandidate(cs[i], grace, sweepNow);
        if changed { staled := staled + [cs[i].id]; }
      }
      assert cs[..|cs|] == cs;
    }
  }
}
