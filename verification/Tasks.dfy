/**
 * The task rows and the store's transactions on them (crates/henosis-chiasm/src/store.rs,
 * crates/henosis-chiasm/src/model.rs). Timestamps are nanoseconds; UUIDs are naturals.
 */
module Tasks {
  import opened Base
  import opened TaskGraph

  datatype Status = Active | Paused | Blocked | Completed | BlockedOnHuman | Stale | Queued

  /** The identity boundary of every read and write. */
  datatype Scope = Scope(tenant: nat, owner: nat)

  datatype Task = Task(
    scope: Scope, assignee: Option<nat>, project: Text, status: Status, heartbeat: Option<int>,
    interval: int, updatedAt: int)

  /** A TTL lease on a path. Its tenant is its task's tenant. */
  datatype Lease = Lease(
    task: TaskId, owner: nat, project: Text, path: Text, claimedAt: int, expiresAt: int, released: bool)

  datatype Db = Db(tasks: map<TaskId, Task>, deps: seq<Edge>, claims: seq<Lease>)

  const EMPTY: Db := Db(map[], [], [])

  datatype TaskError =
    | NotFound(id: TaskId)
    | SelfDependency(id: TaskId)
    | DependencyCycle(id: TaskId, dependsOn: TaskId)
    | ClaimConflict(path: Text, holder: TaskId)

  const SECOND: int := 1_000_000_000
  const REFRESH: int := 600 * SECOND
  const MAX_OFFSET_SECS: int := 100 * 365 * 24 * 3600

  predicate InScope(db: Db, s: Scope, id: TaskId) {
    id in db.tasks && db.tasks[id].scope == s
  }

  /** `ts_plus`: the offset is clamped to a hundred years either way. */
  function TsPlus(ts: int, secs: int): int {
    ts + SECOND * (if secs < -MAX_OFFSET_SECS then -MAX_OFFSET_SECS else if secs > MAX_OFFSET_SECS then MAX_OFFSET_SECS else secs)
  }

  // ----- tasks ---------------------------------------------------------------------------------

  /** `create` and `enqueue` with a freshly minted identifier. */
  function Create(db: Db, id: TaskId, task: Task): Db {
    if id in db.tasks then db else db.(tasks := db.tasks[id := task])
  }

  /** `update`: only status and assignee matter to coordination; the scope and project never change. */
  function Update(db: Db, s: Scope, id: TaskId, status: Option<Status>, assignee: Option<nat>, now: int): Result<Db, TaskError> {
    if !InScope(db, s, id) then Err(NotFound(id))
    else
      var t := db.tasks[id];
      Ok(db.(tasks := db.tasks[id := t.(
        status := if status.Some? then status.value else t.status,
        assignee := if assignee.Some? then assignee else t.assignee, updatedAt := now)]))
  }

  function DropEdges(deps: seq<Edge>, id: TaskId): (r: seq<Edge>)
    ensures forall e :: e in r <==> e in deps && e.task != id && e.dependsOn != id
  {
    if deps == [] then []
    else
      var rest := DropEdges(deps[1..], id);
      assert deps == [deps[0]] + deps[1..];
      if deps[0].task == id || deps[0].dependsOn == id then rest else [deps[0]] + rest
  }

  function DropClaims(claims: seq<Lease>, id: TaskId): (r: seq<Lease>)
    ensures forall c :: c in r <==> c in claims && c.task != id
  {
    if claims == [] then []
    else
      var rest := DropClaims(claims[1..], id);
      assert claims == [claims[0]] + claims[1..];
      if claims[0].task == id then rest else [claims[0]] + rest
  }

  /** `delete`: foreign keys cascade to edges on either end and to leases. */
  function Delete(db: Db, s: Scope, id: TaskId): Db {
    if !InScope(db, s, id) then db
    else Db(db.tasks - {id}, DropEdges(db.deps, id), DropClaims(db.claims, id))
  }

  /** `claim_next` for the queued task `id` that its query selected. */
  function ClaimQueued(db: Db, s: Scope, id: TaskId, claimer: nat, now: int): Db {
    if InScope(db, s, id) && db.tasks[id].assignee.None? && db.tasks[id].status == Queued then
      db.(tasks := db.tasks[id := db.tasks[id].(assignee := Some(claimer), status := Active, heartbeat := Some(now), updatedAt := now)])
    else db
  }

  // ----- dependencies ----------------------------------------------------------------------------

  ghost function EdgeSet(deps: seq<Edge>): set<Edge> {
    set e | e in deps
  }

  /** The edges `reaches` can see: both endpoints inside the boundary. */
  ghost function ScopedEdges(db: Db, s: Scope): set<Edge> {
    set e | e in db.deps && InScope(db, s, e.task) && InScope(db, s, e.dependsOn)
  }

  /** `INSERT OR IGNORE` under the unique edge constraint. */
  function InsertEdge(deps: seq<Edge>, e: Edge): seq<Edge> {
    if e in deps then deps else deps + [e]
  }

  /** The loop of `add_dependencies` over the rest of a batch; the first refusal rolls everything back. */
  ghost function AddRest(db: Db, s: Scope, task: TaskId, ds: seq<TaskId>): Result<Db, TaskError>
    decreases |ds|
  {
    if ds == [] then Ok(db)
    else
      var d := ds[0];
      if d == task then Err(SelfDependency(task))
      else if !InScope(db, s, d) then Err(NotFound(d))
      else if Reach(ScopedEdges(db, s), d, task) then Err(DependencyCycle(task, d))
      else AddRest(db.(deps := InsertEdge(db.deps, Edge(task, d))), s, task, ds[1..])
  }

  ghost function AddDependencies(db: Db, s: Scope, task: TaskId, ds: seq<TaskId>): Result<Db, TaskError> {
    if !InScope(db, s, task) then Err(NotFound(task)) else AddRest(db, s, task, ds)
  }

  function WithoutEdge(deps: seq<Edge>, x: Edge): (r: seq<Edge>)
    ensures forall e :: e in r <==> e in deps && e != x
  {
    if deps == [] then []
    else
      var rest := WithoutEdge(deps[1..], x);
      assert deps == [deps[0]] + deps[1..];
      if deps[0] == x then rest else [deps[0]] + rest
  }

  function RemoveDependency(db: Db, s: Scope, task: TaskId, d: TaskId): Db {
    if InScope(db, s, task) && InScope(db, s, d) then db.(deps := WithoutEdge(db.deps, Edge(task, d))) else db
  }

  /** The blocked dependents whose every dependency is now complete. */
  predicate Unblockable(db: Db, s: Scope, trigger: TaskId, id: TaskId) {
    && Edge(id, trigger) in db.deps && InScope(db, s, id) && db.tasks[id].status == Blocked
    && forall e :: e in db.deps && e.task == id ==> InScope(db, s, e.dependsOn) && db.tasks[e.dependsOn].status == Completed
  }

  function CheckAndUnblock(db: Db, s: Scope, trigger: TaskId, now: int): Result<Db, TaskError> {
    if !InScope(db, s, trigger) then Err(NotFound(trigger))
    else if db.tasks[trigger].status != Completed then Ok(db)
    else Ok(db.(tasks := map id | id in db.tasks ::
      if Unblockable(db, s, trigger, id) then db.tasks[id].(status := Active, updatedAt := now) else db.tasks[id]))
  }

  // ----- leases ------------------------------------------------------------------------------------

  predicate ActiveAt(c: Lease, now: int) {
    !c.released && c.expiresAt > now
  }

  /** The rows `create_claims` reads for one path: other tasks' unreleased leases in the same space. */
  predicate Rival(db: Db, s: Scope, id: TaskId, project: Text, path: Text, c: Lease) {
    c.owner == s.owner && c.project == project && c.path == path && !c.released && c.task != id && InScope(db, s, c.task)
  }

  function FirstConflict(db: Db, s: Scope, id: TaskId, project: Text, path: Text, claims: seq<Lease>, now: int): (r: Option<Lease>)
    ensures r.None? ==> forall c :: c in claims && Rival(db, s, id, project, path, c) ==> c.expiresAt <= now
    ensures r.Some? ==> r.value in claims && Rival(db, s, id, project, path, r.value) && r.value.expiresAt > now
  {
    if claims == [] then None
    else
      assert claims == [claims[0]] + claims[1..];
      if Rival(db, s, id, project, path, claims[0]) && ActiveAt(claims[0], now) then Some(claims[0])
      else FirstConflict(db, s, id, project, path, claims[1..], now)
  }

  /** The loop of `create_claims` over the remaining paths; a conflict rolls everything back. */
  function ClaimRest(db: Db, s: Scope, id: TaskId, project: Text, paths: seq<Text>, now: int, expires: int): Result<Db, TaskError>
    decreases |paths|
  {
    if paths == [] then Ok(db)
    else
      var conflict := FirstConflict(db, s, id, project, paths[0], db.claims, now);
      if conflict.Some? then Err(ClaimConflict(paths[0], conflict.value.task))
      else
        var lease := Lease(id, s.owner, project, paths[0], now, expires, false);
        ClaimRest(db.(claims := db.claims + [lease]), s, id, project, paths[1..], now, expires)
  }

  function CreateClaims(db: Db, s: Scope, id: TaskId, paths: seq<Text>, ttl: int, now: int): Result<Db, TaskError> {
    if !InScope(db, s, id) then Err(NotFound(id))
    else ClaimRest(db, s, id, db.tasks[id].project, paths, now, TsPlus(now, ttl))
  }

  function Refreshed(claims: seq<Lease>, id: TaskId, lease: int): (r: seq<Lease>)
    ensures |r| == |claims|
    ensures forall i :: 0 <= i < |r| ==>
      r[i] == if claims[i].task == id && !claims[i].released then claims[i].(expiresAt := lease) else claims[i]
  {
    seq(|claims|, i requires 0 <= i < |claims| =>
      if claims[i].task == id && !claims[i].released then claims[i].(expiresAt := lease) else claims[i])
  }

  /** `record_heartbeat`; `refreshed` is false when the lease update failed, which is only logged. */
  function Heartbeat(db: Db, s: Scope, id: TaskId, now: int, refreshed: bool): Result<Db, TaskError> {
    if !InScope(db, s, id) then Err(NotFound(id))
    else Ok(db.(
      tasks := db.tasks[id := db.tasks[id].(heartbeat := Some(now), updatedAt := now)],
      claims := if refreshed then Refreshed(db.claims, id, now + REFRESH) else db.claims))
  }

  function Released(claims: seq<Lease>, id: TaskId): (r: seq<Lease>)
    ensures |r| == |claims|
    ensures forall i :: 0 <= i < |r| ==> r[i] == if claims[i].task == id then claims[i].(released := true) else claims[i]
  {
    seq(|claims|, i requires 0 <= i < |claims| => if claims[i].task == id then claims[i].(released := true) else claims[i])
  }

  function ReleaseClaims(db: Db, s: Scope, id: TaskId): Db {
    if InScope(db, s, id) then db.(claims := Released(db.claims, id)) else db
  }

  // ----- the stale sweep ---------------------------------------------------------------------------

  /** The rows `stale_candidates` selects. */
  predicate Sweepable(t: Task) {
    (t.status == Active || t.status == Paused) && t.heartbeat.Some?
  }

  /** `elapsed > interval * grace`, in exact arithmetic. */
  predicate Overdue(t: Task, grace: real, sweepNow: int) {
    t.heartbeat.Some? && (sweepNow - t.heartbeat.value) as real / SECOND as real > t.interval as real * grace
  }

  /** The task has been silent for longer than its interval times the grace factor: nanoseconds against seconds. */
  ghost predicate Silent(t: Task, grace: real, sweepNow: int) {
    t.heartbeat.Some? && (sweepNow - t.heartbeat.value) as real > t.interval as real * grace * 1_000_000_000.0
  }

  lemma OverdueMeans(t: Task, grace: real, sweepNow: int)
    ensures Overdue(t, grace, sweepNow) <==> Silent(t, grace, sweepNow)
  {
    if t.heartbeat.Some? { Scale((sweepNow - t.heartbeat.value) as real, t.interval as real * grace); }
  }

  lemma Scale(a: real, b: real)
    ensures a / 1_000_000_000.0 > b <==> a > b * 1_000_000_000.0
  {
  }

  /** The `WHERE` clause of the stale update: the row is still the selected one. */
  predicate StillSelected(db: Db, id: TaskId, selected: Task) {
    InScope(db, selected.scope, id) && db.tasks[id].status == selected.status && db.tasks[id].heartbeat == selected.heartbeat
  }

  /** The compare-and-set transaction of `mark_stale_candidates` for one selected row. */
  function StaleOne(db: Db, id: TaskId, selected: Task, grace: real, sweepNow: int, now: int): Db {
    if Overdue(selected, grace, sweepNow) && StillSelected(db, id, selected)
    then Db(db.tasks[id := db.tasks[id].(status := Stale, updatedAt := now)], db.deps, Released(db.claims, id))
    else db
  }

  // ----- one operation of any caller -----------------------------------------------------------------

  datatype Op =
    | OpCreate(id: TaskId, task: Task)
    | OpUpdate(scope: Scope, id: TaskId, status: Option<Status>, assignee: Option<nat>, now: int)
    | OpDelete(scope: Scope, id: TaskId)
    | OpClaimNext(scope: Scope, id: TaskId, claimer: nat, now: int)
    | OpAdd(scope: Scope, id: TaskId, ds: seq<TaskId>)
    | OpRemove(scope: Scope, id: TaskId, d: TaskId)
    | OpUnblock(scope: Scope, id: TaskId, now: int)
    | OpClaims(scope: Scope, id: TaskId, paths: seq<Text>, ttl: int, now: int)
    | OpHeartbeat(scope: Scope, id: TaskId, now: int, refreshed: bool)
    | OpRelease(scope: Scope, id: TaskId)
    | OpStale(id: TaskId, selected: Task, grace: real, sweepNow: int, now: int)

  function OrKeep(db: Db, r: Result<Db, TaskError>): Db {
    if r.Ok? then r.value else db
  }

  /** A refused transaction changes nothing. */
  ghost function Apply(db: Db, op: Op): Db {
    match op
    case OpCreate(id, task) => Create(db, id, task)
    case OpUpdate(s, id, st, a, now) => OrKeep(db, Update(db, s, id, st, a, now))
    case OpDelete(s, id) => Delete(db, s, id)
    case OpClaimNext(s, id, claimer, now) => ClaimQueued(db, s, id, claimer, now)
    case OpAdd(s, id, ds) => OrKeep(db, AddDependencies(db, s, id, ds))
    case OpRemove(s, id, d) => RemoveDependency(db, s, id, d)
    case OpUnblock(s, id, now) => OrKeep(db, CheckAndUnblock(db, s, id, now))
    case OpClaims(s, id, paths, ttl, now) => OrKeep(db, CreateClaims(db, s, id, paths, ttl, now))
    case OpHeartbeat(s, id, now, r) => OrKeep(db, Heartbeat(db, s, id, now, r))
    case OpRelease(s, id) => ReleaseClaims(db, s, id)
    case OpStale(id, selected, grace, sweepNow, now) => StaleOne(db, id, selected, grace, sweepNow, now)
  }

  /** The rows after a run of operations on a fresh store. */
  ghost function Run(ops: seq<Op>): Db {
    if ops == [] then EMPTY else Apply(Run(ops[..|ops| - 1]), ops[|ops| - 1])
  }
}
