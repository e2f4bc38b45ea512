/**
 * The one-transaction import of a legacy task database (crates/henosis-chiasm/src/backfill.rs). Legacy
 * identifiers are positive row numbers; the identifiers and principals that the import draws are arguments.
 */
module Backfill {
  import opened Base
  import opened TaskGraph
  import opened Tasks
  import opened Dependencies

  datatype LegacyTask = LegacyTask(id: nat, user: int, project: Text, status: Status, heartbeat: Option<int>, interval: int, updatedAt: int)
  datatype Note = Note(status: Status, summary: Option<Text>, at: int)
  datatype LegacyUpdate = LegacyUpdate(task: nat, note: Note)
  datatype Legacy = Legacy(tasks: seq<LegacyTask>, updates: seq<LegacyUpdate>, deps: seq<Edge>)

  datatype History = History(task: TaskId, note: Note)

  /** The key of the task map: every source has its own identifier space. */
  datatype Origin = Origin(source: Text, id: nat)

  datatype Target = Target(users: map<int, nat>, ids: map<Origin, TaskId>, tasks: map<TaskId, Task>, history: seq<History>, edges: seq<Edge>)

  datatype Report = Report(minted: nat, imported: nat, skipped: nat, updates: nat, dependencies: nat)

  datatype ImportError = BlankSource | UnmappedUpdate(id: nat) | UnmappedEdge(edge: Edge)

  datatype Import = Import(target: Target, report: Report)

  // ----- what the tables guarantee ---------------------------------------------------------------------------

  ghost predicate UniqueLegacyIds(ts: seq<LegacyTask>) {
    forall i, j :: 0 <= i < j < |ts| ==> ts[i].id != ts[j].id
  }

  /** The map's unique task column. */
  ghost predicate Injective(t: Target) {
    forall a, b :: a in t.ids && b in t.ids && t.ids[a] == t.ids[b] ==> a == b
  }

  /** The map's unique task column and foreign keys, and the edge table's unique constraint. */
  ghost predicate TargetInv(t: Target) {
    && Injective(t)
    && (forall a :: a in t.ids ==> t.ids[a] in t.tasks)
    && (forall e :: e in t.edges ==> e.task in t.tasks && e.dependsOn in t.tasks)
    && NoDuplicateEdges(t.edges)
  }

  /** The identifiers drawn for legacy tasks are distinct and unused. */
  ghost predicate FreshIds(t: Target, draw: nat -> TaskId) {
    (forall i, j :: draw(i) == draw(j) ==> i == j) && forall i :: draw(i) !in t.tasks
  }

  // ----- what is pending -----------------------------------------------------------------------------------------

  function PendingUsers(t: Target, ts: seq<LegacyTask>): set<int> {
    set i | 0 <= i < |ts| && ts[i].user !in t.users :: ts[i].user
  }

  function PendingTasks(t: Target, source: Text, ts: seq<LegacyTask>): (p: seq<LegacyTask>)
    ensures |p| <= |ts|
    ensures forall x :: x in p <==> x in ts && Origin(source, x.id) !in t.ids
  {
    if ts == [] then []
    else
      var rest := PendingTasks(t, source, ts[..|ts| - 1]);
      assert ts == ts[..|ts| - 1] + [ts[|ts| - 1]];
      if Origin(source, ts[|ts| - 1].id) in t.ids then rest else rest + [ts[|ts| - 1]]
  }

  function Ids(p: seq<LegacyTask>): set<nat> {
    set i | 0 <= i < |p| :: p[i].id
  }

  function PendingUpdates(us: seq<LegacyUpdate>, ids: set<nat>): (p: seq<LegacyUpdate>)
    ensures forall x :: x in p <==> x in us && x.task in ids
  {
    if us == [] then []
    else
      var rest := PendingUpdates(us[..|us| - 1], ids);
      assert us == us[..|us| - 1] + [us[|us| - 1]];
      if us[|us| - 1].task in ids then rest + [us[|us| - 1]] else rest
  }

  /** Edges with at least one newly imported end. */
  function PendingDeps(ds: seq<Edge>, ids: set<nat>): (p: seq<Edge>)
    ensures forall x :: x in p <==> x in ds && (x.task in ids || x.dependsOn in ids)
  {
    if ds == [] then []
    else
      var rest := PendingDeps(ds[..|ds| - 1], ids);
      assert ds == ds[..|ds| - 1] + [ds[|ds| - 1]];
      if ds[|ds| - 1].task in ids || ds[|ds| - 1].dependsOn in ids then rest + [ds[|ds| - 1]] else rest
  }

  /** The counts of a dry run. */
  function DryRun(t: Target, source: Text, l: Legacy): Report {
    var p := PendingTasks(t, source, l.tasks);
    Report(|PendingUsers(t, l.tasks)|, |p|, |l.tasks| - |p|, |PendingUpdates(l.updates, Ids(p))|, |PendingDeps(l.deps, Ids(p))|)
  }

  // ----- what a run writes ----------------------------------------------------------------------------------------

  function WithUsers(t: Target, ts: seq<LegacyTask>, mint: int -> nat): map<int, nat> {
    map u | u in t.users.Keys + PendingUsers(t, ts) :: if u in t.users then t.users[u] else mint(u)
  }

  function Converted(x: LegacyTask, tenant: nat, principal: nat): Task {
    Task(Scope(tenant, principal), None, x.project, x.status, x.heartbeat, x.interval, x.updatedAt)
  }

  /** The first `k` task rows. */
  function AddTasks(t: Target, source: Text, tenant: nat, p: seq<LegacyTask>, draw: nat -> TaskId, k: nat): Target
    requires k <= |p| && forall x :: x in p ==> x.user in t.users
  {
    if k == 0 then t
    else
      var s := AddTasks(t, source, tenant, p, draw, k - 1);
      var x := p[k - 1];
      s.(ids := s.ids[Origin(source, x.id) := draw(x.id)], tasks := s.tasks[draw(x.id) := Converted(x, tenant, t.users[x.user])])
  }

  /** The first `k` history rows. */
  function AddHistory(t: Target, source: Text, us: seq<LegacyUpdate>, k: nat): Result<Target, ImportError>
    requires k <= |us|
  {
    if k == 0 then Ok(t)
    else
      var s := AddHistory(t, source, us, k - 1);
      if s.Err? then s
      else if Origin(source, us[k - 1].task) !in t.ids then Err(UnmappedUpdate(us[k - 1].task))
      else Ok(s.value.(history := s.value.history + [History(t.ids[Origin(source, us[k - 1].task)], us[k - 1].note)]))
  }

  predicate Mapped(t: Target, source: Text, d: Edge) {
    Origin(source, d.task) in t.ids && Origin(source, d.dependsOn) in t.ids
  }

  function Image(t: Target, source: Text, d: Edge): Edge
    requires Mapped(t, source, d)
  {
    Edge(t.ids[Origin(source, d.task)], t.ids[Origin(source, d.dependsOn)])
  }

  /** The edges after the first `k` legacy edges, or the first that cannot be mapped. */
  function AddEdges(t: Target, source: Text, ds: seq<Edge>, k: nat): Result<seq<Edge>, ImportError>
    requires k <= |ds|
  {
    if k == 0 then Ok(t.edges)
    else
      var s := AddEdges(t, source, ds, k - 1);
      if s.Err? then s
      else if !Mapped(t, source, ds[k - 1]) then Err(UnmappedEdge(ds[k - 1]))
      else Ok(InsertEdge(s.value, Image(t, source, ds[k - 1])))
  }

  function Staged(t: Target, source: Text, tenant: nat, l: Legacy, draw: nat -> TaskId, mint: int -> nat): Target
  {
    var p := PendingTasks(t, source, l.tasks);
    OwnersMapped(t, source, l.tasks, mint);
    AddTasks(t.(users := WithUsers(t, l.tasks, mint)), source, tenant, p, draw, |p|)
  }

  lemma OwnersMapped(t: Target, source: Text, ts: seq<LegacyTask>, mint: int -> nat)
    ensures forall x :: x in PendingTasks(t, source, ts) ==> x.user in WithUsers(t, ts, mint)
  {
  }

  /** A whole run: the new tables and the report, or an error that leaves the tables as they were. */
  function RealRun(t: Target, source: Text, tenant: nat, l: Legacy, draw: nat -> TaskId, mint: int -> nat): Result<Import, ImportError>
  {
    if Blank(source) then Err(BlankSource)
    else
      var p := PendingTasks(t, source, l.tasks);
      var us, ds := PendingUpdates(l.updates, Ids(p)), PendingDeps(l.deps, Ids(p));
      var s := Staged(t, source, tenant, l, draw, mint);
      var h := AddHistory(s, source, us, |us|);
      if h.Err? then Err(h.error)
      else
        var es := AddEdges(s, source, ds, |ds|);
        if es.Err? then Err(es.error)
        else
          EdgesGrow(s, source, ds, |ds|);
          Ok(Import(h.value.(edges := es.value),
                    Report(|PendingUsers(t, l.tasks)|, |p|, |l.tasks| - |p|, |us|, |es.value| - |s.edges|)))
  }

  lemma {:induction false} EdgesGrow(t: Target, source: Text, ds: seq<Edge>, k: nat)
    requires k <= |ds|
    ensures var r := AddEdges(t, source, ds, k); r.Ok? ==> |t.edges| <= |r.value| <= |t.edges| + k
  {
    if k > 0 { EdgesGrow(t, source, ds, k - 1); }
  }

  // ----- the import itself -----------------------------------------------------------------------------------------

  /**
   * `backfill_from_kleos`. A dry run returns its counts with the tables untouched; a real run stages every row
   * and returns the new tables only when each pending row could be mapped.
   */
  method BackfillFromKleos(t: Target, source: Text, tenant: nat, l: Legacy, draw: nat -> TaskId, mint: int -> nat, dryRun: bool)
    returns (r: Result<Import, ImportError>)
    ensures dryRun ==> r == if Blank(source) then Err(BlankSource) else Ok(Import(t, DryRun(t, source, l)))
    ensures !dryRun ==> r == RealRun(t, source, tenant, l, draw, mint)
  {
    hide PendingTasks;
    hide PendingUpdates;
    hide PendingDeps;
    hide PendingUsers;
    hide WithUsers;
    hide Ids;
    hide AddTasks;
    hide AddHistory;
    hide AddEdges;
    if Blank(source) { return Err(BlankSource); }
    hide Blank;
    var p := PendingTasks(t, source, l.tasks);
    var us, ds := PendingUpdates(l.updates, Ids(p)), PendingDeps(l.deps, Ids(p));
    if dryRun { return Ok(Import(t, DryRun(t, source, l))); }
    var users := WithUsers(t, l.tasks, mint);
    OwnersMapped(t, source, l.tasks, mint);
    var s := InsertTasks(t.(users := users), source, tenant, p, draw);
    var history := AppendHistory(s, source, us);
    if history.Err? { return Err(history.error); }
    var edges, inserted := InsertEdges(s, source, ds);
    if edges.Err? { return Err(edges.error); }
    return Ok(Import(s.(history := history.value, edges := edges.value), Report(|PendingUsers(t, l.tasks)|, |p|, |l.tasks| - |p|, |us|, inserted)));
  }

  method InsertTasks(t: Target, source: Text, tenant: nat, p: seq<LegacyTask>, draw: nat -> TaskId) returns (s: Target)
    requires forall x :: x in p ==> x.user in t.users
    ensures s == AddTasks(t, source, tenant, p, draw, |p|)
    ensures s.history == t.history && s.edges == t.edges
  {
    var idMap: map<Origin, TaskId>, tasks: map<TaskId, Task>, imported := t.ids, t.tasks, 0;
    while imported < |p|
      invariant 0 <= imported <= |p|
      invariant AddTasks(t, source, tenant, p, draw, imported) == t.(ids := idMap, tasks := tasks)
    {
      var x := p[imported];
      assert x in p;
      tasks := tasks[draw(x.id) := Converted(x, tenant, t.users[x.user])];
      idMap := idMap[Origin(source, x.id) := draw(x.id)];
      imported := imported + 1;
    }
    return t.(ids := idMap, tasks := tasks);
  }

  method AppendHistory(s: Target, source: Text, us: seq<LegacyUpdate>) returns (r: Result<seq<History>, ImportError>)
    ensures var h := AddHistory(s, source, us, |us|);
      if h.Err? then r == Err(h.error) else r.Ok? && h.value == s.(history := r.value)
  {
    var history, k := s.history, 0;
    while k < |us|
      invariant 0 <= k <= |us|
      invariant AddHistory(s, source, us, k) == Ok(s.(history := history))
    {
      if Origin(source, us[k].task) !in s.ids {
        HistoryFails(s, source, us, k + 1, |us|);
        return Err(UnmappedUpdate(us[k].task));
      }
      history := history + [History(s.ids[Origin(source, us[k].task)], us[k].note)];
      k := k + 1;
    }
    return Ok(history);
  }

  method InsertEdges(s: Target, source: Text, ds: seq<Edge>) returns (r: Result<seq<Edge>, ImportError>, inserted: nat)
    ensures r == AddEdges(s, source, ds, |ds|)
    ensures r.Ok? ==> inserted == |r.value| - |s.edges|
  {
    var edges, k := s.edges, 0;
    inserted := 0;
    while k < |ds|
      invariant 0 <= k <= |ds|
      invariant AddEdges(s, source, ds, k) == Ok(edges) && inserted == |edges| - |s.edges|
    {
      if !Mapped(s, source, ds[k]) {
        EdgesFail(s, source, ds, k + 1, |ds|);
        return Err(UnmappedEdge(ds[k])), inserted;
      }
      var e := Image(s, source, ds[k]);
      if e !in edges {
        edges, inserted := edges + [e], inserted + 1;
      }
      k := k + 1;
    }
    return Ok(edges), inserted;
  }

  lemma {:induction false} HistoryFails(t: Target, source: Text, us: seq<LegacyUpdate>, k: nat, n: nat)
    requires k <= n <= |us| && AddHistory(t, source, us, k).Err?
    ensures AddHistory(t, source, us, n) == AddHistory(t, source, us, k)
    decreases n
  {
    if k < n { HistoryFails(t, source, us, k, n - 1); }
  }

  lemma {:induction false} EdgesFail(t: Target, source: Text, ds: seq<Edge>, k: nat, n: nat)
    requires k <= n <= |ds| && AddEdges(t, source, ds, k).Err?
    ensures AddEdges(t, source, ds, n) == AddEdges(t, source, ds, k)
    decreases n
  {
    if k < n { EdgesFail(t, source, ds, k, n - 1); }
  }
}
