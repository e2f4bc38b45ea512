/**
 * What the legacy import guarantees: a dry run predicts it, a rerun changes nothing, sources never collide,
 * and an import into an empty store is a copy of the legacy graph (crates/henosis-chiasm/src/backfill.rs).
 */
module ImportFacts {
  import opened Base
  import opened TaskGraph
  import opened Tasks
  import opened Dependencies
  import opened Backfill

  // ----- the task rows ---------------------------------------------------------------------------------------

  lemma {:induction false} PendingUnique(t: Target, source: Text, ts: seq<LegacyTask>)
    requires UniqueLegacyIds(ts)
    ensures UniqueLegacyIds(PendingTasks(t, source, ts))
  {
    if ts != [] {
      var n := |ts| - 1;
      PendingUnique(t, source, ts[..n]);
      var rest := PendingTasks(t, source, ts[..n]);
      forall i | 0 <= i < |rest| ensures rest[i].id != ts[n].id {
        assert rest[i] in ts[..n];
      }
    }
  }

  /** One of the first `k` pending rows has this legacy identifier. */
  ghost predicate Among(p: seq<LegacyTask>, k: nat, id: nat)
    requires k <= |p|
  {
    exists j :: 0 <= j < k && p[j].id == id
  }

  /** The identifier map after `k` rows. */
  ghost predicate HasIds(t: Target, s: Target, source: Text, p: seq<LegacyTask>, draw: nat -> TaskId, k: nat)
    requires k <= |p|
  {
    && (forall o :: o in s.ids <==> o in t.ids || (o.source == source && Among(p, k, o.id)))
    && (forall o :: o in s.ids ==> s.ids[o] == if o in t.ids then t.ids[o] else draw(o.id))
  }

  /** The task rows after `k` rows. */
  ghost predicate HasRows(t: Target, s: Target, tenant: nat, p: seq<LegacyTask>, draw: nat -> TaskId, k: nat)
    requires k <= |p| && forall x :: x in p ==> x.user in t.users
  {
    && (forall i :: i in t.tasks ==> i in s.tasks && s.tasks[i] == t.tasks[i])
    && (forall j :: 0 <= j < k ==> p[j] in p && draw(p[j].id) in s.tasks && s.tasks[draw(p[j].id)] == Converted(p[j], tenant, t.users[p[j].user]))
    && (forall i :: i in s.tasks && i !in t.tasks ==> exists j :: 0 <= j < k && i == draw(p[j].id))
  }

  ghost predicate Importable(t: Target, source: Text, p: seq<LegacyTask>, draw: nat -> TaskId) {
    && UniqueLegacyIds(p) && FreshIds(t, draw)
    && (forall x :: x in p ==> x.user in t.users && Origin(source, x.id) !in t.ids)
  }

  lemma AmongNext(p: seq<LegacyTask>, k: nat)
    requires k < |p|
    ensures forall id :: Among(p, k + 1, id) <==> Among(p, k, id) || id == p[k].id
  {
    forall id ensures Among(p, k + 1, id) <==> Among(p, k, id) || id == p[k].id {
      if id == p[k].id { assert Among(p, k + 1, id); }
    }
  }

  lemma IdAdded(t: Target, s: Target, n: Target, source: Text, p: seq<LegacyTask>, draw: nat -> TaskId, k: nat)
    requires k < |p| && HasIds(t, s, source, p, draw, k) && Origin(source, p[k].id) !in t.ids
    requires n.ids == s.ids[Origin(source, p[k].id) := draw(p[k].id)]
    ensures HasIds(t, n, source, p, draw, k + 1)
  {
    AmongNext(p, k);
    hide Among;
  }

  lemma {:induction false} IdsAdded(t: Target, source: Text, tenant: nat, p: seq<LegacyTask>, draw: nat -> TaskId, k: nat)
    requires k <= |p| && forall x :: x in p ==> x.user in t.users && Origin(source, x.id) !in t.ids
    ensures var s := AddTasks(t, source, tenant, p, draw, k);
      HasIds(t, s, source, p, draw, k) && s == t.(ids := s.ids, tasks := s.tasks)
  {
    hide HasIds;
    hide Converted;
    if k == 0 {
      NoIdsYet(t, source, p, draw);
    } else {
      IdsAdded(t, source, tenant, p, draw, k - 1);
      assert p[k - 1] in p;
      IdAdded(t, AddTasks(t, source, tenant, p, draw, k - 1), AddTasks(t, source, tenant, p, draw, k), source, p, draw, k - 1);
    }
  }

  lemma NoIdsYet(t: Target, source: Text, p: seq<LegacyTask>, draw: nat -> TaskId)
    ensures HasIds(t, t, source, p, draw, 0)
  {
  }

  lemma {:induction false} RowsAdded(t: Target, source: Text, tenant: nat, p: seq<LegacyTask>, draw: nat -> TaskId, k: nat)
    requires k <= |p| && UniqueLegacyIds(p) && FreshIds(t, draw) && forall x :: x in p ==> x.user in t.users
    ensures HasRows(t, AddTasks(t, source, tenant, p, draw, k), tenant, p, draw, k)
  {
    hide HasRows;
    hide Converted;
    hide UniqueLegacyIds;
    hide FreshIds;
    if k == 0 {
      NoRowsYet(t, tenant, p, draw);
    } else {
      RowsAdded(t, source, tenant, p, draw, k - 1);
      assert p[k - 1] in p;
      RowAdded(t, AddTasks(t, source, tenant, p, draw, k - 1), AddTasks(t, source, tenant, p, draw, k), tenant, p, draw, k - 1);
    }
  }

  lemma NoRowsYet(t: Target, tenant: nat, p: seq<LegacyTask>, draw: nat -> TaskId)
    requires forall x :: x in p ==> x.user in t.users
    ensures HasRows(t, t, tenant, p, draw, 0)
  {
  }

  lemma RowAdded(t: Target, s: Target, n: Target, tenant: nat, p: seq<LegacyTask>, draw: nat -> TaskId, k: nat)
    requires k < |p| && UniqueLegacyIds(p) && FreshIds(t, draw) && p[k] in p && (forall x :: x in p ==> x.user in t.users)
    requires HasRows(t, s, tenant, p, draw, k) && n.tasks == s.tasks[draw(p[k].id) := Converted(p[k], tenant, t.users[p[k].user])]
    ensures HasRows(t, n, tenant, p, draw, k + 1)
  {
    hide Converted;
    var x := p[k];
    forall j | 0 <= j < k + 1
      ensures p[j] in p && draw(p[j].id) in n.tasks && n.tasks[draw(p[j].id)] == Converted(p[j], tenant, t.users[p[j].user])
    {
      if j < k { assert p[j].id != x.id; }
    }
    forall i | i in n.tasks && i !in t.tasks ensures exists j :: 0 <= j < k + 1 && i == draw(p[j].id) {
      if i in s.tasks {
        var j :| 0 <= j < k && i == draw(p[j].id);
      } else {
        assert i == draw(p[k].id);
      }
    }
  }

  lemma TasksKeepInv(t: Target, s: Target, source: Text, tenant: nat, p: seq<LegacyTask>, draw: nat -> TaskId)
    requires TargetInv(t) && Importable(t, source, p, draw) && s.edges == t.edges
    requires HasIds(t, s, source, p, draw, |p|) && HasRows(t, s, tenant, p, draw, |p|)
    ensures TargetInv(s)
  {
    IdsStayInjective(t, s, source, p, draw);
    assert forall i :: i in t.tasks ==> i in s.tasks;
    forall a | a in s.ids ensures s.ids[a] in s.tasks {
      if a !in t.ids { DrawnRow(t, s, tenant, p, draw, a.id); }
    }
    hide HasRows;
    hide HasIds;
    hide Importable;
  }

  lemma IdsStayInjective(t: Target, s: Target, source: Text, p: seq<LegacyTask>, draw: nat -> TaskId)
    requires Injective(t) && (forall a :: a in t.ids ==> t.ids[a] in t.tasks) && FreshIds(t, draw) && HasIds(t, s, source, p, draw, |p|)
    ensures Injective(s)
  {
    hide Among;
    forall a, b | a in s.ids && b in s.ids && s.ids[a] == s.ids[b] ensures a == b {
      assert a in t.ids <==> b in t.ids;
    }
  }

  lemma DrawnRow(t: Target, s: Target, tenant: nat, p: seq<LegacyTask>, draw: nat -> TaskId, id: nat)
    requires (forall x :: x in p ==> x.user in t.users) && HasRows(t, s, tenant, p, draw, |p|) && Among(p, |p|, id)
    ensures draw(id) in s.tasks
  {
  }

  // ----- the staged tables ------------------------------------------------------------------------------------

  /** A legacy task that this source has or had. */
  ghost predicate Known(t: Target, source: Text, l: Legacy, id: nat) {
    Origin(source, id) in t.ids || exists x :: x in l.tasks && x.id == id
  }

  /** What the staged tables are, in terms of the tables before the run. */
  ghost predicate StagedOk(t: Target, s: Target, source: Text, l: Legacy, draw: nat -> TaskId) {
    && TargetInv(s) && s.edges == t.edges && s.history == t.history
    && (forall id :: Origin(source, id) in s.ids <==> Known(t, source, l, id))
    && (forall o :: o in t.ids ==> o in s.ids && s.ids[o] == t.ids[o])
    && (forall o :: o in s.ids && o !in t.ids ==> o.source == source && s.ids[o] == draw(o.id) && draw(o.id) !in t.tasks)
    && (forall i :: i in t.tasks ==> i in s.tasks && s.tasks[i] == t.tasks[i])
  }

  ghost predicate Ready(t: Target, source: Text, l: Legacy, draw: nat -> TaskId) {
    TargetInv(t) && UniqueLegacyIds(l.tasks) && FreshIds(t, draw) && !Blank(source)
  }

  lemma StartImportable(t: Target, source: Text, l: Legacy, draw: nat -> TaskId, mint: int -> nat)
    requires Ready(t, source, l, draw)
    ensures var start := t.(users := WithUsers(t, l.tasks, mint));
      TargetInv(start) && Importable(start, source, PendingTasks(t, source, l.tasks), draw)
  {
    hide Blank;
    hide UniqueLegacyIds;
    hide FreshIds;
    hide WithUsers;
    hide PendingTasks;
    hide TargetInv;
    var start := t.(users := WithUsers(t, l.tasks, mint));
    PendingUnique(t, source, l.tasks);
    OwnersMapped(t, source, l.tasks, mint);
    UsersDoNotMatter(t, start, draw);
  }

  lemma UsersDoNotMatter(t: Target, start: Target, draw: nat -> TaskId)
    requires TargetInv(t) && FreshIds(t, draw) && start == t.(users := start.users)
    ensures TargetInv(start) && FreshIds(start, draw)
  {
  }

  lemma KnownExactly(t: Target, start: Target, s: Target, source: Text, l: Legacy, draw: nat -> TaskId)
    requires var p := PendingTasks(t, source, l.tasks); start.ids == t.ids && HasIds(start, s, source, p, draw, |p|)
    ensures forall id :: Origin(source, id) in s.ids <==> Known(t, source, l, id)
  {
    var p := PendingTasks(t, source, l.tasks);
    hide PendingTasks;
    forall id ensures Origin(source, id) in s.ids <==> Known(t, source, l, id) {
      if Among(p, |p|, id) {
        var j :| 0 <= j < |p| && p[j].id == id;
        assert p[j] in p;
      }
      if Origin(source, id) !in t.ids && Known(t, source, l, id) {
        var x :| x in l.tasks && x.id == id;
        assert x in p;
        var j :| 0 <= j < |p| && p[j] == x;
        assert Among(p, |p|, id);
      }
    }
  }

  lemma StagedRows(t: Target, source: Text, tenant: nat, l: Legacy, draw: nat -> TaskId, mint: int -> nat)
    requires Ready(t, source, l, draw)
    ensures StagedOk(t, Staged(t, source, tenant, l, draw, mint), source, l, draw)
  {
    hide Blank;
    var p, s := PendingTasks(t, source, l.tasks), Staged(t, source, tenant, l, draw, mint);
    var start := t.(users := WithUsers(t, l.tasks, mint));
    assert TargetInv(t) && FreshIds(t, draw);
    StartImportable(t, source, l, draw, mint);
    IdsAdded(start, source, tenant, p, draw, |p|);
    RowsAdded(start, source, tenant, p, draw, |p|);
    hide *;
    StagedOkFrom(t, start, s, source, tenant, l, draw);
  }

  lemma StagedOkFrom(t: Target, start: Target, s: Target, source: Text, tenant: nat, l: Legacy, draw: nat -> TaskId)
    requires TargetInv(t) && FreshIds(t, draw) && start == t.(users := start.users) && s == start.(ids := s.ids, tasks := s.tasks)
    requires TargetInv(start) && Importable(start, source, PendingTasks(t, source, l.tasks), draw)
    requires var p := PendingTasks(t, source, l.tasks); HasIds(start, s, source, p, draw, |p|) && HasRows(start, s, tenant, p, draw, |p|)
    ensures StagedOk(t, s, source, l, draw)
  {
    hide HasIds;
    hide HasRows;
    hide TargetInv;
    hide PendingTasks;
    hide Known;
    hide FreshIds;
    hide UniqueLegacyIds;
    var p := PendingTasks(t, source, l.tasks);
    TasksKeepInv(start, s, source, tenant, p, draw);
    KnownExactly(t, start, s, source, l, draw);
    OldIdsKept(start, s, source, p, draw);
    OldRowsKept(start, s, tenant, p, draw);
  }

  lemma OldIdsKept(t: Target, s: Target, source: Text, p: seq<LegacyTask>, draw: nat -> TaskId)
    requires HasIds(t, s, source, p, draw, |p|) && FreshIds(t, draw)
    ensures forall o :: o in t.ids ==> o in s.ids && s.ids[o] == t.ids[o]
    ensures forall o :: o in s.ids && o !in t.ids ==> o.source == source && s.ids[o] == draw(o.id) && draw(o.id) !in t.tasks
  {
    hide Among;
  }

  lemma OldRowsKept(t: Target, s: Target, tenant: nat, p: seq<LegacyTask>, draw: nat -> TaskId)
    requires (forall x :: x in p ==> x.user in t.users) && HasRows(t, s, tenant, p, draw, |p|)
    ensures forall i :: i in t.tasks ==> i in s.tasks && s.tasks[i] == t.tasks[i]
  {
  }

  /** The staged row of every legacy task. */
  lemma RowOfTask(t: Target, source: Text, tenant: nat, l: Legacy, draw: nat -> TaskId, mint: int -> nat, x: LegacyTask)
    requires Ready(t, source, l, draw) && x in l.tasks && Origin(source, x.id) !in t.ids
    ensures var s := Staged(t, source, tenant, l, draw, mint);
      && draw(x.id) in s.tasks && x.user in s.users && s.users == WithUsers(t, l.tasks, mint)
      && s.tasks[draw(x.id)] == Converted(x, tenant, s.users[x.user])
  {
    var p, s := PendingTasks(t, source, l.tasks), Staged(t, source, tenant, l, draw, mint);
    var start := t.(users := WithUsers(t, l.tasks, mint));
    StartImportable(t, source, l, draw, mint);
    IdsAdded(start, source, tenant, p, draw, |p|);
    RowsAdded(start, source, tenant, p, draw, |p|);
    assert x in p;
    var j :| 0 <= j < |p| && p[j] == x;
    hide AddTasks;
    hide WithUsers;
    hide PendingTasks;
    hide Blank;
    assert draw(p[j].id) in s.tasks;
  }

  // ----- history and edges -------------------------------------------------------------------------------------

  lemma {:induction false} HistoryMaps(t: Target, source: Text, us: seq<LegacyUpdate>, k: nat)
    requires k <= |us| && forall u :: u in us ==> Origin(source, u.task) in t.ids
    ensures var r := AddHistory(t, source, us, k);
      && r.Ok? && r.value == t.(history := r.value.history) && |r.value.history| == |t.history| + k
      && r.value.history[..|t.history|] == t.history
      && forall j :: 0 <= j < k ==>
           Origin(source, us[j].task) in t.ids && r.value.history[|t.history| + j] == History(t.ids[Origin(source, us[j].task)], us[j].note)
  {
    if k > 0 {
      HistoryMaps(t, source, us, k - 1);
      assert us[k - 1] in us;
    }
  }

  /** One of the first `k` legacy edges maps to `e`. */
  ghost predicate ImageAmong(t: Target, source: Text, ds: seq<Edge>, k: nat, e: Edge)
    requires k <= |ds|
  {
    exists j :: 0 <= j < k && Mapped(t, source, ds[j]) && e == Image(t, source, ds[j])
  }

  lemma {:induction false} EdgesExact(t: Target, source: Text, ds: seq<Edge>, k: nat)
    requires k <= |ds| && NoDuplicateEdges(t.edges)
    ensures var r := AddEdges(t, source, ds, k);
      && (r.Ok? <==> forall j :: 0 <= j < k ==> Mapped(t, source, ds[j]))
      && (r.Ok? ==> NoDuplicateEdges(r.value) && forall e :: e in r.value <==> e in t.edges || ImageAmong(t, source, ds, k, e))
  {
    if k > 0 {
      EdgesExact(t, source, ds, k - 1);
      var r := AddEdges(t, source, ds, k);
      if r.Ok? {
        var last := Image(t, source, ds[k - 1]);
        forall e ensures ImageAmong(t, source, ds, k, e) <==> ImageAmong(t, source, ds, k - 1, e) || e == last {
          if e == last { assert Mapped(t, source, ds[k - 1]); }
        }
        hide ImageAmong;
      }
    }
  }

  /** No legacy edge of the list maps to a row that is already there. */
  ghost predicate AllNew(t: Target, source: Text, ds: seq<Edge>) {
    forall j :: 0 <= j < |ds| && Mapped(t, source, ds[j]) ==> Image(t, source, ds[j]) !in t.edges
  }

  /** An edge is ignored as a duplicate exactly when it repeats an earlier legacy edge. */
  lemma IgnoredExactly(t: Target, source: Text, ds: seq<Edge>, k: nat)
    requires k < |ds| && NoDuplicateEdges(t.edges) && AddEdges(t, source, ds, k).Ok? && Mapped(t, source, ds[k])
    requires Injective(t) && AllNew(t, source, ds)
    ensures Image(t, source, ds[k]) in AddEdges(t, source, ds, k).value <==> ds[k] in ds[..k]
  {
    EdgesExact(t, source, ds, k);
    hide AddEdges;
    var e := Image(t, source, ds[k]);
    if ds[k] in ds[..k] {
      var j :| 0 <= j < k && ds[j] == ds[k];
      assert ImageAmong(t, source, ds, k, e);
    }
    if ImageAmong(t, source, ds, k, e) {
      var j :| 0 <= j < k && Mapped(t, source, ds[j]) && e == Image(t, source, ds[j]);
      assert ds[j] == ds[k] && ds[..k][j] == ds[j];
    }
  }

  /** The number of inserted edges is the number of legacy edges exactly when none of those repeats. */
  lemma {:induction false} EdgeCountExact(t: Target, source: Text, ds: seq<Edge>, k: nat)
    requires k <= |ds| && NoDuplicateEdges(t.edges) && AddEdges(t, source, ds, k).Ok?
    requires Injective(t) && AllNew(t, source, ds)
    ensures |AddEdges(t, source, ds, k).value| == |t.edges| + k <==> NoDuplicateEdges(ds[..k])
  {
    if k > 0 {
      hide Injective;
      hide AllNew;
      EdgeCountExact(t, source, ds, k - 1);
      EdgesGrow(t, source, ds, k - 1);
      IgnoredExactly(t, source, ds, k - 1);
      assert ds[..k] == ds[..k - 1] + [ds[k - 1]];
      AppendDistinct(ds[..k - 1], ds[k - 1]);
      hide NoDuplicateEdges;
    }
  }

  lemma AppendDistinct(ds: seq<Edge>, last: Edge)
    ensures NoDuplicateEdges(ds + [last]) <==> NoDuplicateEdges(ds) && last !in ds
  {
    var all := ds + [last];
    if NoDuplicateEdges(all) {
      forall i, j | 0 <= i < j < |ds| ensures ds[i] != ds[j] {
        assert all[i] == ds[i] && all[j] == ds[j];
      }
      forall i | 0 <= i < |ds| ensures ds[i] != last {
        assert all[i] != all[|ds|];
      }
    }
  }

  // ----- the whole run ---------------------------------------------------------------------------------------------

  /** Every edge with a pending end has two known ends. */
  ghost predicate EndpointsKnown(t: Target, source: Text, l: Legacy) {
    forall d :: d in PendingEdges(t, source, l) ==> Known(t, source, l, d.task) && Known(t, source, l, d.dependsOn)
  }

  function PendingEdges(t: Target, source: Text, l: Legacy): seq<Edge> {
    PendingDeps(l.deps, Ids(PendingTasks(t, source, l.tasks)))
  }

  lemma PendingIdsKnown(t: Target, source: Text, l: Legacy, id: nat)
    requires id in Ids(PendingTasks(t, source, l.tasks))
    ensures Known(t, source, l, id) && Origin(source, id) !in t.ids
  {
    var p := PendingTasks(t, source, l.tasks);
    var j :| 0 <= j < |p| && p[j].id == id;
    assert p[j] in p;
  }

  /** How the run is put together from its staged tables. */
  lemma RunShape(t: Target, source: Text, tenant: nat, l: Legacy, draw: nat -> TaskId, mint: int -> nat)
    requires Ready(t, source, l, draw)
    ensures var r, s, ds, dry := RealRun(t, source, tenant, l, draw, mint), Staged(t, source, tenant, l, draw, mint), PendingEdges(t, source, l), DryRun(t, source, l);
            var es := AddEdges(s, source, ds, |ds|);
      && (r.Ok? <==> es.Ok?)
      && (r.Ok? ==> r.value.target == s.(history := r.value.target.history, edges := es.value))
      && (r.Ok? ==> |es.value| >= |s.edges| && r.value.report == dry.(dependencies := |es.value| - |s.edges|))
  {
    var p, s := PendingTasks(t, source, l.tasks), Staged(t, source, tenant, l, draw, mint);
    var us := PendingUpdates(l.updates, Ids(p));
    StagedRows(t, source, tenant, l, draw, mint);
    forall u | u in us ensures Origin(source, u.task) in s.ids {
      PendingIdsKnown(t, source, l, u.task);
    }
    HistoryMaps(s, source, us, |us|);
    EdgesGrow(s, source, PendingEdges(t, source, l), |PendingEdges(t, source, l)|);
    hide Blank;
    hide StagedOk;
    hide Staged;
    hide AddHistory;
    hide AddEdges;
    hide PendingTasks;
    hide PendingUpdates;
    hide PendingDeps;
  }

  lemma MappedExactly(t: Target, s: Target, source: Text, l: Legacy, draw: nat -> TaskId)
    requires StagedOk(t, s, source, l, draw)
    ensures var ds := PendingEdges(t, source, l); EndpointsKnown(t, source, l) <==> forall j :: 0 <= j < |ds| ==> Mapped(s, source, ds[j])
  {
    var ds := PendingEdges(t, source, l);
    hide PendingEdges;
    hide TargetInv;
    hide Known;
    if EndpointsKnown(t, source, l) {
      forall j | 0 <= j < |ds| ensures Mapped(s, source, ds[j]) {
        assert ds[j] in ds;
      }
    }
  }

  /**
   * A real run succeeds exactly when every edge it must import has known ends; it then reports the dry run's
   * counts, with as many edges as predicted exactly when no pending edge repeats.
   */
  lemma DryRunPredicts(t: Target, source: Text, tenant: nat, l: Legacy, draw: nat -> TaskId, mint: int -> nat)
    requires Ready(t, source, l, draw)
    ensures var r, dry := RealRun(t, source, tenant, l, draw, mint), DryRun(t, source, l);
      && (r.Ok? <==> EndpointsKnown(t, source, l))
      && (r.Ok? ==> r.value.report == dry.(dependencies := r.value.report.dependencies) && r.value.report.dependencies <= dry.dependencies)
      && (r.Ok? ==> (r.value.report == dry <==> NoDuplicateEdges(PendingEdges(t, source, l))))
  {
    var s, ds := Staged(t, source, tenant, l, draw, mint), PendingEdges(t, source, l);
    StagedRows(t, source, tenant, l, draw, mint);
    RunShape(t, source, tenant, l, draw, mint);
    MappedExactly(t, s, source, l, draw);
    assert DryRun(t, source, l).dependencies == |ds|;
    hide RealRun;
    hide Staged;
    hide DryRun;
    EdgesExact(s, source, ds, |ds|);
    if AddEdges(s, source, ds, |ds|).Ok? {
      FreshImages(t, s, source, l, draw);
      assert Injective(s);
      hide AddEdges;
      EdgeCountExact(s, source, ds, |ds|);
      EdgesGrow(s, source, ds, |ds|);
      assert ds[..|ds|] == ds;
    }
  }

  /** An edge with a newly imported end is not in the table yet. */
  lemma FreshImages(t: Target, s: Target, source: Text, l: Legacy, draw: nat -> TaskId)
    requires TargetInv(t) && StagedOk(t, s, source, l, draw)
    ensures AllNew(s, source, PendingEdges(t, source, l))
  {
    var ds := PendingEdges(t, source, l);
    forall j | 0 <= j < |ds| && Mapped(s, source, ds[j]) ensures Image(s, source, ds[j]) !in s.edges {
      var d := ds[j];
      assert d in ds;
      var id := if d.task in Ids(PendingTasks(t, source, l.tasks)) then d.task else d.dependsOn;
      PendingIdsKnown(t, source, l, id);
      assert s.ids[Origin(source, id)] !in t.tasks;
    }
  }

  /** A run keeps the tables' guarantees, leaves everything of other sources alone, and maps every legacy task. */
  lemma SourcesNeverCollide(t: Target, source: Text, tenant: nat, l: Legacy, draw: nat -> TaskId, mint: int -> nat)
    requires Ready(t, source, l, draw) && RealRun(t, source, tenant, l, draw, mint).Ok?
    ensures var n := RealRun(t, source, tenant, l, draw, mint).value.target;
      && TargetInv(n)
      && (forall o :: o in t.ids ==> o in n.ids && n.ids[o] == t.ids[o])
      && (forall o :: o in n.ids && o !in t.ids ==> o.source == source && n.ids[o] !in t.tasks)
      && (forall i :: i in t.tasks ==> i in n.tasks && n.tasks[i] == t.tasks[i])
      && (forall a, b :: a in n.ids && b in n.ids && a.source != b.source ==> n.ids[a] != n.ids[b])
      && (forall e :: e in t.edges ==> e in n.edges)
  {
    var s, ds := Staged(t, source, tenant, l, draw, mint), PendingEdges(t, source, l);
    StagedRows(t, source, tenant, l, draw, mint);
    RunShape(t, source, tenant, l, draw, mint);
    EdgesExact(s, source, ds, |ds|);
    hide RealRun;
    hide Staged;
    hide DryRun;
    hide AddEdges;
    hide Blank;
    var n := RealRun(t, source, tenant, l, draw, mint).value.target;
    ImagesInside(s, n, source, ds);
  }

  lemma ImagesInside(s: Target, n: Target, source: Text, ds: seq<Edge>)
    requires TargetInv(s) && n.ids == s.ids && n.tasks == s.tasks && NoDuplicateEdges(n.edges)
    requires forall e :: e in n.edges <==> e in s.edges || ImageAmong(s, source, ds, |ds|, e)
    ensures TargetInv(n)
  {
  }

  /** Afterwards every legacy task and every legacy owner is mapped. */
  lemma EverythingMapped(t: Target, source: Text, tenant: nat, l: Legacy, draw: nat -> TaskId, mint: int -> nat)
    requires Ready(t, source, l, draw) && RealRun(t, source, tenant, l, draw, mint).Ok?
    ensures var n := RealRun(t, source, tenant, l, draw, mint).value.target;
      forall x :: x in l.tasks ==> Origin(source, x.id) in n.ids && x.user in n.users
  {
    var s := Staged(t, source, tenant, l, draw, mint);
    StagedRows(t, source, tenant, l, draw, mint);
    StagedUsers(t, source, tenant, l, draw, mint);
    RunShape(t, source, tenant, l, draw, mint);
    hide RealRun;
    hide Staged;
    hide DryRun;
    hide Blank;
    hide TargetInv;
    hide WithUsers;
    forall x | x in l.tasks ensures Origin(source, x.id) in s.ids && x.user in s.users {
      assert Known(t, source, l, x.id);
      UserMapped(t, l.tasks, mint, x);
    }
  }

  lemma StagedUsers(t: Target, source: Text, tenant: nat, l: Legacy, draw: nat -> TaskId, mint: int -> nat)
    requires Ready(t, source, l, draw)
    ensures Staged(t, source, tenant, l, draw, mint).users == WithUsers(t, l.tasks, mint)
  {
    StartImportable(t, source, l, draw, mint);
    var p := PendingTasks(t, source, l.tasks);
    IdsAdded(t.(users := WithUsers(t, l.tasks, mint)), source, tenant, p, draw, |p|);
  }

  lemma UserMapped(t: Target, ts: seq<LegacyTask>, mint: int -> nat, x: LegacyTask)
    requires x in ts
    ensures x.user in WithUsers(t, ts, mint)
  {
    var i :| 0 <= i < |ts| && ts[i] == x;
    assert x.user !in t.users ==> ts[i].user in PendingUsers(t, ts);
  }

  /** Importing the same source again changes nothing and reports nothing to do. */
  lemma RerunChangesNothing(
      t: Target, source: Text, tenant: nat, l: Legacy, draw: nat -> TaskId, mint: int -> nat, later: nat, again: nat -> TaskId, mintAgain: int -> nat)
    requires Ready(t, source, l, draw) && RealRun(t, source, tenant, l, draw, mint).Ok?
    ensures var n := RealRun(t, source, tenant, l, draw, mint).value.target;
      RealRun(n, source, later, l, again, mintAgain) == Ok(Import(n, Report(0, 0, |l.tasks|, 0, 0)))
  {
    EverythingMapped(t, source, tenant, l, draw, mint);
    hide Blank;
    hide TargetInv;
    hide RealRun;
    NothingPending(RealRun(t, source, tenant, l, draw, mint).value.target, source, later, l, again, mintAgain);
  }

  lemma HasMember<T>(s: seq<T>)
    requires s != []
    ensures exists x :: x in s
  {
    assert s[0] in s;
  }

  lemma EmptySeq<T>(s: seq<T>)
    requires forall x :: x !in s
    ensures s == []
  {
    if s != [] { HasMember(s); }
  }

  lemma NothingPending(n: Target, source: Text, tenant: nat, l: Legacy, draw: nat -> TaskId, mint: int -> nat)
    requires !Blank(source)
    requires forall x :: x in l.tasks ==> Origin(source, x.id) in n.ids && x.user in n.users
    ensures RealRun(n, source, tenant, l, draw, mint) == Ok(Import(n, Report(0, 0, |l.tasks|, 0, 0)))
  {
    hide Blank;
    var p := PendingTasks(n, source, l.tasks);
    EmptySeq(p);
    assert Ids(p) == {};
    assert forall i :: 0 <= i < |l.tasks| ==> l.tasks[i] in l.tasks;
    assert PendingUsers(n, l.tasks) == {};
    assert WithUsers(n, l.tasks, mint) == n.users;
    EmptySeq(PendingUpdates(l.updates, {}));
    EmptySeq(PendingDeps(l.deps, {}));
  }

  // ----- an import into an empty store -------------------------------------------------------------------------------

  const EMPTY_TARGET: Target := Target(map[], map[], map[], [], [])

  ghost predicate Clean(l: Legacy) {
    && UniqueLegacyIds(l.tasks)
    && forall d :: d in l.deps ==> d.task in Ids(l.tasks) && d.dependsOn in Ids(l.tasks)
  }

  /** The imported edges are the legacy edges under the drawn identifiers. */
  ghost predicate CopiesEdges(l: Legacy, edges: seq<Edge>, draw: nat -> TaskId) {
    && (forall d :: d in l.deps ==> Edge(draw(d.task), draw(d.dependsOn)) in edges)
    && (forall e :: e in edges ==> exists d :: d in l.deps && e == Edge(draw(d.task), draw(d.dependsOn)))
  }

  ghost predicate CopiesTasks(l: Legacy, tasks: map<TaskId, Task>, tenant: nat, draw: nat -> TaskId, mint: int -> nat) {
    && (forall x :: x in l.tasks ==>
          && draw(x.id) in tasks
          && tasks[draw(x.id)] == Task(Scope(tenant, mint(x.user)), None, x.project, x.status, x.heartbeat, x.interval, x.updatedAt))
    && (forall i :: i in tasks ==> exists x :: x in l.tasks && i == draw(x.id))
  }

  lemma AllPending(source: Text, l: Legacy)
    ensures Ids(PendingTasks(EMPTY_TARGET, source, l.tasks)) == Ids(l.tasks)
    ensures Clean(l) ==> forall d :: d in PendingEdges(EMPTY_TARGET, source, l) <==> d in l.deps
  {
    var p := PendingTasks(EMPTY_TARGET, source, l.tasks);
    forall id ensures id in Ids(p) <==> id in Ids(l.tasks) {
      if id in Ids(p) {
        var j :| 0 <= j < |p| && p[j].id == id;
        assert p[j] in p;
      }
      if id in Ids(l.tasks) {
        var j :| 0 <= j < |l.tasks| && l.tasks[j].id == id;
        assert l.tasks[j] in p;
      }
    }
  }

  lemma EmptyReady(source: Text, l: Legacy, draw: nat -> TaskId)
    requires Clean(l) && FreshIds(EMPTY_TARGET, draw) && !Blank(source)
    ensures Ready(EMPTY_TARGET, source, l, draw) && EndpointsKnown(EMPTY_TARGET, source, l)
  {
    hide Blank;
    AllPending(source, l);
    hide PendingEdges;
    forall id | id in Ids(l.tasks) ensures Known(EMPTY_TARGET, source, l, id) {
      var j :| 0 <= j < |l.tasks| && l.tasks[j].id == id;
      assert l.tasks[j] in l.tasks;
    }
  }

  // ----- what the report counts -----------------------------------------------------------------------------------------

  lemma {:induction false} TablesGrow(t: Target, source: Text, tenant: nat, p: seq<LegacyTask>, draw: nat -> TaskId, k: nat)
    requires Importable(t, source, p, draw) && k <= |p|
    ensures |AddTasks(t, source, tenant, p, draw, k).tasks| == |t.tasks| + k
    ensures |AddTasks(t, source, tenant, p, draw, k).ids| == |t.ids| + k
    decreases k
  {
    hide *;
    if k > 0 {
      TablesGrow(t, source, tenant, p, draw, k - 1);
      OneMore(t, source, tenant, p, draw, k - 1);
    } else {
      NoneYet(t, source, tenant, p, draw);
    }
  }

  lemma NoneYet(t: Target, source: Text, tenant: nat, p: seq<LegacyTask>, draw: nat -> TaskId)
    requires Importable(t, source, p, draw)
    ensures AddTasks(t, source, tenant, p, draw, 0) == t
  {
  }

  lemma NewKey<K, V>(m: map<K, V>, k: K, v: V)
    requires k !in m
    ensures |m[k := v]| == |m| + 1
  {
  }

  lemma OneMore(t: Target, source: Text, tenant: nat, p: seq<LegacyTask>, draw: nat -> TaskId, k: nat)
    requires Importable(t, source, p, draw) && k < |p|
    ensures |AddTasks(t, source, tenant, p, draw, k + 1).tasks| == |AddTasks(t, source, tenant, p, draw, k).tasks| + 1
    ensures |AddTasks(t, source, tenant, p, draw, k + 1).ids| == |AddTasks(t, source, tenant, p, draw, k).ids| + 1
  {
    hide Converted;
    var s := AddTasks(t, source, tenant, p, draw, k);
    NextIsNew(t, source, tenant, p, draw, k);
    NewKey(s.ids, Origin(source, p[k].id), draw(p[k].id));
    NewKey(s.tasks, draw(p[k].id), Converted(p[k], tenant, t.users[p[k].user]));
  }

  lemma NextIsNew(t: Target, source: Text, tenant: nat, p: seq<LegacyTask>, draw: nat -> TaskId, k: nat)
    requires Importable(t, source, p, draw) && k < |p|
    ensures var s := AddTasks(t, source, tenant, p, draw, k); draw(p[k].id) !in s.tasks && Origin(source, p[k].id) !in s.ids
  {
    IdsAdded(t, source, tenant, p, draw, k);
    RowsAdded(t, source, tenant, p, draw, k);
    hide AddTasks;
    hide Converted;
    assert p[k] in p;
    NotAmong(p, k);
  }

  lemma NotAmong(p: seq<LegacyTask>, k: nat)
    requires UniqueLegacyIds(p) && k < |p|
    ensures !Among(p, k, p[k].id) && forall j :: 0 <= j < k ==> p[j].id != p[k].id
  {
  }

  lemma UsersGrow(t: Target, ts: seq<LegacyTask>, mint: int -> nat)
    ensures var n := WithUsers(t, ts, mint);
      && |n| == |t.users| + |PendingUsers(t, ts)|
      && (forall u :: u in n <==> u in t.users || exists x :: x in ts && x.user == u)
      && (forall u :: u in n ==> n[u] == if u in t.users then t.users[u] else mint(u))
  {
    var n, added := WithUsers(t, ts, mint), PendingUsers(t, ts);
    assert n.Keys == t.users.Keys + added && t.users.Keys !! added;
    assert |n| == |n.Keys| && |t.users| == |t.users.Keys|;
    forall u ensures u in n <==> u in t.users || exists x :: x in ts && x.user == u {
      if x :| x in ts && x.user == u {
        var i :| 0 <= i < |ts| && ts[i] == x;
        assert ts[i].user == u;
      }
      if u in added {
        var i :| 0 <= i < |ts| && ts[i].user == u;
        assert ts[i] in ts;
      }
    }
  }

  /**
   * The report of a run is what the tables grew by, row for row: owners, tasks, history and edges; old owners keep
   * their principals, new ones get the minted ones.
   */
  lemma ReportIsTheGrowth(t: Target, source: Text, tenant: nat, l: Legacy, draw: nat -> TaskId, mint: int -> nat)
    requires Ready(t, source, l, draw) && RealRun(t, source, tenant, l, draw, mint).Ok?
    ensures var n, r := RealRun(t, source, tenant, l, draw, mint).value.target, RealRun(t, source, tenant, l, draw, mint).value.report;
      && |n.users| == |t.users| + r.minted && |n.tasks| == |t.tasks| + r.imported && |n.ids| == |t.ids| + r.imported
      && |n.history| == |t.history| + r.updates && |n.edges| == |t.edges| + r.dependencies && r.imported + r.skipped == |l.tasks|
      && (forall u :: u in n.users <==> u in t.users || exists x :: x in l.tasks && x.user == u)
      && (forall u :: u in n.users ==> n.users[u] == if u in t.users then t.users[u] else mint(u))
  {
    var p, s := PendingTasks(t, source, l.tasks), Staged(t, source, tenant, l, draw, mint);
    var start := t.(users := WithUsers(t, l.tasks, mint));
    StartImportable(t, source, l, draw, mint);
    TablesGrow(start, source, tenant, p, draw, |p|);
    UsersGrow(t, l.tasks, mint);
    StagedUsers(t, source, tenant, l, draw, mint);
    RunShape(t, source, tenant, l, draw, mint);
    StagedRows(t, source, tenant, l, draw, mint);
    HistoryCopied(t, source, tenant, l, draw, mint);
    assert DryRun(t, source, l).updates == |PendingUpdates(l.updates, Ids(p))|;
    assert s.edges == t.edges;
    hide *;
  }

  /** The imported history: the notes of the pending tasks, in order, each under its task's new identifier. */
  lemma HistoryCopied(t: Target, source: Text, tenant: nat, l: Legacy, draw: nat -> TaskId, mint: int -> nat)
    requires Ready(t, source, l, draw) && RealRun(t, source, tenant, l, draw, mint).Ok?
    ensures var n := RealRun(t, source, tenant, l, draw, mint).value.target;
            var us := PendingUpdates(l.updates, Ids(PendingTasks(t, source, l.tasks)));
      && |n.history| == |t.history| + |us| && n.history[..|t.history|] == t.history
      && forall j :: 0 <= j < |us| ==>
           Origin(source, us[j].task) in n.ids && n.history[|t.history| + j] == History(n.ids[Origin(source, us[j].task)], us[j].note)
  {
    hide *;
    var s := Staged(t, source, tenant, l, draw, mint);
    var us := PendingUpdates(l.updates, Ids(PendingTasks(t, source, l.tasks)));
    PendingUpdatesKnown(t, source, tenant, l, draw, mint);
    HistoryMaps(s, source, us, |us|);
    RunHistory(t, source, tenant, l, draw, mint);
  }

  lemma PendingUpdatesKnown(t: Target, source: Text, tenant: nat, l: Legacy, draw: nat -> TaskId, mint: int -> nat)
    requires Ready(t, source, l, draw)
    ensures var s := Staged(t, source, tenant, l, draw, mint);
      s.history == t.history && forall u :: u in PendingUpdates(l.updates, Ids(PendingTasks(t, source, l.tasks))) ==> Origin(source, u.task) in s.ids
  {
    StagedRows(t, source, tenant, l, draw, mint);
    forall u | u in PendingUpdates(l.updates, Ids(PendingTasks(t, source, l.tasks)))
      ensures Origin(source, u.task) in Staged(t, source, tenant, l, draw, mint).ids
    {
      PendingIdsKnown(t, source, l, u.task);
    }
  }

  /** Edges come after history and touch neither identifiers nor history. */
  lemma RunHistory(t: Target, source: Text, tenant: nat, l: Legacy, draw: nat -> TaskId, mint: int -> nat)
    requires RealRun(t, source, tenant, l, draw, mint).Ok?
    ensures var s, us := Staged(t, source, tenant, l, draw, mint), PendingUpdates(l.updates, Ids(PendingTasks(t, source, l.tasks)));
      var n, h := RealRun(t, source, tenant, l, draw, mint).value.target, AddHistory(s, source, us, |us|);
      h.Ok? && n.ids == h.value.ids && n.history == h.value.history
  {
    hide Blank;
    hide Staged;
    hide AddHistory;
    hide AddEdges;
    hide PendingTasks;
    hide PendingUpdates;
    hide PendingDeps;
  }

  /** Nothing pending is lost or doubled. */
  lemma {:induction false} PendingUpdatesComplete(us: seq<LegacyUpdate>, ids: set<nat>, x: LegacyUpdate)
    ensures multiset(PendingUpdates(us, ids))[x] == if x.task in ids then multiset(us)[x] else 0
    decreases |us|
  {
    if us != [] {
      var n := |us| - 1;
      PendingUpdatesComplete(us[..n], ids, x);
      assert us == us[..n] + [us[n]];
    }
  }

  lemma {:induction false} PendingDepsComplete(ds: seq<Edge>, ids: set<nat>, x: Edge)
    ensures multiset(PendingDeps(ds, ids))[x] == if x.task in ids || x.dependsOn in ids then multiset(ds)[x] else 0
    decreases |ds|
  {
    if ds != [] {
      var n := |ds| - 1;
      PendingDepsComplete(ds[..n], ids, x);
      assert ds == ds[..n] + [ds[n]];
    }
  }

  /** Into an empty store, a clean legacy database is copied: tasks one to one, edges one to one. */
  lemma EmptyImportIsCopy(source: Text, tenant: nat, l: Legacy, draw: nat -> TaskId, mint: int -> nat)
    requires Clean(l) && FreshIds(EMPTY_TARGET, draw) && !Blank(source)
    ensures var r := RealRun(EMPTY_TARGET, source, tenant, l, draw, mint);
      r.Ok? && CopiesEdges(l, r.value.target.edges, draw) && CopiesTasks(l, r.value.target.tasks, tenant, draw, mint)
  {
    var t := EMPTY_TARGET;
    EmptyReady(source, l, draw);
    DryRunPredicts(t, source, tenant, l, draw, mint);
    RunShape(t, source, tenant, l, draw, mint);
    StagedRows(t, source, tenant, l, draw, mint);
    var s, ds := Staged(t, source, tenant, l, draw, mint), PendingEdges(t, source, l);
    EdgesExact(s, source, ds, |ds|);
    AllPending(source, l);
    CopiedTasks(source, tenant, l, draw, mint);
    var n := RealRun(t, source, tenant, l, draw, mint).value.target;
    assert n.tasks == s.tasks;
    assert s.edges == [];
    hide *;
    CopiedEdges(s, source, l, ds, n.edges, draw);
  }

  lemma CopiedTasks(source: Text, tenant: nat, l: Legacy, draw: nat -> TaskId, mint: int -> nat)
    requires Ready(EMPTY_TARGET, source, l, draw)
    ensures CopiesTasks(l, Staged(EMPTY_TARGET, source, tenant, l, draw, mint).tasks, tenant, draw, mint)
  {
    hide Staged;
    hide Ready;
    hide WithUsers;
    var s := Staged(EMPTY_TARGET, source, tenant, l, draw, mint);
    StagedOnto(source, tenant, l, draw, mint);
    forall x | x in l.tasks ensures draw(x.id) in s.tasks && s.tasks[draw(x.id)] == Converted(x, tenant, mint(x.user)) {
      RowOfTask(EMPTY_TARGET, source, tenant, l, draw, mint, x);
      NewUser(l.tasks, mint, x);
    }
  }

  lemma NewUser(ts: seq<LegacyTask>, mint: int -> nat, x: LegacyTask)
    requires x in ts
    ensures x.user in WithUsers(EMPTY_TARGET, ts, mint) && WithUsers(EMPTY_TARGET, ts, mint)[x.user] == mint(x.user)
  {
    UserMapped(EMPTY_TARGET, ts, mint, x);
  }

  lemma StagedOnto(source: Text, tenant: nat, l: Legacy, draw: nat -> TaskId, mint: int -> nat)
    requires Ready(EMPTY_TARGET, source, l, draw)
    ensures forall i :: i in Staged(EMPTY_TARGET, source, tenant, l, draw, mint).tasks ==> exists x :: x in l.tasks && i == draw(x.id)
  {
    hide AddTasks;
    hide HasRows;
    hide WithUsers;
    hide PendingTasks;
    hide Blank;
    hide UniqueLegacyIds;
    hide TargetInv;
    hide FreshIds;
    var start := EMPTY_TARGET.(users := WithUsers(EMPTY_TARGET, l.tasks, mint));
    var p := PendingTasks(EMPTY_TARGET, source, l.tasks);
    StartImportable(EMPTY_TARGET, source, l, draw, mint);
    RowsAdded(start, source, tenant, p, draw, |p|);
    CopiedOnto(start, Staged(EMPTY_TARGET, source, tenant, l, draw, mint), source, tenant, l, draw);
  }

  lemma CopiedOnto(start: Target, s: Target, source: Text, tenant: nat, l: Legacy, draw: nat -> TaskId)
    requires start.tasks == map[]
    requires var p := PendingTasks(EMPTY_TARGET, source, l.tasks);
      (forall x :: x in p ==> x.user in start.users) && HasRows(start, s, tenant, p, draw, |p|)
    ensures forall i :: i in s.tasks ==> exists x :: x in l.tasks && i == draw(x.id)
  {
    var p := PendingTasks(EMPTY_TARGET, source, l.tasks);
    hide PendingTasks;
    forall i | i in s.tasks ensures exists x :: x in l.tasks && i == draw(x.id) {
      var j :| 0 <= j < |p| && i == draw(p[j].id);
      assert p[j] in p;
    }
  }

  lemma CopiedEdges(s: Target, source: Text, l: Legacy, ds: seq<Edge>, edges: seq<Edge>, draw: nat -> TaskId)
    requires StagedOk(EMPTY_TARGET, s, source, l, draw) && EndpointsKnown(EMPTY_TARGET, source, l) && ds == PendingEdges(EMPTY_TARGET, source, l)
    requires forall d :: d in ds <==> d in l.deps
    requires forall e :: e in edges <==> e in s.edges || ImageAmong(s, source, ds, |ds|, e)
    requires s.edges == []
    ensures CopiesEdges(l, edges, draw)
  {
    hide TargetInv;
    hide PendingEdges;
    hide Known;
    forall d | d in l.deps ensures Mapped(s, source, d) && Image(s, source, d) == Edge(draw(d.task), draw(d.dependsOn)) {
      assert d in ds;
    }
    forall d | d in l.deps ensures Edge(draw(d.task), draw(d.dependsOn)) in edges {
      assert d in ds;
      var j :| 0 <= j < |ds| && ds[j] == d;
      assert Mapped(s, source, ds[j]);
      assert ImageAmong(s, source, ds, |ds|, Image(s, source, d));
    }
    forall e | e in edges ensures exists d :: d in l.deps && e == Edge(draw(d.task), draw(d.dependsOn)) {
      var j :| 0 <= j < |ds| && Mapped(s, source, ds[j]) && e == Image(s, source, ds[j]);
      assert ds[j] in ds;
    }
  }

  // ----- the copied graph ----------------------------------------------------------------------------------------------

  /** A map that carries every edge along carries cycles along. */
  lemma CyclesMap(es: set<Edge>, fs: set<Edge>, f: map<TaskId, TaskId>)
    requires Acyclic(fs) && forall e :: e in es ==> e.task in f && e.dependsOn in f && Edge(f[e.task], f[e.dependsOn]) in fs
    ensures Acyclic(es)
  {
    forall p | IsPath(es, p) && |p| >= 2 ensures p[0] != p[|p| - 1] {
      PathMaps(es, fs, f, p);
    }
  }

  lemma PathMaps(es: set<Edge>, fs: set<Edge>, f: map<TaskId, TaskId>, p: seq<TaskId>)
    requires Acyclic(fs) && IsPath(es, p) && |p| >= 2
    requires forall e :: e in es ==> e.task in f && e.dependsOn in f && Edge(f[e.task], f[e.dependsOn]) in fs
    ensures p[0] != p[|p| - 1]
  {
    forall i | 0 <= i < |p| ensures p[i] in f {
      if i > 0 { assert Edge(p[i - 1], p[i]) in es; } else { assert Edge(p[0], p[1]) in es; }
    }
    var q := seq(|p|, i requires 0 <= i < |p| => f[p[i]]);
    forall i | 0 < i < |q| ensures Edge(q[i - 1], q[i]) in fs {
      assert Edge(p[i - 1], p[i]) in es;
    }
    assert IsPath(fs, q);
  }

  /** The legacy identifier behind a drawn one. */
  ghost function Back(ids: set<nat>, draw: nat -> TaskId, i: TaskId): nat
    requires exists id :: id in ids && draw(id) == i
  {
    var id :| id in ids && draw(id) == i;
    id
  }

  /** The copy has a cycle exactly when the legacy graph has one. */
  lemma CopyKeepsCycles(l: Legacy, edges: seq<Edge>, draw: nat -> TaskId)
    requires Clean(l) && CopiesEdges(l, edges, draw) && forall i, j :: draw(i) == draw(j) ==> i == j
    ensures Acyclic(EdgeSet(edges)) <==> Acyclic(EdgeSet(l.deps))
  {
    hide Acyclic;
    var ids := Ids(l.tasks);
    hide Ids;
    var drawn := set id | id in ids :: draw(id);
    var f := map id | id in ids :: draw(id);
    var g := map i | i in drawn :: Back(ids, draw, i);
    if Acyclic(EdgeSet(edges)) {
      CyclesMap(EdgeSet(l.deps), EdgeSet(edges), f);
    }
    if Acyclic(EdgeSet(l.deps)) {
      forall e | e in EdgeSet(edges) ensures e.task in g && e.dependsOn in g && Edge(g[e.task], g[e.dependsOn]) in EdgeSet(l.deps) {
        var d :| d in l.deps && e == Edge(draw(d.task), draw(d.dependsOn));
        assert d.task in ids && d.dependsOn in ids;
        assert g[e.task] == d.task && g[e.dependsOn] == d.dependsOn;
      }
      CyclesMap(EdgeSet(edges), EdgeSet(l.deps), g);
    }
  }

  ghost predicate OneOwnerPerEdge(l: Legacy) {
    forall d, x, y :: d in l.deps && x in l.tasks && y in l.tasks && x.id == d.task && y.id == d.dependsOn ==> x.user == y.user
  }

  /**
   * The import runs no cycle or boundary check of its own: the imported store satisfies the dependency
   * invariant exactly when the legacy graph is acyclic and no legacy edge joins tasks of two owners.
   */
  lemma ImportIsCoherentExactly(source: Text, tenant: nat, l: Legacy, draw: nat -> TaskId, mint: int -> nat)
    requires Clean(l) && FreshIds(EMPTY_TARGET, draw) && !Blank(source) && forall u, v :: mint(u) == mint(v) ==> u == v
    ensures var r := RealRun(EMPTY_TARGET, source, tenant, l, draw, mint);
      r.Ok? && (DepInv(Db(r.value.target.tasks, r.value.target.edges, [])) <==> Acyclic(EdgeSet(l.deps)) && OneOwnerPerEdge(l))
  {
    EmptyReady(source, l, draw);
    EmptyImportIsCopy(source, tenant, l, draw, mint);
    SourcesNeverCollide(EMPTY_TARGET, source, tenant, l, draw, mint);
    var n := RealRun(EMPTY_TARGET, source, tenant, l, draw, mint).value.target;
    hide RealRun;
    hide Acyclic;
    hide Blank;
    assert NoDuplicateEdges(n.edges);
    CopyKeepsCycles(l, n.edges, draw);
    OwnersExactly(l, n, tenant, draw, mint);
    hide CopiesEdges;
    hide CopiesTasks;
    hide TargetInv;
  }

  lemma OwnersExactly(l: Legacy, n: Target, tenant: nat, draw: nat -> TaskId, mint: int -> nat)
    requires CopiesEdges(l, n.edges, draw) && CopiesTasks(l, n.tasks, tenant, draw, mint) && Clean(l)
    requires (forall i, j :: draw(i) == draw(j) ==> i == j) && forall u, v :: mint(u) == mint(v) ==> u == v
    ensures EdgesScoped(Db(n.tasks, n.edges, [])) <==> OneOwnerPerEdge(l)
  {
    hide Converted;
    hide Ids;
    forall x | x in l.tasks ensures draw(x.id) in n.tasks && n.tasks[draw(x.id)].scope == Scope(tenant, mint(x.user)) {
      ConvertedScope(x, tenant, mint(x.user));
    }
    if OneOwnerPerEdge(l) {
      forall e | e in n.edges ensures e.task in n.tasks && e.dependsOn in n.tasks && n.tasks[e.task].scope == n.tasks[e.dependsOn].scope {
        var d :| d in l.deps && e == Edge(draw(d.task), draw(d.dependsOn));
        var x := TaskOf(l, d.task);
        var y := TaskOf(l, d.dependsOn);
      }
    }
    if EdgesScoped(Db(n.tasks, n.edges, [])) {
      forall d, x, y | d in l.deps && x in l.tasks && y in l.tasks && x.id == d.task && y.id == d.dependsOn ensures x.user == y.user {
        assert Edge(draw(x.id), draw(y.id)) in n.edges;
      }
    }
  }

  lemma ConvertedScope(x: LegacyTask, tenant: nat, principal: nat)
    ensures Converted(x, tenant, principal).scope == Scope(tenant, principal)
  {
  }

  lemma TaskOf(l: Legacy, id: nat) returns (x: LegacyTask)
    requires id in Ids(l.tasks)
    ensures x in l.tasks && x.id == id
  {
    var i :| 0 <= i < |l.tasks| && l.tasks[i].id == id;
    x := l.tasks[i];
  }

  // ----- imports that break the promises ---------------------------------------------------------------------------------

  function LegacyOf(id: nat, user: int): LegacyTask {
    LegacyTask(id, user, [], Active, None, 300, 0)
  }

  /** Two legacy tasks with the given owners and edges. */
  function TwoTasks(u: int, v: int, deps: seq<Edge>): Legacy {
    Legacy([LegacyOf(1, u), LegacyOf(2, v)], [], deps)
  }

  function Mint(u: int): nat {
    if u >= 0 then 2 * u else -2 * u - 1
  }

  function Draw(id: nat): TaskId {
    id
  }

  const SOURCE: Text := [0x61]

  /** The import of such a database into an empty store. */
  function ImportTwo(u: int, v: int, deps: seq<Edge>): Result<Import, ImportError> {
    RealRun(EMPTY_TARGET, SOURCE, 0, TwoTasks(u, v, deps), Draw, Mint)
  }

  lemma TwoTasksClean(u: int, v: int, deps: seq<Edge>)
    requires forall d :: d in deps ==> d.task in {1, 2} && d.dependsOn in {1, 2}
    ensures Clean(TwoTasks(u, v, deps)) && FreshIds(EMPTY_TARGET, Draw) && !Blank(SOURCE)
  {
    var ts := TwoTasks(u, v, deps).tasks;
    assert ts[0].id == 1 && ts[1].id == 2;
    assert 1 in Ids(ts) && 2 in Ids(ts);
    assert LeadingSpace(SOURCE) == 0;
  }

  lemma TwoTasksCopied(u: int, v: int, deps: seq<Edge>)
    requires forall d :: d in deps ==> d.task in {1, 2} && d.dependsOn in {1, 2}
    ensures var l, r := TwoTasks(u, v, deps), ImportTwo(u, v, deps);
      && Clean(l) && r.Ok? && CopiesEdges(l, r.value.target.edges, Draw) && CopiesTasks(l, r.value.target.tasks, 0, Draw, Mint)
      && (Acyclic(EdgeSet(r.value.target.edges)) <==> Acyclic(EdgeSet(deps)))
      && (EdgesScoped(Db(r.value.target.tasks, r.value.target.edges, [])) <==> OneOwnerPerEdge(l))
  {
    TwoTasksClean(u, v, deps);
    var l := TwoTasks(u, v, deps);
    assert l.deps == deps;
    assert forall i, j :: Draw(i) == Draw(j) ==> i == j;
    assert forall a, b :: Mint(a) == Mint(b) ==> a == b;
    assert ImportTwo(u, v, deps) == RealRun(EMPTY_TARGET, SOURCE, 0, l, Draw, Mint);
    hide *;
    EmptyImportIsCopy(SOURCE, 0, l, Draw, Mint);
    var n := ImportTwo(u, v, deps).value.target;
    CopyKeepsCycles(l, n.edges, Draw);
    OwnersExactly(l, n, 0, Draw, Mint);
  }

  /** A cyclic legacy graph is imported as it is. */
  lemma CyclicImportHappens()
    ensures var r := ImportTwo(0, 0, [Edge(1, 2), Edge(2, 1)]); r.Ok? && !Acyclic(EdgeSet(r.value.target.edges))
  {
    hide *;
    TwoTasksCopied(0, 0, [Edge(1, 2), Edge(2, 1)]);
    TwoCycle([Edge(1, 2), Edge(2, 1)]);
  }

  lemma TwoCycle(deps: seq<Edge>)
    requires deps == [Edge(1, 2), Edge(2, 1)]
    ensures !Acyclic(EdgeSet(deps))
  {
    var p := [1, 2, 1];
    assert deps[0] in deps && deps[1] in deps;
    assert IsPath(EdgeSet(deps), p);
    assert p[0] == p[|p| - 1];
  }

  /** An edge between tasks of two owners is imported as it is. */
  lemma TwoOwnerImportHappens()
    ensures var r := ImportTwo(0, 1, [Edge(1, 2)]); r.Ok? && !EdgesScoped(Db(r.value.target.tasks, r.value.target.edges, []))
  {
    hide *;
    TwoTasksCopied(0, 1, [Edge(1, 2)]);
    TwoOwners(TwoTasks(0, 1, [Edge(1, 2)]));
  }

  lemma TwoOwners(l: Legacy)
    requires l == TwoTasks(0, 1, [Edge(1, 2)])
    ensures !OneOwnerPerEdge(l)
  {
    assert l.tasks[0] in l.tasks && l.tasks[1] in l.tasks && l.deps[0] in l.deps;
  }

  /** A repeated legacy edge makes the dry run predict more than the real run inserts. */
  lemma DryRunMiscounts()
    ensures var r, dry := ImportTwo(0, 0, [Edge(1, 2), Edge(1, 2)]), DryRun(EMPTY_TARGET, SOURCE, TwoTasks(0, 0, [Edge(1, 2), Edge(1, 2)]));
      r.Ok? && r.value.report.dependencies < dry.dependencies
  {
    var deps := [Edge(1, 2), Edge(1, 2)];
    var l := TwoTasks(0, 0, deps);
    TwoTasksClean(0, 0, deps);
    EmptyReady(SOURCE, l, Draw);
    DryRunPredicts(EMPTY_TARGET, SOURCE, 0, l, Draw, Mint);
    AllPending(SOURCE, l);
    assert 1 in Ids(l.tasks) by { assert l.tasks[0].id == 1; }
    RepeatedEdge(Ids(PendingTasks(EMPTY_TARGET, SOURCE, l.tasks)));
    assert ImportTwo(0, 0, deps) == RealRun(EMPTY_TARGET, SOURCE, 0, l, Draw, Mint);
    assert PendingEdges(EMPTY_TARGET, SOURCE, l) == PendingDeps(deps, Ids(PendingTasks(EMPTY_TARGET, SOURCE, l.tasks)));
    hide *;
  }

  lemma RepeatedEdge(ids: set<nat>)
    requires 1 in ids
    ensures !NoDuplicateEdges(PendingDeps([Edge(1, 2), Edge(1, 2)], ids))
  {
    var e := Edge(1, 2);
    assert [e, e][..1] == [e] && [e][..0] == [];
    assert PendingDeps([], ids) == [];
    assert PendingDeps([e], ids) == [e];
    assert PendingDeps([e, e], ids) == [e, e];
  }
}
