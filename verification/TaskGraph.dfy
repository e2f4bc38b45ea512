/** Finite directed graphs over task identifiers: paths, reachability, acyclicity. */
module TaskGraph {

  type TaskId = nat

  datatype Edge = Edge(task: TaskId, dependsOn: TaskId)

  ghost predicate IsPath(es: set<Edge>, p: seq<TaskId>) {
    |p| >= 1 && forall i {:trigger p[i]} :: 0 < i < |p| ==> Edge(p[i - 1], p[i]) in es
  }

  ghost predicate PathFrom(es: set<Edge>, p: seq<TaskId>, a: TaskId, b: TaskId) {
    IsPath(es, p) && p[0] == a && p[|p| - 1] == b
  }

  /** `b` can be reached from `a` by following dependencies; every task reaches itself. */
  ghost predicate Reach(es: set<Edge>, a: TaskId, b: TaskId) {
    exists p :: PathFrom(es, p, a, b)
  }

  ghost predicate Acyclic(es: set<Edge>) {
    forall p :: IsPath(es, p) && |p| >= 2 ==> p[0] != p[|p| - 1]
  }

  lemma ReachSelf(es: set<Edge>, a: TaskId)
    ensures Reach(es, a, a)
  {
    assert PathFrom(es, [a], a, a);
  }

  lemma ReachStep(es: set<Edge>, a: TaskId, b: TaskId, d: TaskId)
    requires Reach(es, a, b) && Edge(b, d) in es
    ensures Reach(es, a, d)
  {
    var p :| PathFrom(es, p, a, b);
    assert PathFrom(es, p + [d], a, d);
  }

  lemma ReachNeedsEdge(es: set<Edge>, a: TaskId, b: TaskId) returns (d: TaskId)
    requires Reach(es, a, b) && a != b
    ensures Edge(a, d) in es
  {
    var p :| PathFrom(es, p, a, b);
    d := p[1];
    assert Edge(p[0], p[1]) in es;
  }

  lemma PathMonotone(es: set<Edge>, fs: set<Edge>, p: seq<TaskId>)
    requires es <= fs && IsPath(es, p)
    ensures IsPath(fs, p)
  {
  }

  lemma ReachMonotone(es: set<Edge>, fs: set<Edge>, a: TaskId, b: TaskId)
    requires es <= fs && Reach(es, a, b)
    ensures Reach(fs, a, b)
  {
    var p :| PathFrom(es, p, a, b);
    PathMonotone(es, fs, p);
    assert PathFrom(fs, p, a, b);
  }

  lemma AcyclicSubset(es: set<Edge>, fs: set<Edge>)
    requires es <= fs && Acyclic(fs)
    ensures Acyclic(es)
  {
    forall p | IsPath(es, p) && |p| >= 2 ensures p[0] != p[|p| - 1] {
      PathMonotone(es, fs, p);
    }
  }

  /** A set that contains `a` and is closed under edges contains everything `a` reaches. */
  lemma {:induction false} ClosedUnderPath(es: set<Edge>, s: set<TaskId>, p: seq<TaskId>)
    requires IsPath(es, p) && p[0] in s
    requires forall e :: e in es && e.task in s ==> e.dependsOn in s
    ensures p[|p| - 1] in s
  {
    if |p| > 1 {
      assert IsPath(es, p[..|p| - 1]);
      ClosedUnderPath(es, s, p[..|p| - 1]);
      assert Edge(p[|p| - 2], p[|p| - 1]) in es;
    }
  }

  /** Every path to `a` has a beginning that reaches `a` without the edges out of `a`. */
  lemma {:induction false} ReachAvoiding(es: set<Edge>, a: TaskId, b: TaskId, p: seq<TaskId>)
    requires IsPath(es + {Edge(a, b)}, p) && p[|p| - 1] == a
    ensures Reach(es, p[0], a)
  {
    if a in p[..|p| - 1] {
      var i :| 0 <= i < |p| - 1 && p[i] == a;
      assert IsPath(es + {Edge(a, b)}, p[..i + 1]);
      ReachAvoiding(es, a, b, p[..i + 1]);
    } else {
      forall i | 0 < i < |p| ensures Edge(p[i - 1], p[i]) in es {
        assert p[i - 1] in p[..|p| - 1];
      }
      assert PathFrom(es, p, p[0], a);
    }
  }

  lemma PathSlice(es: set<Edge>, p: seq<TaskId>, i: nat, j: nat)
    requires IsPath(es, p) && i < j <= |p|
    ensures IsPath(es, p[i..j])
  {
    forall k | 0 < k < j - i ensures Edge(p[i..j][k - 1], p[i..j][k]) in es {
      assert Edge(p[i + k - 1], p[i + k]) in es;
    }
  }

  lemma PathConcat(es: set<Edge>, p: seq<TaskId>, q: seq<TaskId>)
    requires IsPath(es, p) && IsPath(es, q) && Edge(p[|p| - 1], q[0]) in es
    ensures IsPath(es, p + q)
  {
    var r := p + q;
    forall k | 0 < k < |r| ensures Edge(r[k - 1], r[k]) in es {
      if k > |p| { assert Edge(q[k - |p| - 1], q[k - |p|]) in es; }
    }
  }

  /** A cycle through an edge can be cut open there: its target reaches its source. */
  lemma CutCycle(es: set<Edge>, p: seq<TaskId>, i: nat) returns (q: seq<TaskId>)
    requires IsPath(es, p) && p[0] == p[|p| - 1] && 0 < i < |p|
    ensures PathFrom(es, q, p[i], p[i - 1])
  {
    PathSlice(es, p, i, |p|);
    q := p[i..];
    if i > 1 {
      PathSlice(es, p, 1, i);
      assert Edge(p[0], p[1]) in es;
      PathConcat(es, q, p[1..i]);
      q := q + p[1..i];
    }
  }

  /** An edge whose target does not reach its source closes no cycle. */
  lemma AddKeepsAcyclic(es: set<Edge>, a: TaskId, b: TaskId)
    requires Acyclic(es) && !Reach(es, b, a)
    ensures Acyclic(es + {Edge(a, b)})
  {
    var fs := es + {Edge(a, b)};
    forall p | IsPath(fs, p) && |p| >= 2 ensures p[0] != p[|p| - 1] {
      if i :| 0 < i < |p| && p[i - 1] == a && p[i] == b {
        if p[0] == p[|p| - 1] {
          var q := CutCycle(fs, p, i);
          ReachAvoiding(es, a, b, q);
        }
      } else {
        assert IsPath(es, p);
      }
    }
  }

  /** An edge whose target reaches its source does close a cycle. */
  lemma AddClosesCycle(es: set<Edge>, a: TaskId, b: TaskId)
    requires Reach(es, b, a) && Edge(a, b) in es
    ensures !Acyclic(es)
  {
    var p :| PathFrom(es, p, b, a);
    var q := p + [b];
    assert IsPath(es, q) && |q| >= 2 && q[0] == q[|q| - 1];
  }
}
