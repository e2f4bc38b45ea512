/** The approval store: its table and its operations (crates/henosis-approval/src/lib.rs). */
module ApprovalStorage {
  import opened Base
  import opened Approvals
  import opened OneUse

  /** What a request must satisfy before anything is written. */
  ghost predicate Acceptable(q: Request, now: int) {
    && CanonicalToken(q.binding.token)
    && 1 <= |q.binding.tool| <= 128 && 1 <= |q.binding.action| <= 128 && 1 <= |q.prompt| <= 4096 && 1 <= |q.binding.policy| <= 128
    && q.createdAt < q.expiresAt && now < q.expiresAt
  }

  lemma AcceptableMeans(q: Request, now: int)
    ensures ValidRequest(q) && q.expiresAt > now <==> Acceptable(q, now)
  {
    hide CanonicalToken;
  }

  /** The row as a reader sees it: a pending or approved row past its deadline reads as expired, any other as it is. */
  ghost predicate ShownAs(a: Approval, now: int, shown: Approval) {
    shown == if (a.status == Pending || a.status == Approved) && a.expiresAt <= now then a.(status := Expired) else a
  }

  ghost predicate SameRow(a: Approval, tenant: nat, id: nat) {
    a.binding.tenant == tenant && a.id == id
  }

  /** The row authorizes exactly this claim: approved, not past its deadline, and bound to the same request. */
  ghost predicate Authorizes(a: Approval, c: Claim, now: int) {
    && a.id == c.id && a.status == Approved && now < a.expiresAt
    && a.binding.tenant == c.tenant && a.binding.principal == c.principal && a.binding.token == c.token
    && a.binding.hash == c.hash && a.binding.policy == c.policy
  }

  /** What a decision makes of a row. */
  ghost predicate DecidedTo(a: Approval, tenant: nat, id: nat, approve: bool, actor: Text, reason: Option<Text>, now: int, after: Approval) {
    if !SameRow(a, tenant, id) || a.status != Pending then after == a
    else if a.expiresAt <= now then after == a.(status := Expired)
    else after == a.(status := if approve then Approved else Denied, decidedAt := Some(now), actor := Some(actor), reason := reason)
  }

  /** What a consumption makes of a row. */
  ghost predicate ConsumedTo(a: Approval, c: Claim, now: int, after: Approval) {
    if Authorizes(a, c, now) then after == a.(status := Consumed, consumedAt := Some(now))
    else if SameRow(a, c.tenant, c.id) && a.status == Approved && a.expiresAt <= now then after == a.(status := Expired)
    else after == a
  }

  /** No row of the binding was created after this one, nor at the same instant with a higher identifier. */
  ghost predicate NewestOf(rows: Rows, a: Approval) {
    forall b :: b in rows && b.binding == a.binding ==> b.createdAt < a.createdAt || (b.createdAt == a.createdAt && b.id <= a.id)
  }

  /** The row after a sweep of one tenant. */
  ghost predicate SweptTo(a: Approval, tenant: nat, now: int, after: Approval) {
    if a.binding.tenant == tenant then ShownAs(a, now, after) else after == a
  }

  lemma {:induction false} NewestMeans(rows: Rows, b: Binding, liveOnly: bool)
    ensures var r := Newest(rows, b, liveOnly);
      r.Some? ==> forall a :: a in rows && Selected(a, b, liveOnly) ==>
        a.createdAt < r.value.createdAt || (a.createdAt == r.value.createdAt && a.id <= r.value.id)
    decreases |rows|
  {
    if rows != [] {
      NewestMeans(rows[..|rows| - 1], b, liveOnly);
      assert rows == rows[..|rows| - 1] + [rows[|rows| - 1]];
    }
  }

  /**
   * What a successful request leaves: the tenant's lapsed rows are expired. Either a row is added, and then the
   * identifier is new and every newest row of the binding is expired, or the answer is live or newest.
   */
  ghost predicate Answered(before: Rows, q: Request, id: nat, now: int, after: Rows, a: Approval) {
    && |before| <= |after|
    && (forall i :: 0 <= i < |before| ==> SweptTo(before[i], q.binding.tenant, now, after[i]))
    && (|after| == |before| ==> NewestOf(after, a) || a.status == Pending || a.status == Approved)
    && (|after| > |before| ==>
          && (forall i :: 0 <= i < |before| ==> after[i].id != id)
          && (forall i :: 0 <= i < |before| && after[i].binding == q.binding ==> after[i].status != Pending && after[i].status != Approved)
          && (forall i :: 0 <= i < |before| && after[i].binding == q.binding && NewestOf(after[..|before|], after[i]) ==> after[i].status == Expired))
  }

  lemma AnswerMeans(rows: Rows, q: Request, id: nat, now: int)
    requires UniqueIds(rows)
    ensures var s := Create(rows, q, id, now); s.result.Ok? ==> Answered(rows, q, id, now, s.rows, s.result.value)
  {
    hide ValidRequest;
    var s := Create(rows, q, id, now);
    if s.result.Ok? {
      var swept := ExpireTenant(rows, q.binding.tenant, now);
      NewestMeans(swept, q.binding, false);
      hide Newest;
      if |s.rows| > |rows| { InsertedMeans(rows, q, id, now); }
    }
  }

  /** If the selected newest row is not alive, no other row can be newest and alive. */
  lemma NewestIsExpired(rows: Rows, b: Binding, x: Approval)
    requires UniqueIds(rows) && x in rows && x.binding == b && NewestOf(rows, x)
    requires var n := Newest(rows, b, false); n.Some? ==> n.value.status == Expired
    ensures x.status == Expired
  {
    NewestMeans(rows, b, false);
    assert Selected(x, b, false);
    var i, j :| 0 <= i < |rows| && 0 <= j < |rows| && rows[i] == x && rows[j] == Newest(rows, b, false).value;
    assert x.id == rows[j].id;
    hide Newest;
  }

  lemma InsertedMeans(rows: Rows, q: Request, id: nat, now: int)
    requires UniqueIds(rows)
    requires var s := Create(rows, q, id, now); s.result.Ok? && |s.rows| > |rows|
    ensures var s := Create(rows, q, id, now); Answered(rows, q, id, now, s.rows, s.result.value)
  {
    hide ValidRequest;
    hide Newest;
    var s := Create(rows, q, id, now);
    var swept := ExpireTenant(rows, q.binding.tenant, now);
    assert s.rows[..|rows|] == swept && !Conflicts(swept, id, q.binding);
    assert UniqueIds(swept);
    forall i | 0 <= i < |rows| && swept[i].binding == q.binding && NewestOf(swept, swept[i]) ensures swept[i].status == Expired {
      NewestIsExpired(swept, q.binding, swept[i]);
    }
    hide NewestOf;
  }

  lemma DecisionMeans(rows: Rows, tenant: nat, id: nat, approve: bool, actor: Text, reason: Option<Text>, now: int)
    requires UniqueIds(rows)
    ensures var s := Decide(rows, tenant, id, approve, actor, reason, now);
      |s.rows| == |rows| && (s.result.Err? ==> s.rows == rows)
      && (s.result.Ok? ==> forall i :: 0 <= i < |rows| ==> DecidedTo(rows[i], tenant, id, approve, actor, reason, now, s.rows[i]))
  {
    FindUnique(rows, tenant, id);
    hide ValidDecision;
    hide UniqueIds;
    hide Find;
  }

  lemma ConsumptionMeans(rows: Rows, c: Claim, now: int)
    requires UniqueIds(rows)
    ensures var s := Consume(rows, c, now);
      |s.rows| == |rows| && (s.result.Err? ==> s.rows == rows)
      && (s.result.Ok? ==> forall i :: 0 <= i < |rows| ==> ConsumedTo(rows[i], c, now, s.rows[i]))
      && (s.result.Ok? && s.result.value.Some? <==> CanonicalToken(c.token) && exists a :: a in rows && Authorizes(a, c, now))
  {
    FindUnique(rows, c.tenant, c.id);
    hide CanonicalToken;
    hide UniqueIds;
    hide Find;
  }

  class ApprovalStore {
    var rows: Rows

    /** The primary key and the unique index on live bindings. */
    ghost predicate Valid()
      reads this
    {
      UniqueIds(rows) && OneLive(rows)
    }

    constructor ()
      ensures Valid() && rows == []
    {
      rows := [];
    }

    /**
     * `create_or_get_pending`: the answer carries the request's binding and a status that is not expired, and is the
     * newest row of that binding unless it is live; at most one row is added, only with the identifier drawn, and
     * only where the binding has no live row and its newest row, if any, is expired.
     */
    method CreateOrGetPending(q: Request, id: nat, now: int) returns (r: Result<Approval, ApprovalError>)
      requires Valid()
      modifies this
      ensures Valid() && Evolves(old(rows), rows)
      ensures Step(rows, r) == Create(old(rows), q, id, now)
      ensures r.Err? ==> rows == old(rows)
      ensures r == Err(InvalidInput) <==> !Acceptable(q, now)
      ensures r.Ok? ==> r.value in rows && r.value.binding == q.binding && r.value.status != Expired
      ensures |rows| <= |old(rows)| + 1
      ensures |rows| > |old(rows)| ==>
        && r == Ok(rows[|rows| - 1])
        && r.value == Approval(id, q.binding, q.prompt, Pending, q.createdAt, q.expiresAt, None, None, None, None)
      ensures r.Ok? ==> Answered(old(rows), q, id, now, rows, r.value)
    {
      AnswerMeans(rows, q, id, now);
      hide Answered;
      AcceptableMeans(q, now);
      hide ValidRequest;
      hide Acceptable;
      IndexKept(rows, OpCreate(q, id, now));
      ApplyEvolves(rows, OpCreate(q, id, now));
      if !ValidRequest(q) || q.expiresAt <= now { return Err(InvalidInput); }
      var swept := ExpireTenant(rows, q.binding.tenant, now);
      var newest := Newest(swept, q.binding, false);
      if newest.Some? && newest.value.status != Expired {
        rows := swept;
        return Ok(newest.value);
      }
      if !Conflicts(swept, id, q.binding) {
        rows := swept + [Fresh(q, id)];
        return Ok(Fresh(q, id));
      }
      var live := Newest(swept, q.binding, true);
      if live.None? { return Err(Corrupt); }
      rows := swept;
      return Ok(live.value);
    }

    /** `get`: reading does not write expiry back. */
    method Lookup(tenant: nat, id: nat, now: int) returns (r: Option<Approval>)
      ensures r == Get(rows, tenant, id, now)
      ensures r.Some? <==> exists a :: a in rows && a.binding.tenant == tenant && a.id == id
      ensures r.Some? ==> exists a :: a in rows && a.binding.tenant == tenant && a.id == id && ShownAs(a, now, r.value)
    {
      var i := Find(rows, tenant, id);
      if i.None? { return None; }
      assert rows[i.value] in rows;
      return Some(Effective(rows[i.value], now));
    }

    /** `list`: every row of the tenant once, newest first, each with its read-time status. */
    method ListRows(tenant: nat, now: int) returns (listed: Rows)
      ensures listed == List(rows, tenant, now)
      ensures Descending(listed)
      ensures exists stored: Rows :: |stored| == |listed| && multiset(stored) == TenantRows(rows, tenant) && forall i :: 0 <= i < |listed| ==> ShownAs(stored[i], now, listed[i])
    {
      var stored := NewestFirst(rows, tenant);
      ListIsComplete(rows, tenant);
      listed := Normalize(stored, now);
      assert forall i :: 0 <= i < |listed| ==> ShownAs(stored[i], now, listed[i]);
    }

    /** `decide`: only a pending, unexpired row of the tenant can be decided, once. */
    method DecideRow(tenant: nat, id: nat, approve: bool, actor: Text, reason: Option<Text>, now: int) returns (r: Result<Option<Approval>, ApprovalError>)
      requires Valid()
      modifies this
      ensures Valid() && Evolves(old(rows), rows) && |rows| == |old(rows)|
      ensures Step(rows, r) == Decide(old(rows), tenant, id, approve, actor, reason, now)
      ensures r.Err? <==> |actor| == 0 || |actor| > 256 || (reason.Some? && |reason.value| > 1024)
      ensures r.Ok? && r.value.Some? <==>
        0 < |actor| <= 256 && (reason.Some? ==> |reason.value| <= 1024) && exists a :: a in old(rows) && a.binding.tenant == tenant && a.id == id && a.status == Pending && a.expiresAt > now
      ensures r.Ok? && r.value.Some? ==>
        var a := r.value.value;
        a in rows && a.status == (if approve then Approved else Denied) && a.decidedAt == Some(now) && a.actor == Some(actor) && a.reason == reason
      ensures r.Err? ==> rows == old(rows)
      ensures r.Ok? ==> forall i :: 0 <= i < |rows| ==> DecidedTo(old(rows)[i], tenant, id, approve, actor, reason, now, rows[i])
    {
      var op := OpDecide(tenant, id, approve, actor, reason, now);
      IndexKept(rows, op);
      ApplyEvolves(rows, op);
      FindUnique(rows, tenant, id);
      DecisionMeans(rows, tenant, id, approve, actor, reason, now);
      hide DecidedTo;
      hide ValidDecision;
      hide UniqueIds;
      hide OneLive;
      hide Evolves;
      if !ValidDecision(actor, reason) { return Err(InvalidInput); }
      var i := Find(rows, tenant, id);
      if i.None? || rows[i.value].status != Pending { return Ok(None); }
      if rows[i.value].expiresAt <= now {
        rows := rows[i.value := rows[i.value].(status := Expired)];
        return Ok(None);
      }
      assert rows[i.value] in rows;
      var decided := Decided(rows[i.value], approve, actor, reason, now);
      rows := rows[i.value := decided];
      assert rows[i.value] == decided;
      return Ok(Some(decided));
    }

    /** `expire`: counts and expires exactly the lapsed live rows of one tenant. */
    method ExpireRows(tenant: nat, now: int) returns (count: nat)
      requires Valid()
      modifies this
      ensures Valid() && Evolves(old(rows), rows)
      ensures Step(rows, count) == Expire(old(rows), tenant, now)
      // Afterwards the tenant has no lapsed live row, and the count is the number of rows that changed.
      ensures forall a :: a in rows && a.binding.tenant == tenant ==> !((a.status == Pending || a.status == Approved) && a.expiresAt <= now)
      ensures |rows| == |old(rows)| && count == |set i | 0 <= i < |rows| && rows[i] != old(rows)[i]|
      ensures forall i :: 0 <= i < |rows| && rows[i] != old(rows)[i] ==>
        && rows[i] == old(rows)[i].(status := Expired) && rows[i].binding.tenant == tenant && rows[i].expiresAt <= now
        && (old(rows)[i].status == Pending || old(rows)[i].status == Approved)
    {
      IndexKept(rows, OpExpire(tenant, now));
      ApplyEvolves(rows, OpExpire(tenant, now));
      count := Lapsed(rows, tenant, now);
      ghost var before := rows;
      rows := ExpireTenant(rows, tenant, now);
      LapsedRowsChange(before, tenant, now);
    }

    /** `consume_approved`: succeeds exactly on an approved, unexpired row whose bindings all match. */
    method ConsumeApproved(c: Claim, now: int) returns (r: Result<Option<Approval>, ApprovalError>)
      requires Valid()
      modifies this
      ensures Valid() && Evolves(old(rows), rows) && |rows| == |old(rows)|
      ensures Step(rows, r) == Consume(old(rows), c, now)
      ensures r.Ok? && r.value.Some? <==>
        CanonicalToken(c.token) && exists a :: a in old(rows) && Authorizes(a, c, now)
      ensures r.Ok? && r.value.Some? ==>
        var a := r.value.value;
        && a in rows && a.status == Consumed && a.consumedAt == Some(now) && a.id == c.id
        && a.binding == Binding(c.tenant, c.principal, c.token, a.binding.tool, a.binding.action, c.hash, c.policy)
      ensures r.Err? ==> rows == old(rows)
      ensures r.Ok? ==> forall i :: 0 <= i < |rows| ==> ConsumedTo(old(rows)[i], c, now, rows[i])
    {
      hide CanonicalToken;
      IndexKept(rows, OpConsume(c, now));
      ApplyEvolves(rows, OpConsume(c, now));
      FindUnique(rows, c.tenant, c.id);
      ConsumptionMeans(rows, c, now);
      hide ConsumedTo;
      hide Authorizes;
      hide UniqueIds;
      hide OneLive;
      hide Evolves;
      if !CanonicalToken(c.token) { return Err(InvalidInput); }
      var i := Find(rows, c.tenant, c.id);
      if i.None? { return Ok(None); }
      var a := rows[i.value];
      assert a in rows;
      if !(a.status == Approved && a.expiresAt > now && Matches(a, c)) {
        if a.status == Approved && a.expiresAt <= now {
          rows := rows[i.value := a.(status := Expired)];
        }
        return Ok(None);
      }
      a := a.(status := Consumed, consumedAt := Some(now));
      rows := rows[i.value := a];
      assert rows[i.value] == a;
      return Ok(Some(a));
    }
  }

  /** The rows that `expire` counts are the rows that it changes. */
  lemma LapsedRowsChange(rows: Rows, tenant: nat, now: int)
    ensures var after := ExpireTenant(rows, tenant, now);
      Lapsed(rows, tenant, now) == |set i | 0 <= i < |after| && after[i] != rows[i]|
  {
    var after := ExpireTenant(rows, tenant, now);
    assert (set i | 0 <= i < |rows| && rows[i].binding.tenant == tenant && Live(rows[i].status) && rows[i].expiresAt <= now)
      == set i | 0 <= i < |after| && after[i] != rows[i];
  }

  lemma FindUnique(rows: Rows, tenant: nat, id: nat)
    requires UniqueIds(rows)
    ensures var i := Find(rows, tenant, id);
      && (forall a :: a in rows && a.binding.tenant == tenant && a.id == id ==> i.Some? && a == rows[i.value])
      && (forall j :: 0 <= j < |rows| && SameRow(rows[j], tenant, id) ==> i == Some(j))
  {
  }
}
