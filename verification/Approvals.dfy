/**
 * Approval rows and the store's transactions on them (crates/henosis-approval/src/lib.rs). Rows are kept
 * in insertion order; UUIDs are naturals in their textual order; every clock read is an argument.
 */
module Approvals {
  import opened Base

  datatype Status = Pending | Approved | Denied | Expired | Consumed

  /** The seven fields that identify a request. */
  datatype Binding = Binding(tenant: nat, principal: nat, token: Text, tool: Text, action: Text, hash: Text, policy: Text)

  datatype Request = Request(binding: Binding, prompt: Text, createdAt: int, expiresAt: int)

  datatype Approval = Approval(
    id: nat, binding: Binding, prompt: Text, status: Status, createdAt: int, expiresAt: int,
    decidedAt: Option<int>, consumedAt: Option<int>, actor: Option<Text>, reason: Option<Text>)

  datatype ApprovalError = InvalidInput | Corrupt

  type Rows = seq<Approval>

  // ----- input validation ----------------------------------------------------------------------------

  /** A lower-case hyphenated version 4 UUID of 36 bytes. */
  predicate CanonicalToken(t: Text) {
    && |t| == 36 && t[14] == 0x34
    && forall i :: 0 <= i < 36 ==> if i in {8, 13, 18, 23} then t[i] == 0x2D else 0x30 <= t[i] <= 0x39 || 0x61 <= t[i] <= 0x66
  }

  predicate ValidRequest(q: Request) {
    && CanonicalToken(q.binding.token)
    && 0 < |q.binding.tool| <= 128 && 0 < |q.binding.action| <= 128 && 0 < |q.prompt| <= 4096 && 0 < |q.binding.policy| <= 128
    && q.expiresAt > q.createdAt
  }

  predicate ValidDecision(actor: Text, reason: Option<Text>) {
    0 < |actor| <= 256 && (reason.Some? ==> |reason.value| <= 1024)
  }

  // ----- expiry ------------------------------------------------------------------------------------------

  predicate Live(s: Status) {
    s == Pending || s == Approved
  }

  function Effective(a: Approval, now: int): Approval {
    if Live(a.status) && a.expiresAt <= now then a.(status := Expired) else a
  }

  /** The update that `create_or_get_pending` and `expire` run for one tenant. */
  function ExpireTenant(rows: Rows, tenant: nat, now: int): (r: Rows)
    ensures |r| == |rows|
    ensures forall i :: 0 <= i < |r| ==> r[i] == if rows[i].binding.tenant == tenant then Effective(rows[i], now) else rows[i]
  {
    seq(|rows|, i requires 0 <= i < |rows| => if rows[i].binding.tenant == tenant then Effective(rows[i], now) else rows[i])
  }

  /** The rows `expire` counts. */
  function Lapsed(rows: Rows, tenant: nat, now: int): nat {
    |set i | 0 <= i < |rows| && rows[i].binding.tenant == tenant && Live(rows[i].status) && rows[i].expiresAt <= now|
  }

  // ----- lookups -------------------------------------------------------------------------------------------

  /** The order of `ORDER BY created_at DESC, id DESC`, read from its end. */
  predicate Older(a: Approval, b: Approval) {
    a.createdAt < b.createdAt || (a.createdAt == b.createdAt && a.id < b.id)
  }

  predicate Selected(a: Approval, b: Binding, liveOnly: bool) {
    a.binding == b && (liveOnly ==> Live(a.status))
  }

  /** The newest row of a binding, optionally among its pending and approved rows only. */
  function Newest(rows: Rows, b: Binding, liveOnly: bool): (r: Option<Approval>)
    ensures r.Some? ==> r.value in rows && Selected(r.value, b, liveOnly)
    ensures r.None? ==> forall a :: a in rows ==> !Selected(a, b, liveOnly)
  {
    if rows == [] then None
    else
      var last := rows[|rows| - 1];
      var before := Newest(rows[..|rows| - 1], b, liveOnly);
      assert rows == rows[..|rows| - 1] + [last];
      if Selected(last, b, liveOnly) && (before.None? || Older(before.value, last)) then Some(last) else before
  }

  /** The position of a row by tenant and identifier. */
  function Find(rows: Rows, tenant: nat, id: nat): (r: Option<nat>)
    ensures r.Some? ==> r.value < |rows| && rows[r.value].binding.tenant == tenant && rows[r.value].id == id
    ensures r.None? ==> forall i :: 0 <= i < |rows| ==> !(rows[i].binding.tenant == tenant && rows[i].id == id)
  {
    if rows == [] then None
    else if rows[|rows| - 1].binding.tenant == tenant && rows[|rows| - 1].id == id then Some(|rows| - 1)
    else
      var r := Find(rows[..|rows| - 1], tenant, id);
      assert r.None? ==> forall i :: 0 <= i < |rows| - 1 ==> rows[i] == rows[..|rows| - 1][i];
      r
  }

  function InsertNewest(sorted: Rows, x: Approval): Rows {
    if sorted == [] || x.createdAt > sorted[0].createdAt then [x] + sorted
    else [sorted[0]] + InsertNewest(sorted[1..], x)
  }

  /** A tenant's rows by `created_at DESC`, earlier insertions first among equals. */
  function NewestFirst(rows: Rows, tenant: nat): Rows {
    if rows == [] then []
    else
      var before := NewestFirst(rows[..|rows| - 1], tenant);
      if rows[|rows| - 1].binding.tenant == tenant then InsertNewest(before, rows[|rows| - 1]) else before
  }

  /** Every row with its read-time status. */
  function Normalize(rows: Rows, now: int): (r: Rows)
    ensures |r| == |rows|
    ensures forall i :: 0 <= i < |r| ==> r[i] == Effective(rows[i], now)
  {
    seq(|rows|, i requires 0 <= i < |rows| => Effective(rows[i], now))
  }

  // ----- transactions ----------------------------------------------------------------------------------------

  datatype Step<T> = Step(rows: Rows, result: T)

  function Fresh(q: Request, id: nat): Approval {
    Approval(id, q.binding, q.prompt, Pending, q.createdAt, q.expiresAt, None, None, None, None)
  }

  /** `ON CONFLICT DO NOTHING`: the primary key and the unique index on live bindings. */
  predicate Conflicts(rows: Rows, id: nat, b: Binding) {
    exists i :: 0 <= i < |rows| && (rows[i].id == id || Selected(rows[i], b, true))
  }

  /** `create_or_get_pending`, with the identifier it draws. */
  function Create(rows: Rows, q: Request, id: nat, now: int): Step<Result<Approval, ApprovalError>> {
    if !ValidRequest(q) || q.expiresAt <= now then Step(rows, Err(InvalidInput))
    else
      var swept := ExpireTenant(rows, q.binding.tenant, now);
      var newest := Newest(swept, q.binding, false);
      if newest.Some? && newest.value.status != Expired then Step(swept, Ok(newest.value))
      else if !Conflicts(swept, id, q.binding) then Step(swept + [Fresh(q, id)], Ok(Fresh(q, id)))
      else
        var live := Newest(swept, q.binding, true);
        if live.Some? then Step(swept, Ok(live.value)) else Step(rows, Err(Corrupt))
  }

  function Get(rows: Rows, tenant: nat, id: nat, now: int): Option<Approval> {
    var i := Find(rows, tenant, id);
    if i.Some? then Some(Effective(rows[i.value], now)) else None
  }

  function List(rows: Rows, tenant: nat, now: int): Rows {
    Normalize(NewestFirst(rows, tenant), now)
  }

  function Decided(a: Approval, approve: bool, actor: Text, reason: Option<Text>, now: int): Approval {
    a.(status := if approve then Approved else Denied, decidedAt := Some(now), actor := Some(actor), reason := reason)
  }

  function Decide(rows: Rows, tenant: nat, id: nat, approve: bool, actor: Text, reason: Option<Text>, now: int)
    : Step<Result<Option<Approval>, ApprovalError>>
  {
    if !ValidDecision(actor, reason) then Step(rows, Err(InvalidInput))
    else
      var i := Find(rows, tenant, id);
      if i.None? || rows[i.value].status != Pending then Step(rows, Ok(None))
      else if rows[i.value].expiresAt <= now then Step(rows[i.value := rows[i.value].(status := Expired)], Ok(None))
      else
        var decided := Decided(rows[i.value], approve, actor, reason, now);
        Step(rows[i.value := decided], Ok(Some(decided)))
  }

  function Expire(rows: Rows, tenant: nat, now: int): Step<nat> {
    Step(ExpireTenant(rows, tenant, now), Lapsed(rows, tenant, now))
  }

  /** The bindings a consumer presents; tool and action are fixed by the row. */
  datatype Claim = Claim(tenant: nat, id: nat, principal: nat, token: Text, hash: Text, policy: Text)

  predicate Matches(a: Approval, c: Claim) {
    a.binding.principal == c.principal && a.binding.token == c.token && a.binding.hash == c.hash && a.binding.policy == c.policy
  }

  function Consume(rows: Rows, c: Claim, now: int): Step<Result<Option<Approval>, ApprovalError>> {
    if !CanonicalToken(c.token) then Step(rows, Err(InvalidInput))
    else
      var i := Find(rows, c.tenant, c.id);
      if i.None? || rows[i.value].status != Approved then Step(rows, Ok(None))
      else if rows[i.value].expiresAt <= now then Step(rows[i.value := rows[i.value].(status := Expired)], Ok(None))
      else if !Matches(rows[i.value], c) then Step(rows, Ok(None))
      else
        var used := rows[i.value].(status := Consumed, consumedAt := Some(now));
        Step(rows[i.value := used], Ok(Some(used)))
  }

  // ----- one operation of any caller ---------------------------------------------------------------------------

  datatype Op =
    | OpCreate(request: Request, newId: nat, now: int)
    | OpGet(tenant: nat, id: nat, now: int)
    | OpList(tenant: nat, now: int)
    | OpDecide(tenant: nat, id: nat, approve: bool, actor: Text, reason: Option<Text>, now: int)
    | OpExpire(tenant: nat, now: int)
    | OpConsume(claim: Claim, now: int)
    | OpTick(now: int)

  datatype Outcome =
    | Returned(result: Result<Option<Approval>, ApprovalError>)
    | Listed(rows: Rows)
    | Done

  function Lift(r: Result<Approval, ApprovalError>): Outcome {
    Returned(if r.Ok? then Ok(Some(r.value)) else Err(r.error))
  }

  function Apply(rows: Rows, op: Op): Step<Outcome> {
    match op
    case OpCreate(q, id, now) => var s := Create(rows, q, id, now); Step(s.rows, Lift(s.result))
    case OpGet(t, id, now) => Step(rows, Returned(Ok(Get(rows, t, id, now))))
    case OpList(t, now) => Step(rows, Listed(List(rows, t, now)))
    case OpDecide(t, id, approve, actor, reason, now) =>
      var s := Decide(rows, t, id, approve, actor, reason, now); Step(s.rows, Returned(s.result))
    case OpExpire(t, now) => Step(Expire(rows, t, now).rows, Done)
    case OpConsume(c, now) => var s := Consume(rows, c, now); Step(s.rows, Returned(s.result))
    case OpTick(_) => Step(rows, Done)
  }

  /** The rows after a run on a fresh store. */
  function Run(ops: seq<Op>): Rows {
    if ops == [] then [] else Apply(Run(ops[..|ops| - 1]), ops[|ops| - 1]).rows
  }

  /** What the last operation of a run answered. */
  function LastAnswer(ops: seq<Op>): Outcome
    requires ops != []
  {
    Apply(Run(ops[..|ops| - 1]), ops[|ops| - 1]).result
  }

  lemma OneMore(ops: seq<Op>, op: Op)
    ensures Run(ops + [op]) == Apply(Run(ops), op).rows && LastAnswer(ops + [op]) == Apply(Run(ops), op).result
  {
    assert (ops + [op])[..|ops + [op]| - 1] == ops;
  }

  ghost predicate Monotone(ops: seq<Op>) {
    forall i, j :: 0 <= i <= j < |ops| ==> ops[i].now <= ops[j].now
  }

  // ----- listing -------------------------------------------------------------------------------------------------

  ghost function TenantRows(rows: Rows, tenant: nat): multiset<Approval> {
    if rows == [] then multiset{}
    else TenantRows(rows[..|rows| - 1], tenant) + (if rows[|rows| - 1].binding.tenant == tenant then multiset{rows[|rows| - 1]} else multiset{})
  }

  ghost predicate Descending(rows: Rows) {
    forall i, j :: 0 <= i < j < |rows| ==> rows[i].createdAt >= rows[j].createdAt
  }

  lemma {:induction false} InsertAddsOne(sorted: Rows, x: Approval)
    ensures multiset(InsertNewest(sorted, x)) == multiset(sorted) + multiset{x}
  {
    if !(sorted == [] || x.createdAt > sorted[0].createdAt) {
      InsertAddsOne(sorted[1..], x);
      assert sorted == [sorted[0]] + sorted[1..];
    }
  }

  lemma {:induction false} InsertKeepsOrder(sorted: Rows, x: Approval)
    requires Descending(sorted)
    ensures Descending(InsertNewest(sorted, x))
    ensures var r := InsertNewest(sorted, x); r != [] && (r[0] == x || (sorted != [] && r[0] == sorted[0]))
  {
    if !(sorted == [] || x.createdAt > sorted[0].createdAt) {
      InsertKeepsOrder(sorted[1..], x);
      PrependKeepsOrder(sorted[0], InsertNewest(sorted[1..], x));
    }
  }

  lemma PrependKeepsOrder(a: Approval, rest: Rows)
    requires Descending(rest) && (rest != [] ==> a.createdAt >= rest[0].createdAt)
    ensures Descending([a] + rest)
  {
  }

  /** `list` returns each row of the tenant exactly once, newest first. */
  lemma {:induction false} ListIsComplete(rows: Rows, tenant: nat)
    ensures multiset(NewestFirst(rows, tenant)) == TenantRows(rows, tenant)
    ensures Descending(NewestFirst(rows, tenant))
  {
    if rows != [] {
      ListIsComplete(rows[..|rows| - 1], tenant);
      InsertAddsOne(NewestFirst(rows[..|rows| - 1], tenant), rows[|rows| - 1]);
      InsertKeepsOrder(NewestFirst(rows[..|rows| - 1], tenant), rows[|rows| - 1]);
    }
  }
}
