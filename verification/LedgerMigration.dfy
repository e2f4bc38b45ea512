/**
 * The one-transaction migration of an execution table without a principal column
 * (`apply_principal_idempotency_schema`, crates/henosis-audit/src/lib.rs).
 */
module LedgerMigration {
  import opened Base
  import opened AuditChain
  import opened AuditLedger

  /** A legacy row joins the intent event it points at when phase, key and request hash agree. */
  predicate Binds(events: seq<Record>, key: Text, e: Execution) {
    && 1 <= e.intentSequence <= |events|
    && var intent := events[e.intentSequence - 1];
       intent.sequence == e.intentSequence && intent.phase == Intent && intent.key == Some(key) && intent.requestHash == e.requestHash
  }

  /** The primary key the joined row is inserted under. */
  function BoundKey(events: seq<Record>, key: Text, e: Execution): RetryKey
    requires Binds(events, key, e)
  {
    RetryKey(events[e.intentSequence - 1].principal, key)
  }

  /** Every legacy row must bind, or the whole migration is refused. */
  function Migrate(events: seq<Record>, legacy: map<Text, Execution>): Result<map<RetryKey, Execution>, AuditError> {
    if forall key :: key in legacy ==> Binds(events, key, legacy[key]) then
      Ok(map key | key in legacy :: BoundKey(events, key, legacy[key]) := legacy[key])
    else Err(InvalidInput)
  }

  /** The migration is refused exactly when some row has no intent event of its key and request hash at its place. */
  lemma RefusedExactly(events: seq<Record>, legacy: map<Text, Execution>)
    ensures Migrate(events, legacy).Err? <==>
      exists key :: key in legacy && var e := legacy[key];
        !(0 < e.intentSequence <= |events| && var r := events[e.intentSequence - 1];
          r.sequence == e.intentSequence && r.phase == Intent && r.key == Some(key) && r.requestHash == e.requestHash)
    ensures Migrate(events, legacy).Err? ==> Migrate(events, legacy) == Err(InvalidInput)
  {
    forall key | key in legacy ensures Binds(events, key, legacy[key]) <==>
      var e := legacy[key]; 0 < e.intentSequence <= |events| && var r := events[e.intentSequence - 1];
      r.sequence == e.intentSequence && r.phase == Intent && r.key == Some(key) && r.requestHash == e.requestHash
    {
    }
    hide Binds;
  }

  /** No two principals used the same key, so the legacy primary key can hold every row. */
  ghost predicate KeysNameOnePrincipal(executions: map<RetryKey, Execution>) {
    forall j, k :: j in executions && k in executions && j.key == k.key ==> j == k
  }

  ghost function DropPrincipal(executions: map<RetryKey, Execution>): map<Text, Execution>
    requires KeysNameOnePrincipal(executions)
  {
    map k | k in executions :: k.key := executions[k]
  }

  lemma DropPrincipalRows(executions: map<RetryKey, Execution>)
    requires KeysNameOnePrincipal(executions)
    ensures var legacy := DropPrincipal(executions);
      && (forall k :: k in executions ==> k.key in legacy && legacy[k.key] == executions[k])
      && (forall key :: key in legacy ==> exists k :: k in executions && k.key == key)
  {
  }

  lemma ExecutionBinds(c: Crypto, t: Text, l: Ledger, k: RetryKey)
    requires LedgerInv(c, t, l) && k in l.executions
    ensures Binds(l.events, k.key, l.executions[k]) && BoundKey(l.events, k.key, l.executions[k]) == k
  {
    hide ChainOk;
    hide KeysUnique;
    assert ExecutionOk(l.events, k, l.executions[k]);
    SequenceIsPosition(c, t, l.events, l.executions[k].intentSequence - 1);
  }

  /** Dropping the principal column of any coherent ledger and migrating restores every row. */
  lemma MigrationRestores(c: Crypto, t: Text, l: Ledger)
    requires LedgerInv(c, t, l) && KeysNameOnePrincipal(l.executions)
    ensures Migrate(l.events, DropPrincipal(l.executions)) == Ok(l.executions)
  {
    hide LedgerInv;
    hide DropPrincipal;
    var legacy := DropPrincipal(l.executions);
    DropPrincipalRows(l.executions);
    forall key | key in legacy ensures Binds(l.events, key, legacy[key]) {
      var k :| k in l.executions && k.key == key;
      ExecutionBinds(c, t, l, k);
    }
    assert Migrate(l.events, legacy).Ok?;
    SameRows(c, t, l, legacy);
  }

  lemma SameRows(c: Crypto, t: Text, l: Ledger, legacy: map<Text, Execution>)
    requires LedgerInv(c, t, l) && Migrate(l.events, legacy).Ok?
    requires forall k :: k in l.executions ==> k.key in legacy && legacy[k.key] == l.executions[k]
    requires forall key :: key in legacy ==> exists k :: k in l.executions && k.key == key
    ensures Migrate(l.events, legacy).value == l.executions
  {
    hide LedgerInv;
    hide Migrate;
    hide Binds;
    MigratedRowsAreBound(l.events, legacy);
    var m := Migrate(l.events, legacy).value;
    forall k | k in m ensures k in l.executions && l.executions[k] == m[k] {
      var j :| j in l.executions && j.key == k.key;
      ExecutionBinds(c, t, l, j);
      assert j == k;
    }
    forall k | k in l.executions ensures k in m {
      var j :| j in m && j.key == k.key;
      ExecutionBinds(c, t, l, k);
      assert j == k;
    }
  }

  /** In particular after every run of store operations. */
  lemma MigrationRestoresReachable(c: Crypto, t: Text, ops: seq<Op>)
    requires KeysNameOnePrincipal(Run(c, t, ops).executions)
    ensures Migrate(Run(c, t, ops).events, DropPrincipal(Run(c, t, ops).executions)) == Ok(Run(c, t, ops).executions)
  {
    hide LedgerInv;
    ReachableLedger(c, t, ops, 0);
    MigrationRestores(c, t, Run(c, t, ops));
  }

  /**
   * Whatever the legacy rows are, a migration that succeeds keeps each of them, once, under the
   * principal of its own intent event, and invents none.
   */
  lemma MigratedRowsAreBound(events: seq<Record>, legacy: map<Text, Execution>)
    requires Migrate(events, legacy).Ok?
    ensures var m := Migrate(events, legacy).value;
      && (forall k :: k in m ==> k.key in legacy && m[k] == legacy[k.key] && Binds(events, k.key, m[k])
                                  && events[m[k].intentSequence - 1].principal == k.principal)
      && (forall key :: key in legacy ==> exists k :: k in m && k.key == key)
  {
    var m := Migrate(events, legacy).value;
    forall key | key in legacy ensures exists k :: k in m && k.key == key {
      assert BoundKey(events, key, legacy[key]) in m;
    }
  }
}
