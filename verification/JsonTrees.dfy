/** JSON values as trees: their weight, the fields nested in them, and places inside them. */
module JsonTrees {
  import opened Base
  import opened CanonicalJson

  // ----- weight ------------------------------------------------------------------------------------------

  function Weight(v: Json): (w: nat)
    ensures w > 0
    decreases v, 1
  {
    match v
    case Array(items) => 1 + WeightAll(items)
    case Object(es) => 1 + WeightEntries(es)
    case _ => 1
  }

  function WeightAll(items: seq<Json>): nat
    decreases items, 0
  {
    if items == [] then 0 else WeightAll(items[..|items| - 1]) + Weight(items[|items| - 1])
  }

  function WeightEntries(es: seq<Entry>): nat
    decreases es, 0
  {
    if es == [] then 0 else WeightEntries(es[..|es| - 1]) + Weight(es[|es| - 1].value)
  }

  lemma {:induction false} WeightConcat(a: seq<Json>, b: seq<Json>)
    ensures WeightAll(a + b) == WeightAll(a) + WeightAll(b)
    decreases |b|
  {
    if b == [] {
      assert a + b == a;
    } else {
      var n := |b| - 1;
      WeightConcat(a, b[..n]);
      assert (a + b)[..|a + b| - 1] == a + b[..n];
    }
  }

  lemma WeightStep(items: seq<Json>, x: Json)
    ensures WeightAll(items + [x]) == WeightAll(items) + Weight(x)
  {
    WeightConcat(items, [x]);
    assert [x][..0] == [];
  }

  // ----- nesting -----------------------------------------------------------------------------------------

  /** The field `e` occurs somewhere inside `v`. */
  ghost predicate Nested(v: Json, e: Entry)
    decreases v
  {
    match v
    case Array(items) => exists x :: x in items && Nested(x, e)
    case Object(es) => exists x :: x in es && (x == e || Nested(x.value, e))
    case _ => false
  }

  ghost predicate NestedIn(vs: seq<Json>, e: Entry) {
    exists x :: x in vs && Nested(x, e)
  }
}
