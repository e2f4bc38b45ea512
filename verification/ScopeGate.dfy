/**
 * The scope check of the Eidolon gate: a worklist over the arguments that looks for identity fields naming
 * anybody but the caller (crates/henosis-eidolon/src/gate.rs).
 */
module ScopeGate {
  import opened Base
  import opened CanonicalJson
  import opened JsonTrees

  /** The request's own identities, with the identifier parsers as functions. */
  datatype Context = Context(tenant: nat, principal: nat, parseTenant: Text -> Option<nat>, parsePrincipal: Text -> Option<nat>)

  datatype Identity = TenantKey | PrincipalKey

  function Lower(x: byte): byte {
    if 0x41 <= x <= 0x5A then x + 0x20 else x
  }

  /** Separators dropped, ASCII letters lowered. */
  function CanonicalKey(key: Text): Text {
    if key == [] then []
    else if key[0] == 0x5F || key[0] == 0x2D then CanonicalKey(key[1..])
    else [Lower(key[0])] + CanonicalKey(key[1..])
  }

  /** `scope_identity_key` */
  function IdentityKey(key: Text): Option<Identity> {
    var c := CanonicalKey(key);
    if c == Ascii("tenant") || c == Ascii("tenantid") then Some(TenantKey)
    else if c == Ascii("principal") || c == Ascii("principalid") then Some(PrincipalKey)
    else None
  }

  lemma {:induction false} CanonicalConcat(a: Text, b: Text)
    ensures CanonicalKey(a + b) == CanonicalKey(a) + CanonicalKey(b)
  {
    if a == [] {
      assert a + b == b;
    } else {
      assert (a + b)[1..] == a[1..] + b;
      CanonicalConcat(a[1..], b);
    }
  }

  /** Separators anywhere and letter case do not change what a key addresses. */
  lemma SpellingIsIrrelevant(a: Text, x: byte, b: Text)
    ensures x == 0x5F || x == 0x2D ==> IdentityKey(a + [x] + b) == IdentityKey(a + b)
    ensures IdentityKey(a + [Lower(x)] + b) == IdentityKey(a + [x] + b)
  {
    CanonicalConcat(a, b);
    CanonicalConcat(a + [x], b);
    CanonicalConcat(a, [x]);
    CanonicalConcat(a + [Lower(x)], b);
    CanonicalConcat(a, [Lower(x)]);
    assert CanonicalKey([]) == [] && [x][1..] == [] && [Lower(x)][1..] == [];
    if x == 0x5F || x == 0x2D {
      assert CanonicalKey(a) + [] == CanonicalKey(a);
    }
  }

  /** The key spells the word, up to separators anywhere and the case of letters. */
  ghost predicate Spells(key: Text, word: Text)
    decreases |key|
  {
    if key == [] then word == []
    else if key[0] == 0x5F || key[0] == 0x2D then Spells(key[1..], word)
    else word != [] && (key[0] == word[0] || key[0] as int + 0x20 == word[0] as int) && Spells(key[1..], word[1..])
  }

  lemma {:induction false} SpellsMeans(key: Text, word: Text)
    requires forall i :: 0 <= i < |word| ==> 0x61 <= word[i] <= 0x7A
    ensures Spells(key, word) <==> CanonicalKey(key) == word
    decreases |key|
  {
    if key != [] {
      if key[0] == 0x5F || key[0] == 0x2D {
        SpellsMeans(key[1..], word);
      } else if word != [] {
        SpellsMeans(key[1..], word[1..]);
        assert word == [word[0]] + word[1..];
        var c := CanonicalKey(key);
        assert c[1..] == CanonicalKey(key[1..]) && c[0] == Lower(key[0]);
      }
    }
  }

  /** Exactly the spellings of "tenant", "tenant id", "principal" and "principal id" address an identity. */
  lemma IdentityKeysExactly(key: Text)
    ensures IdentityKey(key) == Some(TenantKey) <==>
      Spells(key, [0x74, 0x65, 0x6E, 0x61, 0x6E, 0x74]) || Spells(key, [0x74, 0x65, 0x6E, 0x61, 0x6E, 0x74, 0x69, 0x64])
    ensures IdentityKey(key) == Some(PrincipalKey) <==>
      || Spells(key, [0x70, 0x72, 0x69, 0x6E, 0x63, 0x69, 0x70, 0x61, 0x6C])
      || Spells(key, [0x70, 0x72, 0x69, 0x6E, 0x63, 0x69, 0x70, 0x61, 0x6C, 0x69, 0x64])
  {
    var t, ti: Text := [0x74, 0x65, 0x6E, 0x61, 0x6E, 0x74], [0x74, 0x65, 0x6E, 0x61, 0x6E, 0x74, 0x69, 0x64];
    var p: Text, pi: Text := [0x70, 0x72, 0x69, 0x6E, 0x63, 0x69, 0x70, 0x61, 0x6C], [0x70, 0x72, 0x69, 0x6E, 0x63, 0x69, 0x70, 0x61, 0x6C, 0x69, 0x64];
    IdentityWords();
    SpellsMeans(key, t);
    SpellsMeans(key, ti);
    SpellsMeans(key, p);
    SpellsMeans(key, pi);
    hide CanonicalKey;
    hide Spells;
  }

  lemma IdentityWords()
    ensures Ascii("tenant") == [0x74, 0x65, 0x6E, 0x61, 0x6E, 0x74] && Ascii("tenantid") == [0x74, 0x65, 0x6E, 0x61, 0x6E, 0x74, 0x69, 0x64]
    ensures Ascii("principal") == [0x70, 0x72, 0x69, 0x6E, 0x63, 0x69, 0x70, 0x61, 0x6C]
    ensures Ascii("principalid") == [0x70, 0x72, 0x69, 0x6E, 0x63, 0x69, 0x70, 0x61, 0x6C, 0x69, 0x64]
  {
  }

  /** `scalar_scope_violation`: whether a value names somebody else, nobody valid, or no one at all. */
  predicate Foreign(v: Json, own: nat, parse: Text -> Option<nat>) {
    match v
    case Null => false
    case Object(_) => false
    case Array(_) => false
    case String(s) => parse(s) != Some(own)
    case _ => true
  }

  predicate Violates(ctx: Context, e: Entry) {
    match IdentityKey(e.key)
    case Some(TenantKey) => Foreign(e.value, ctx.tenant, ctx.parseTenant)
    case Some(PrincipalKey) => Foreign(e.value, ctx.principal, ctx.parsePrincipal)
    case None => false
  }

  /**
   * The rule for one field: null, objects and arrays never violate by themselves, a text must parse to the caller's own
   * identifier, any other scalar violates; fields under other keys never do.
   */
  lemma ViolationRule(ctx: Context, key: Text, v: Json)
    ensures Violates(ctx, Entry(key, v)) <==>
      && IdentityKey(key).Some? && v != Null && !v.Object? && !v.Array?
      && !(v.String? && IdentityKey(key) == Some(TenantKey) && ctx.parseTenant(v.text) == Some(ctx.tenant))
      && !(v.String? && IdentityKey(key) == Some(PrincipalKey) && ctx.parsePrincipal(v.text) == Some(ctx.principal))
  {
    hide IdentityKey;
  }

  /** Every violating field still to be found lies in the worklist, and the worklist lies in the arguments. */
  ghost predicate Searching(ctx: Context, args: Json, stack: seq<Json>) {
    && (forall e :: Nested(args, e) && Violates(ctx, e) ==> NestedIn(stack, e))
    && (forall e :: NestedIn(stack, e) ==> Nested(args, e))
  }

  lemma NestedConcat(a: seq<Json>, b: seq<Json>, e: Entry)
    ensures NestedIn(a + b, e) <==> NestedIn(a, e) || NestedIn(b, e)
  {
    if NestedIn(a, e) {
      var x :| x in a && Nested(x, e);
      assert x in a + b;
    }
    if NestedIn(b, e) {
      var x :| x in b && Nested(x, e);
      assert x in a + b;
    }
  }

  lemma NestedSingle(v: Json, e: Entry)
    ensures NestedIn([v], e) <==> Nested(v, e)
  {
    if Nested(v, e) { assert v in [v]; }
  }

  /** A worklist step that keeps exactly the violations of the node it removed. */
  lemma SearchStep(ctx: Context, args: Json, rest: seq<Json>, node: Json, pushed: seq<Json>)
    requires Searching(ctx, args, rest + [node])
    requires forall e :: NestedIn(pushed, e) ==> Nested(node, e)
    requires forall e :: Nested(node, e) && Violates(ctx, e) ==> NestedIn(pushed, e)
    ensures Searching(ctx, args, rest + pushed)
  {
    hide Violates;
    hide NestedIn;
    hide Nested;
    forall e ensures NestedIn(rest + pushed, e) <==> NestedIn(rest, e) || NestedIn(pushed, e) {
      NestedConcat(rest, pushed, e);
    }
    forall e ensures NestedIn(rest + [node], e) <==> NestedIn(rest, e) || Nested(node, e) {
      NestedConcat(rest, [node], e);
      NestedSingle(node, e);
    }
  }

  function Values(es: seq<Entry>): (vs: seq<Json>)
    ensures |vs| == |es| && forall i :: 0 <= i < |es| ==> vs[i] == es[i].value
  {
    seq(|es|, i requires 0 <= i < |es| => es[i].value)
  }

  lemma {:induction false} ValuesWeight(es: seq<Entry>)
    ensures WeightAll(Values(es)) == WeightEntries(es)
    decreases |es|
  {
    if es != [] {
      ValuesWeight(es[..|es| - 1]);
      assert Values(es)[..|es| - 1] == Values(es[..|es| - 1]);
    }
  }

  lemma ObjectNested(ctx: Context, es: seq<Entry>)
    requires forall x :: x in es ==> !Violates(ctx, x)
    ensures forall e :: NestedIn(Values(es), e) ==> Nested(Object(es), e)
    ensures forall e :: Nested(Object(es), e) && Violates(ctx, e) ==> NestedIn(Values(es), e)
  {
    hide Violates;
    forall e | NestedIn(Values(es), e) ensures Nested(Object(es), e) {
      var i :| 0 <= i < |es| && Nested(Values(es)[i], e);
      assert es[i] in es;
    }
    forall e | Nested(Object(es), e) && Violates(ctx, e) ensures NestedIn(Values(es), e) {
      var x :| x in es && (x == e || Nested(x.value, e));
      var i :| 0 <= i < |es| && es[i] == x;
      assert Values(es)[i] in Values(es);
    }
  }

  /**
   * `scope_violation`: finds nothing exactly when no nested identity field names a foreign or invalid
   * identifier; otherwise it returns such a field.
   */
  method ScopeViolation(ctx: Context, args: Json) returns (r: Option<Entry>)
    ensures r.None? <==> forall e :: Nested(args, e) ==> !Violates(ctx, e)
    ensures r.Some? ==> Nested(args, r.value) && Violates(ctx, r.value)
  {
    hide Violates;
    var stack := [args];
    SearchStarts(ctx, args);
    assert WeightAll([args][..0]) == 0;
    while stack != []
      invariant Searching(ctx, args, stack)
      decreases WeightAll(stack)
    {
      hide Searching;
      hide Nested;
      hide Weight;
      var rest, node := stack[..|stack| - 1], stack[|stack| - 1];
      assert stack == rest + [node];
      WeightStep(rest, node);
      var pushed := [];
      match node {
        case Object(es) =>
          var found := FirstViolation(ctx, es);
          if found.Some? {
            FoundNested(ctx, args, rest, es, found.value);
            return found;
          }
          pushed := Values(es);
          ObjectNested(ctx, es);
          ObjectWeight(es);
        case Array(items) =>
          pushed := items;
          ArrayNested(items);
        case _ =>
          LeafNested(node);
      }
      SearchStep(ctx, args, rest, node, pushed);
      WeightConcat(rest, pushed);
      stack := rest + pushed;
    }
    SearchEnds(ctx, args);
    return None;
  }

  lemma SearchStarts(ctx: Context, args: Json)
    ensures Searching(ctx, args, [args])
  {
    forall e ensures NestedIn([args], e) <==> Nested(args, e) {
      NestedSingle(args, e);
    }
  }

  lemma SearchEnds(ctx: Context, args: Json)
    requires Searching(ctx, args, [])
    ensures forall e :: Nested(args, e) ==> !Violates(ctx, e)
  {
  }

  lemma ObjectWeight(es: seq<Entry>)
    ensures WeightAll(Values(es)) < Weight(Object(es))
  {
    ValuesWeight(es);
  }

  lemma ArrayNested(items: seq<Json>)
    ensures forall e :: NestedIn(items, e) <==> Nested(Array(items), e)
    ensures WeightAll(items) < Weight(Array(items))
  {
  }

  lemma LeafNested(v: Json)
    requires !v.Object? && !v.Array?
    ensures forall e :: !Nested(v, e)
    ensures WeightAll([]) == 0 && Weight(v) > 0
  {
  }

  lemma FoundNested(ctx: Context, args: Json, rest: seq<Json>, es: seq<Entry>, e: Entry)
    requires Searching(ctx, args, rest + [Object(es)]) && e in es
    ensures Nested(args, e)
  {
    assert Nested(Object(es), e);
    assert Object(es) in rest + [Object(es)];
    assert NestedIn(rest + [Object(es)], e);
  }

  /** The scan of one object: the first violating entry, if any. */
  method FirstViolation(ctx: Context, es: seq<Entry>) returns (r: Option<Entry>)
    ensures r.Some? ==> r.value in es && Violates(ctx, r.value)
    ensures r.None? ==> forall x :: x in es ==> !Violates(ctx, x)
  {
    for i := 0 to |es|
      invariant forall k :: 0 <= k < i ==> !Violates(ctx, es[k])
    {
      if Violates(ctx, es[i]) { return Some(es[i]); }
    }
    return None;
  }
}
