/** Object schemas whose subschemas can stand for each other have the same outcomes. */
module SchemaAlike {
  import opened Json
  import opened SchemaUnions
  import opened SchemaMeaning

  // ---- subschemas that can stand for each other

  /** `c2` under `ev2` has the outcomes of `c` under `ev`. */
  ghost predicate Same(ev: Evaluator, c: Value, ev2: Evaluator, c2: Value) {
    forall i :: ev(c, i) == ev2(c2, i)
  }

  ghost predicate SameElements(ev: Evaluator, es: seq<Value>, ev2: Evaluator, es2: seq<Value>) {
    |es| == |es2| && forall j | 0 <= j < |es| :: Same(ev, es[j], ev2, es2[j])
  }

  ghost predicate SameMembers(ev: Evaluator, d: map<string, Value>, ev2: Evaluator, d2: map<string, Value>) {
    && d.Keys == d2.Keys
    && (forall n | n in d :: Same(ev, d[n], ev2, d2[n]))
    && (forall n | n in d :: d[n].Array? || d2[n].Array? ==> d[n] == d2[n])
  }

  /** `v2` can stand for `v` under a keyword of position `p`. */
  ghost predicate SameAt(p: Position, ev: Evaluator, v: Value, ev2: Evaluator, v2: Value) {
    match p
    case Data => v == v2
    case Single => Same(ev, v, ev2, v2)
    case ListOf => if v.Array? then v2.Array? && SameElements(ev, v.elems, ev2, v2.elems) else v == v2
    case DictOf => if v.Object? then v2.Object? && SameMembers(ev, v.fields, ev2, v2.fields) else v == v2
    case ItemsOf =>
      if v.Array? then v2.Array? && SameElements(ev, v.elems, ev2, v2.elems)
      else !v2.Array? && Same(ev, v, ev2, v2)
  }

  /** Keywords compared separately, or never read when evaluating. */
  predicate Exempt(k: string) { k == "type" || k == "anyOf" || k == "allOf" || k == "$defs" }

  /** Two objects that agree on every keyword that is not exempt. */
  ghost predicate Alike(m: map<string, Value>, ev: Evaluator, m2: map<string, Value>, ev2: Evaluator) {
    && (forall k | !Exempt(k) :: k in m <==> k in m2)
    && (forall k | !Exempt(k) && k in m :: SameAt(PositionOf(k), ev, m[k], ev2, m2[k]))
  }

  ghost predicate SameEngines(env: Env, env2: Env) {
    env.pattern == env2.pattern && env.assertion == env2.assertion
  }

  lemma Positions()
    ensures PositionOf("oneOf") == PositionOf("prefixItems") == ListOf
    ensures PositionOf("properties") == PositionOf("patternProperties") == DictOf
    ensures PositionOf("dependentSchemas") == PositionOf("dependencies") == DictOf
    ensures PositionOf("items") == ItemsOf
    ensures PositionOf("not") == PositionOf("if") == PositionOf("then") == PositionOf("else") == Single
    ensures PositionOf("contains") == PositionOf("propertyNames") == Single
    ensures PositionOf("additionalProperties") == PositionOf("unevaluatedProperties") == Single
    ensures PositionOf("additionalItems") == PositionOf("unevaluatedItems") == Single
    ensures PositionOf("minContains") == PositionOf("maxContains") == PositionOf("$ref") == Data
  {}

  lemma SingleSame(m: map<string, Value>, ev: Evaluator, m2: map<string, Value>, ev2: Evaluator, k: string)
    requires Alike(m, ev, m2, ev2) && !Exempt(k) && PositionOf(k) == Single
    ensures (k in m) == (k in m2)
    ensures k in m ==> Same(ev, m[k], ev2, m2[k])
  {}

  lemma ListSame(m: map<string, Value>, ev: Evaluator, m2: map<string, Value>, ev2: Evaluator, k: string)
    requires Alike(m, ev, m2, ev2) && !Exempt(k)
    requires PositionOf(k) == ListOf || PositionOf(k) == ItemsOf
    ensures (k in m) == (k in m2)
    ensures SameElements(ev, List(m, k), ev2, List(m2, k))
  {}

  lemma DictSame(m: map<string, Value>, ev: Evaluator, m2: map<string, Value>, ev2: Evaluator, k: string)
    requires Alike(m, ev, m2, ev2) && !Exempt(k) && PositionOf(k) == DictOf
    ensures SameMembers(ev, Dict(m, k), ev2, Dict(m2, k))
  {}

  lemma ListOutsSame(es: seq<Value>, ev: Evaluator, es2: seq<Value>, ev2: Evaluator, i: Value)
    requires SameElements(ev, es, ev2, es2)
    ensures ListOuts(es, ev, i) == ListOuts(es2, ev2, i)
  {
    forall j | 0 <= j < |es| ensures ListOuts(es, ev, i)[j] == ListOuts(es2, ev2, i)[j] {
      assert Same(ev, es[j], ev2, es2[j]);
    }
  }

  // ---- each group of keywords, on objects that are alike

  lemma AssertionsSame(env: Env, m: map<string, Value>, ev: Evaluator,
                       env2: Env, m2: map<string, Value>, ev2: Evaluator, i: Value)
    requires SameEngines(env, env2) && Alike(m, ev, m2, ev2)
    ensures AssertionsOk(env, m, i) == AssertionsOk(env2, m2, i)
  {
    TypePosition();
    forall k | (k in m || k in m2) && PositionOf(k) == Data && k != "type"
      ensures k in m && k in m2 && m2[k] == m[k]
    {
      assert !Exempt(k);
      assert SameAt(PositionOf(k), ev, m[k], ev2, m2[k]);
    }
  }

  lemma ConditionsSame(m: map<string, Value>, ev: Evaluator, m2: map<string, Value>, ev2: Evaluator, i: Value)
    requires Alike(m, ev, m2, ev2)
    ensures ConditionOuts(m, ev, i) == ConditionOuts(m2, ev2, i)
  {
    Positions();
    SingleSame(m, ev, m2, ev2, "if");
    SingleSame(m, ev, m2, ev2, "then");
    SingleSame(m, ev, m2, ev2, "else");
  }

  lemma DependentsSame(d: map<string, Value>, ev: Evaluator, d2: map<string, Value>, ev2: Evaluator, i: Value)
    requires SameMembers(ev, d, ev2, d2)
    ensures DependentOuts(d, ev, i) == DependentOuts(d2, ev2, i)
    ensures DependentArraysOk(d, i) == DependentArraysOk(d2, i)
  {
    forall n | n in d ensures ev(d[n], i) == ev2(d2[n], i) && d[n].Array? == d2[n].Array? {
      assert Same(ev, d[n], ev2, d2[n]);
    }
    assert forall n | n in d && d[n].Array? :: d[n] == d2[n];
  }

  lemma KeywordDependentsSame(m: map<string, Value>, ev: Evaluator, m2: map<string, Value>, ev2: Evaluator,
                              k: string, i: Value)
    requires Alike(m, ev, m2, ev2) && !Exempt(k) && PositionOf(k) == DictOf
    ensures DependentOuts(Dict(m, k), ev, i) == DependentOuts(Dict(m2, k), ev2, i)
    ensures DependentArraysOk(Dict(m, k), i) == DependentArraysOk(Dict(m2, k), i)
  {
    DictSame(m, ev, m2, ev2, k);
    DependentsSame(Dict(m, k), ev, Dict(m2, k), ev2, i);
  }

  lemma ExactlyOneSame(m: map<string, Value>, ev: Evaluator, m2: map<string, Value>, ev2: Evaluator, i: Value)
    requires Alike(m, ev, m2, ev2)
    ensures ListOuts(List(m, "oneOf"), ev, i) == ListOuts(List(m2, "oneOf"), ev2, i)
    ensures ("oneOf" in m) == ("oneOf" in m2)
    ensures ("not" in m) == ("not" in m2) && ("not" in m ==> ev(m["not"], i) == ev2(m2["not"], i))
  {
    Positions();
    ListSame(m, ev, m2, ev2, "oneOf");
    ListOutsSame(List(m, "oneOf"), ev, List(m2, "oneOf"), ev2, i);
    SingleSame(m, ev, m2, ev2, "not");
  }

  lemma OthersSame(env: Env, m: map<string, Value>, ev: Evaluator, target: Evaluator,
                   env2: Env, m2: map<string, Value>, ev2: Evaluator, target2: Evaluator, i: Value)
    requires Alike(m, ev, m2, ev2)
    requires RefOuts(env, m, target, i) == RefOuts(env2, m2, target2, i)
    ensures OtherOuts(env, m, ev, target, i) == OtherOuts(env2, m2, ev2, target2, i)
    ensures OthersOk(env, m, ev, target, i) == OthersOk(env2, m2, ev2, target2, i)
  {
    Positions();
    ConditionsSame(m, ev, m2, ev2, i);
    KeywordDependentsSame(m, ev, m2, ev2, "dependentSchemas", i);
    KeywordDependentsSame(m, ev, m2, ev2, "dependencies", i);
    ExactlyOneSame(m, ev, m2, ev2, i);
  }

  lemma PropertiesSame(env: Env, m: map<string, Value>, ev: Evaluator,
                       env2: Env, m2: map<string, Value>, ev2: Evaluator, i: Value)
    requires SameEngines(env, env2) && Alike(m, ev, m2, ev2)
    ensures OwnProps(env, m, i) == OwnProps(env2, m2, i)
    ensures PropertiesOk(env, m, ev, i) == PropertiesOk(env2, m2, ev2, i)
  {
    Positions();
    DictSame(m, ev, m2, ev2, "properties");
    DictSame(m, ev, m2, ev2, "patternProperties");
    SingleSame(m, ev, m2, ev2, "additionalProperties");
    SingleSame(m, ev, m2, ev2, "propertyNames");
    assert forall key :: Matched(env, m, key) == Matched(env2, m2, key);
    forall key, value ensures PropertyOk(env, m, ev, key, value) == PropertyOk(env2, m2, ev2, key, value) {}
  }

  lemma ContainsSame(m: map<string, Value>, ev: Evaluator, m2: map<string, Value>, ev2: Evaluator, i: Value)
    requires Alike(m, ev, m2, ev2)
    ensures ContainsHits(m, ev, i) == ContainsHits(m2, ev2, i)
    ensures forall hits :: CountOk(m, hits) == CountOk(m2, hits)
  {
    Positions();
    SingleSame(m, ev, m2, ev2, "contains");
    CountsSame(m, ev, m2, ev2);
  }

  lemma CountsSame(m: map<string, Value>, ev: Evaluator, m2: map<string, Value>, ev2: Evaluator)
    requires Alike(m, ev, m2, ev2)
    ensures forall hits :: CountOk(m, hits) == CountOk(m2, hits)
  {
    Positions();
    assert "minContains" in m ==> SameAt(PositionOf("minContains"), ev, m["minContains"], ev2, m2["minContains"]);
    assert "maxContains" in m ==> SameAt(PositionOf("maxContains"), ev, m["maxContains"], ev2, m2["maxContains"]);
  }

  lemma ItemShapesSame(m: map<string, Value>, ev: Evaluator, m2: map<string, Value>, ev2: Evaluator)
    requires Alike(m, ev, m2, ev2)
    ensures SameElements(ev, List(m, "prefixItems"), ev2, List(m2, "prefixItems"))
    ensures SameElements(ev, List(m, "items"), ev2, List(m2, "items"))
    ensures ("items" in m) == ("items" in m2)
    ensures "items" in m ==> m["items"].Array? == m2["items"].Array?
    ensures "items" in m && !m["items"].Array? ==> Same(ev, m["items"], ev2, m2["items"])
    ensures ("additionalItems" in m) == ("additionalItems" in m2)
    ensures "additionalItems" in m ==> Same(ev, m["additionalItems"], ev2, m2["additionalItems"])
    ensures PrefixLength(m) == PrefixLength(m2) && RestCovered(m) == RestCovered(m2)
  {
    Positions();
    ListSame(m, ev, m2, ev2, "prefixItems");
    ListSame(m, ev, m2, ev2, "items");
    SingleSame(m, ev, m2, ev2, "additionalItems");
    assert "items" in m ==> SameAt(PositionOf("items"), ev, m["items"], ev2, m2["items"]);
  }

  lemma ItemSame(m: map<string, Value>, ev: Evaluator, m2: map<string, Value>, ev2: Evaluator, n: nat, value: Value)
    requires Alike(m, ev, m2, ev2)
    ensures ItemOk(m, ev, n, value) == ItemOk(m2, ev2, n, value)
  {
    ItemShapesSame(m, ev, m2, ev2);
    assert n < |List(m, "prefixItems")| ==> Same(ev, List(m, "prefixItems")[n], ev2, List(m2, "prefixItems")[n]);
    assert n < |List(m, "items")| ==> Same(ev, List(m, "items")[n], ev2, List(m2, "items")[n]);
  }

  lemma ItemsSame(m: map<string, Value>, ev: Evaluator, m2: map<string, Value>, ev2: Evaluator, i: Value)
    requires Alike(m, ev, m2, ev2)
    ensures OwnItems(m, ev, i) == OwnItems(m2, ev2, i)
    ensures ItemsOk(m, ev, i) == ItemsOk(m2, ev2, i)
  {
    ContainsSame(m, ev, m2, ev2, i);
    ItemShapesSame(m, ev, m2, ev2);
    forall n | n in Indices(i) ensures ItemOk(m, ev, n, Elements(i)[n]) == ItemOk(m2, ev2, n, Elements(i)[n]) {
      ItemSame(m, ev, m2, ev2, n, Elements(i)[n]);
    }
    Positions();
    SingleSame(m, ev, m2, ev2, "contains");
  }

  lemma UnevaluatedSame(m: map<string, Value>, ev: Evaluator, m2: map<string, Value>, ev2: Evaluator,
                        props: set<string>, items: set<nat>, i: Value)
    requires Alike(m, ev, m2, ev2)
    ensures UnevaluatedOk(m, ev, props, items, i) == UnevaluatedOk(m2, ev2, props, items, i)
    ensures "unevaluatedProperties" in m <==> "unevaluatedProperties" in m2
    ensures "unevaluatedItems" in m <==> "unevaluatedItems" in m2
  {
    Positions();
    SingleSame(m, ev, m2, ev2, "unevaluatedProperties");
    SingleSame(m, ev, m2, ev2, "unevaluatedItems");
  }

  lemma SeenOfUnion(a: set<Outcome>, b: set<Outcome>)
    ensures SeenProps(a + b) == SeenProps(a) + SeenProps(b)
    ensures SeenItems(a + b) == SeenItems(a) + SeenItems(b)
  {}

  /** `type`, `allOf` and `anyOf` together contribute the same to an evaluation. */
  ghost predicate SameCore(m: map<string, Value>, ev: Evaluator, m2: map<string, Value>, ev2: Evaluator, i: Value) {
    && (TypeOk(m, i) && AllAnyOk(m, ev, i) <==> TypeOk(m2, i) && AllAnyOk(m2, ev2, i))
    && SeenProps(AllAnyOuts(m, ev, i)) == SeenProps(AllAnyOuts(m2, ev2, i))
    && SeenItems(AllAnyOuts(m, ev, i)) == SeenItems(AllAnyOuts(m2, ev2, i))
  }

  /** Alike objects with the same references and the same core have the same outcome. */
  lemma CombineSame(env: Env, m: map<string, Value>, ev: Evaluator, target: Evaluator,
                    env2: Env, m2: map<string, Value>, ev2: Evaluator, target2: Evaluator, i: Value)
    requires SameEngines(env, env2) && Alike(m, ev, m2, ev2)
    requires RefOuts(env, m, target, i) == RefOuts(env2, m2, target2, i)
    requires SameCore(m, ev, m2, ev2, i)
    ensures Combine(env, m, ev, target, i) == Combine(env2, m2, ev2, target2, i)
  {
    var outs := AllAnyOuts(m, ev, i) + OtherOuts(env, m, ev, target, i);
    var outs2 := AllAnyOuts(m2, ev2, i) + OtherOuts(env2, m2, ev2, target2, i);
    var props := SeenProps(outs) + OwnProps(env, m, i);
    var items := SeenItems(outs) + OwnItems(m, ev, i);
    assert props == SeenProps(outs2) + OwnProps(env2, m2, i) && items == SeenItems(outs2) + OwnItems(m2, ev2, i) by {
      OthersSame(env, m, ev, target, env2, m2, ev2, target2, i);
      PropertiesSame(env, m, ev, env2, m2, ev2, i);
      ItemsSame(m, ev, m2, ev2, i);
      SeenOfUnion(AllAnyOuts(m, ev, i), OtherOuts(env, m, ev, target, i));
      SeenOfUnion(AllAnyOuts(m2, ev2, i), OtherOuts(env2, m2, ev2, target2, i));
    }
    AssertionsSame(env, m, ev, env2, m2, ev2, i);
    OthersSame(env, m, ev, target, env2, m2, ev2, target2, i);
    PropertiesSame(env, m, ev, env2, m2, ev2, i);
    ItemsSame(m, ev, m2, ev2, i);
    UnevaluatedSame(m, ev, m2, ev2, props, items, i);
  }

  /** Two objects that agree on every keyword. */
  ghost predicate AlikeThroughout(m: map<string, Value>, ev: Evaluator, m2: map<string, Value>, ev2: Evaluator) {
    m.Keys == m2.Keys && forall k | k in m :: SameAt(PositionOf(k), ev, m[k], ev2, m2[k])
  }

  lemma ThroughoutCore(m: map<string, Value>, ev: Evaluator, m2: map<string, Value>, ev2: Evaluator, i: Value)
    requires AlikeThroughout(m, ev, m2, ev2)
    ensures SameCore(m, ev, m2, ev2, i)
  {
    TypePosition();
    assert "type" in m ==> SameAt(PositionOf("type"), ev, m["type"], ev2, m2["type"]);
    assert "allOf" in m ==> SameAt(PositionOf("allOf"), ev, m["allOf"], ev2, m2["allOf"]);
    assert "anyOf" in m ==> SameAt(PositionOf("anyOf"), ev, m["anyOf"], ev2, m2["anyOf"]);
    ListOutsSame(List(m, "allOf"), ev, List(m2, "allOf"), ev2, i);
    ListOutsSame(List(m, "anyOf"), ev, List(m2, "anyOf"), ev2, i);
  }

  lemma ThroughoutCombineSame(env: Env, m: map<string, Value>, ev: Evaluator, target: Evaluator,
                              env2: Env, m2: map<string, Value>, ev2: Evaluator, target2: Evaluator, i: Value)
    requires SameEngines(env, env2) && AlikeThroughout(m, ev, m2, ev2)
    requires RefOuts(env, m, target, i) == RefOuts(env2, m2, target2, i)
    ensures Combine(env, m, ev, target, i) == Combine(env2, m2, ev2, target2, i)
  {
    assert Alike(m, ev, m2, ev2);
    ThroughoutCore(m, ev, m2, ev2, i);
    CombineSame(env, m, ev, target, env2, m2, ev2, target2, i);
  }
}
