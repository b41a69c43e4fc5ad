/** What the keywords mean, as JSON Schema Core 2020-12 says it (sections 8.2.3, 10.2 and 10.3): laws that the
    semantics used here obeys. */
module SchemaLaws {
  import opened Json
  import opened SchemaUnions
  import opened SchemaMeaning
  import opened SchemaPreserved

  /** Whether a schema accepts an instance. */
  ghost predicate Takes(env: Env, fuel: nat, s: Value, i: Value) { Eval(env, fuel, s, i).ok }

  const APPLICATORS: set<string> := {"allOf", "anyOf", "oneOf", "not", "if", "then", "else", "$ref"}

  lemma NoOtherApplicators(m: map<string, Value>)
    requires m.Keys <= APPLICATORS
    ensures "type" !in m && "dependentSchemas" !in m && "dependencies" !in m
    ensures "properties" !in m && "patternProperties" !in m && "additionalProperties" !in m && "propertyNames" !in m
    ensures "prefixItems" !in m && "items" !in m && "additionalItems" !in m && "contains" !in m
    ensures "unevaluatedProperties" !in m && "unevaluatedItems" !in m
  {}

  lemma NoData(m: map<string, Value>)
    requires m.Keys <= APPLICATORS
    ensures forall k | k in m :: k == "$ref" || PositionOf(k) != Data
  {}

  lemma ApplicatorsAlone(env: Env, m: map<string, Value>, ev: Evaluator, props: set<string>, items: set<nat>, i: Value)
    requires m.Keys <= APPLICATORS
    ensures TypeOk(m, i) && AssertionsOk(env, m, i) && PropertiesOk(env, m, ev, i) && ItemsOk(m, ev, i)
    ensures UnevaluatedOk(m, ev, props, items, i)
    ensures DependentOuts(Dict(m, "dependentSchemas"), ev, i) == {}
    ensures DependentOuts(Dict(m, "dependencies"), ev, i) == {}
    ensures DependentArraysOk(Dict(m, "dependencies"), i)
  {
    NoOtherApplicators(m);
    NoData(m);
  }

  /** The applied schemas accept as the keywords demand. */
  ghost predicate Applied(env: Env, m: map<string, Value>, ev: Evaluator, target: Evaluator, i: Value) {
    && (forall c | c in List(m, "allOf") :: ev(c, i).ok)
    && ("anyOf" in m ==> exists c :: c in List(m, "anyOf") && ev(c, i).ok)
    && ("oneOf" in m ==> OneAccepts(List(m, "oneOf"), ev, i))
    && ("not" in m ==> !ev(m["not"], i).ok)
    && ("if" in m && ev(m["if"], i).ok && "then" in m ==> ev(m["then"], i).ok)
    && ("if" in m && !ev(m["if"], i).ok && "else" in m ==> ev(m["else"], i).ok)
    && ("$ref" in m ==>
          match Resolve(env, m["$ref"])
          case None => env.assertion("$ref", m["$ref"], i)
          case Some(schema) => target(schema, i).ok)
  }

  /** One of the schemas accepts, and no other. */
  ghost predicate OneAccepts(schemas: seq<Value>, ev: Evaluator, i: Value) {
    exists j :: 0 <= j < |schemas| && ev(schemas[j], i).ok
      && forall l | 0 <= l < |schemas| && l != j :: !ev(schemas[l], i).ok
  }

  lemma AllOuts(es: seq<Value>, ev: Evaluator, i: Value)
    ensures (forall o | o in ListOuts(es, ev, i) :: o.ok) <==> (forall c | c in es :: ev(c, i).ok)
  {
    var outs := ListOuts(es, ev, i);
    assert forall j | 0 <= j < |es| :: outs[j] == ev(es[j], i) && outs[j] in outs;
  }

  lemma AnyOuts(es: seq<Value>, ev: Evaluator, i: Value)
    ensures (exists o | o in ListOuts(es, ev, i) :: o.ok) <==> (exists c :: c in es && ev(c, i).ok)
  {
    var outs := ListOuts(es, ev, i);
    assert forall j | 0 <= j < |es| :: outs[j] == ev(es[j], i) && outs[j] in outs && es[j] in es;
    if c :| c in es && ev(c, i).ok {
      var j :| 0 <= j < |es| && es[j] == c;
      assert outs[j].ok;
    }
  }

  lemma OneOut(es: seq<Value>, ev: Evaluator, i: Value)
    ensures ExactlyOne(ListOuts(es, ev, i)) <==> OneAccepts(es, ev, i)
  {
    var outs := ListOuts(es, ev, i);
    assert |outs| == |es| && forall j | 0 <= j < |es| :: outs[j] == ev(es[j], i);
    if OneAccepts(es, ev, i) {
      var j :| 0 <= j < |es| && ev(es[j], i).ok && forall l | 0 <= l < |es| && l != j :: !ev(es[l], i).ok;
      assert outs[j].ok && forall l | 0 <= l < |outs| && l != j :: !outs[l].ok;
    }
    if ExactlyOne(outs) {
      var j :| 0 <= j < |outs| && outs[j].ok && forall l | 0 <= l < |outs| && l != j :: !outs[l].ok;
      assert ev(es[j], i).ok && forall l | 0 <= l < |es| && l != j :: !ev(es[l], i).ok;
    }
  }

  lemma AllAnyApplied(m: map<string, Value>, ev: Evaluator, i: Value)
    ensures AllAnyOk(m, ev, i) <==>
      (forall c | c in List(m, "allOf") :: ev(c, i).ok)
      && ("anyOf" in m ==> exists c :: c in List(m, "anyOf") && ev(c, i).ok)
  {
    AllOuts(List(m, "allOf"), ev, i);
    AnyOuts(List(m, "anyOf"), ev, i);
  }

  lemma ApplicatorsCombine(env: Env, m: map<string, Value>, ev: Evaluator, target: Evaluator, i: Value)
    requires m.Keys <= APPLICATORS
    ensures Combine(env, m, ev, target, i).ok <==> Applied(env, m, ev, target, i)
  {
    var outs := AllAnyOuts(m, ev, i) + OtherOuts(env, m, ev, target, i);
    var props, items := SeenProps(outs) + OwnProps(env, m, i), SeenItems(outs) + OwnItems(m, ev, i);
    ApplicatorsAlone(env, m, ev, props, items, i);
    AllAnyApplied(m, ev, i);
    OthersApplied(env, m, ev, target, i);
  }

  lemma OthersApplied(env: Env, m: map<string, Value>, ev: Evaluator, target: Evaluator, i: Value)
    requires m.Keys <= APPLICATORS
    ensures OthersOk(env, m, ev, target, i) <==>
      (("oneOf" in m ==> OneAccepts(List(m, "oneOf"), ev, i))
       && ("not" in m ==> !ev(m["not"], i).ok)
       && ("if" in m && ev(m["if"], i).ok && "then" in m ==> ev(m["then"], i).ok)
       && ("if" in m && !ev(m["if"], i).ok && "else" in m ==> ev(m["else"], i).ok)
       && ("$ref" in m ==>
             match Resolve(env, m["$ref"])
             case None => env.assertion("$ref", m["$ref"], i)
             case Some(schema) => target(schema, i).ok))
  {
    ApplicatorsAlone(env, m, ev, {}, {}, i);
    OneOut(List(m, "oneOf"), ev, i);
    ConditionsApplied(m, ev, i);
    ReferencesApplied(env, m, target, i);
  }

  lemma ReferencesApplied(env: Env, m: map<string, Value>, target: Evaluator, i: Value)
    ensures (forall o | o in RefOuts(env, m, target, i) :: o.ok) <==>
      ("$ref" in m ==>
         match Resolve(env, m["$ref"])
         case None => env.assertion("$ref", m["$ref"], i)
         case Some(schema) => target(schema, i).ok)
  {
    if "$ref" in m {
      match Resolve(env, m["$ref"])
      case None => assert Outcome(env.assertion("$ref", m["$ref"], i), {}, {}) in RefOuts(env, m, target, i);
      case Some(schema) => assert target(schema, i) in RefOuts(env, m, target, i);
    }
  }

  lemma ConditionsApplied(m: map<string, Value>, ev: Evaluator, i: Value)
    ensures (forall o | o in ConditionOuts(m, ev, i) :: o.ok) <==>
      (("if" in m && ev(m["if"], i).ok && "then" in m ==> ev(m["then"], i).ok)
       && ("if" in m && !ev(m["if"], i).ok && "else" in m ==> ev(m["else"], i).ok))
  {
    if "if" in m && "then" in m && ev(m["if"], i).ok { assert ev(m["then"], i) in ConditionOuts(m, ev, i); }
    if "if" in m && "else" in m && !ev(m["if"], i).ok { assert ev(m["else"], i) in ConditionOuts(m, ev, i); }
  }

  /** An object schema of applicators accepts exactly what its subschemas and references demand, where a
      reference spends one unit of fuel. */
  lemma ApplicatorsMean(env: Env, fuel: nat, m: map<string, Value>, i: Value)
    requires m.Keys <= APPLICATORS
    ensures Takes(env, fuel, Object(m), i) <==>
      Applied(env, m, Inner(env, fuel, Object(m)), Target(env, fuel), i)
    ensures forall c, j | c < Object(m) :: Inner(env, fuel, Object(m))(c, j) == Eval(env, fuel, c, j)
    ensures forall t, j :: Target(env, fuel)(t, j) == if fuel == 0 then REJECT else Eval(env, fuel - 1, t, j)
  {
    ApplicatorsCombine(env, m, Inner(env, fuel, Object(m)), Target(env, fuel), i);
  }
}
