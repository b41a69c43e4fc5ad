/** Which instances a schema accepts: JSON Schema 2020-12, with the array forms of `items` and
    `dependencies` that the rewriting also visits. Evaluation also reports the properties and items
    it has evaluated, which is what `unevaluatedProperties` and `unevaluatedItems` look at. */
module SchemaMeaning {
  import opened Json
  import opened SchemaUnions

  /** What a schema is read against: the definitions and root its references name, the regular
      expression engine, and the meaning of each keyword that holds no subschema. */
  datatype Env = Env(defs: map<string, Value>, root: Value,
                     pattern: (string, string) -> bool,
                     assertion: (string, Value, Value) -> bool)

  datatype Outcome = Outcome(ok: bool, props: set<string>, items: set<nat>)

  const REF_PREFIX := "#/$defs/"

  /** The schema a reference names: a definition, or the document root. */
  function Resolve(env: Env, ref: Value): Option<Value> {
    if !ref.String? then None
    else if ref.s == "#" then Some(env.root)
    else if REF_PREFIX <= ref.s && ref.s[|REF_PREFIX|..] in env.defs then Some(env.defs[ref.s[|REF_PREFIX|..]])
    else None
  }

  predicate HasType(name: string, i: Value) {
    match i
    case Null => name == "null"
    case Bool(_) => name == "boolean"
    case Number(n) => name == "number" || (name == "integer" && n.Floor as real == n)
    case String(_) => name == "string"
    case Array(_) => name == "array"
    case Object(_) => name == "object"
  }

  predicate TypeOk(m: map<string, Value>, i: Value) {
    "type" in m ==>
      match m["type"]
      case String(name) => HasType(name, i)
      case Array(names) => exists j | 0 <= j < |names| :: names[j].String? && HasType(names[j].s, i)
      case _ => false
  }

  /** Every keyword that holds no subschema, `enum`, `const` and `default` among them. */
  predicate AssertionsOk(env: Env, m: map<string, Value>, i: Value) {
    forall k | k in m && PositionOf(k) == Data && k != "type" && k != "$ref" :: env.assertion(k, m[k], i)
  }

  // ---- one level: how the outcomes of subschemas combine

  /** The outcome of a subschema on an instance. */
  type Evaluator = (Value, Value) -> Outcome

  const REJECT := Outcome(false, {}, {})

  /** The outcome of an object schema, given the outcomes `ev` of its subschemas and `target` of
      the schemas its reference names. */
  ghost function Combine(env: Env, m: map<string, Value>, ev: Evaluator, target: Evaluator, i: Value): Outcome {
    var outs := AllAnyOuts(m, ev, i) + OtherOuts(env, m, ev, target, i);
    var props := SeenProps(outs) + OwnProps(env, m, i);
    var items := SeenItems(outs) + OwnItems(m, ev, i);
    if && TypeOk(m, i) && AllAnyOk(m, ev, i)
       && AssertionsOk(env, m, i) && OthersOk(env, m, ev, target, i)
       && PropertiesOk(env, m, ev, i) && ItemsOk(m, ev, i)
       && UnevaluatedOk(m, ev, props, items, i)
    then Outcome(true,
                 if "unevaluatedProperties" in m then Fields(i).Keys else props,
                 if "unevaluatedItems" in m then Indices(i) else items)
    else REJECT
  }

  // ---- subschemas applied to the instance itself

  function ListOuts(es: seq<Value>, ev: Evaluator, i: Value): (r: seq<Outcome>)
    ensures |r| == |es|
  {
    seq(|es|, j requires 0 <= j < |es| => ev(es[j], i))
  }

  /** What `allOf` and `anyOf` evaluated. */
  function AllAnyOuts(m: map<string, Value>, ev: Evaluator, i: Value): set<Outcome> {
    (set o | o in ListOuts(List(m, "allOf"), ev, i)) + (set o | o in ListOuts(List(m, "anyOf"), ev, i))
  }

  predicate AllAnyOk(m: map<string, Value>, ev: Evaluator, i: Value) {
    && (forall o | o in ListOuts(List(m, "allOf"), ev, i) :: o.ok)
    && ("anyOf" in m ==> exists o | o in ListOuts(List(m, "anyOf"), ev, i) :: o.ok)
  }

  function RefOuts(env: Env, m: map<string, Value>, target: Evaluator, i: Value): set<Outcome> {
    if "$ref" !in m then {} else
    match Resolve(env, m["$ref"])
    case None => {Outcome(env.assertion("$ref", m["$ref"], i), {}, {})}
    case Some(schema) => {target(schema, i)}
  }

  function ConditionOuts(m: map<string, Value>, ev: Evaluator, i: Value): set<Outcome> {
    if "if" !in m then {} else
    var test := ev(m["if"], i);
    if test.ok then {test} + (if "then" in m then {ev(m["then"], i)} else {})
    else if "else" in m then {ev(m["else"], i)} else {}
  }

  function DependentOuts(d: map<string, Value>, ev: Evaluator, i: Value): set<Outcome> {
    set n | n in d && n in Fields(i) && !d[n].Array? :: ev(d[n], i)
  }

  /** The array form of a dependency lists the members it requires. */
  predicate DependentArraysOk(d: map<string, Value>, i: Value) {
    forall n | n in d && n in Fields(i) && d[n].Array? ::
      forall e | e in d[n].elems :: e.String? && e.s in Fields(i)
  }

  /** What the other keywords applied to the instance itself evaluated. */
  function OtherOuts(env: Env, m: map<string, Value>, ev: Evaluator, target: Evaluator, i: Value): set<Outcome> {
    RefOuts(env, m, target, i) + ConditionOuts(m, ev, i) +
    DependentOuts(Dict(m, "dependentSchemas"), ev, i) + DependentOuts(Dict(m, "dependencies"), ev, i) +
    (set o | o in ListOuts(List(m, "oneOf"), ev, i))
  }

  predicate OthersOk(env: Env, m: map<string, Value>, ev: Evaluator, target: Evaluator, i: Value) {
    && (forall o | o in RefOuts(env, m, target, i) :: o.ok)
    && (forall o | o in ConditionOuts(m, ev, i) :: o.ok)
    && (forall o | o in DependentOuts(Dict(m, "dependentSchemas"), ev, i) :: o.ok)
    && (forall o | o in DependentOuts(Dict(m, "dependencies"), ev, i) :: o.ok)
    && DependentArraysOk(Dict(m, "dependencies"), i)
    && ("oneOf" in m ==> ExactlyOne(ListOuts(List(m, "oneOf"), ev, i)))
    && ("not" in m ==> !ev(m["not"], i).ok)
  }

  predicate ExactlyOne(outs: seq<Outcome>) {
    exists j | 0 <= j < |outs| :: outs[j].ok && forall l | 0 <= l < |outs| && l != j :: !outs[l].ok
  }

  function SeenProps(outs: set<Outcome>): set<string> {
    set o, p | o in outs && o.ok && p in o.props :: p
  }

  function SeenItems(outs: set<Outcome>): set<nat> {
    set o, n | o in outs && o.ok && n in o.items :: n
  }

  // ---- subschemas applied to the members of an object instance

  predicate Matched(env: Env, m: map<string, Value>, key: string) {
    key in Dict(m, "properties") || exists p :: p in Dict(m, "patternProperties") && env.pattern(p, key)
  }

  function OwnProps(env: Env, m: map<string, Value>, i: Value): set<string> {
    set key | key in Fields(i).Keys && (Matched(env, m, key) || "additionalProperties" in m)
  }

  predicate PropertiesOk(env: Env, m: map<string, Value>, ev: Evaluator, i: Value) {
    forall key | key in Fields(i) :: PropertyOk(env, m, ev, key, Fields(i)[key])
  }

  predicate PropertyOk(env: Env, m: map<string, Value>, ev: Evaluator, key: string, value: Value) {
    && (key in Dict(m, "properties") ==> ev(Dict(m, "properties")[key], value).ok)
    && (forall p | p in Dict(m, "patternProperties") && env.pattern(p, key) ::
          ev(Dict(m, "patternProperties")[p], value).ok)
    && ("additionalProperties" in m && !Matched(env, m, key) ==> ev(m["additionalProperties"], value).ok)
    && ("propertyNames" in m ==> ev(m["propertyNames"], String(key)).ok)
  }

  // ---- subschemas applied to the elements of an array instance

  predicate IsIndex(i: Value, n: nat) { n < |Elements(i)| }

  function Indices(i: Value): set<nat> {
    set n: nat | 0 <= n < |Elements(i)| && IsIndex(i, n)
  }

  /** How many leading elements have a schema of their own. */
  function PrefixLength(m: map<string, Value>): nat {
    if "items" in m && m["items"].Array? then |m["items"].elems| else |List(m, "prefixItems")|
  }

  /** Whether one schema covers every element after the prefix. */
  predicate RestCovered(m: map<string, Value>) {
    "items" in m && (m["items"].Array? ==> "additionalItems" in m)
  }

  function ContainsHits(m: map<string, Value>, ev: Evaluator, i: Value): set<nat> {
    if "contains" !in m then {} else
    set n | n in Indices(i) && ev(m["contains"], Elements(i)[n]).ok
  }

  function OwnItems(m: map<string, Value>, ev: Evaluator, i: Value): set<nat> {
    (set n | n in Indices(i) && (n < PrefixLength(m) || RestCovered(m))) + ContainsHits(m, ev, i)
  }

  predicate CountOk(m: map<string, Value>, hits: nat) {
    && (if "minContains" in m && m["minContains"].Number? then m["minContains"].n <= hits as real else 1 <= hits)
    && ("maxContains" in m && m["maxContains"].Number? ==> hits as real <= m["maxContains"].n)
  }

  predicate ItemsOk(m: map<string, Value>, ev: Evaluator, i: Value) {
    && (forall n | n in Indices(i) :: ItemOk(m, ev, n, Elements(i)[n]))
    && ("contains" in m && i.Array? ==> CountOk(m, |ContainsHits(m, ev, i)|))
  }

  predicate ItemOk(m: map<string, Value>, ev: Evaluator, n: nat, value: Value) {
    && (n < |List(m, "prefixItems")| ==> ev(List(m, "prefixItems")[n], value).ok)
    && (n < |List(m, "items")| ==> ev(List(m, "items")[n], value).ok)
    && ("items" in m && !m["items"].Array? && PrefixLength(m) <= n ==> ev(m["items"], value).ok)
    && ("items" in m && m["items"].Array? && "additionalItems" in m && PrefixLength(m) <= n ==>
          ev(m["additionalItems"], value).ok)
  }

  // ---- what nothing else evaluated

  predicate UnevaluatedOk(m: map<string, Value>, ev: Evaluator, props: set<string>, items: set<nat>, i: Value) {
    && ("unevaluatedProperties" in m ==>
          forall key | key in Fields(i) && key !in props :: ev(m["unevaluatedProperties"], Fields(i)[key]).ok)
    && ("unevaluatedItems" in m ==>
          forall n | n in Indices(i) && n !in items :: ev(m["unevaluatedItems"], Elements(i)[n]).ok)
  }

  // ---- all levels

  /** The outcome of a schema. Subschemas are smaller; a reference spends one unit of fuel. */
  ghost function Eval(env: Env, fuel: nat, s: Value, i: Value): Outcome
    decreases fuel, 1, s, 1
  {
    match s
    case Bool(b) => Outcome(b, {}, {})
    case Object(m) => Combine(env, m, Inner(env, fuel, s), Target(env, fuel), i)
    case _ => REJECT
  }

  ghost function Inner(env: Env, fuel: nat, s: Value): Evaluator
    decreases fuel, 1, s, 0
  {
    (c: Value, j: Value) => if c < s then Eval(env, fuel, c, j) else REJECT
  }

  ghost function Target(env: Env, fuel: nat): Evaluator
    decreases fuel, 0
  {
    (t: Value, j: Value) => if fuel == 0 then REJECT else Eval(env, fuel - 1, t, j)
  }
}
