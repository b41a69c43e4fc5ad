/** The rewriting of array-valued `type` keywords into `anyOf`, at every schema position. */
module SchemaUnions {
  import opened Json

  const TYPES: set<string> := {"null", "boolean", "object", "array", "number", "string", "integer"}

  const DICT_KEYWORDS: set<string> :=
    {"$defs", "definitions", "properties", "patternProperties", "dependentSchemas", "dependencies"}

  const LIST_KEYWORDS: set<string> := {"allOf", "anyOf", "oneOf", "prefixItems"}

  const SINGLE_KEYWORDS: set<string> :=
    {"contains", "propertyNames", "not", "if", "then", "else", "contentSchema", "additionalProperties",
     "unevaluatedProperties", "additionalItems", "unevaluatedItems"}

  /** Where a keyword keeps its subschemas; `Data` values are never schemas. */
  datatype Position = Data | Single | ListOf | DictOf | ItemsOf

  function PositionOf(k: string): Position {
    if k in DICT_KEYWORDS then DictOf
    else if k in LIST_KEYWORDS then ListOf
    else if k == "items" then ItemsOf
    else if k in SINGLE_KEYWORDS then Single
    else Data
  }

  /** The subschemas a value holds when its keyword has position `p`. */
  ghost function Children(p: Position, v: Value): (r: set<Value>)
    ensures forall c :: c in r ==> c == v || c < v
  {
    match p
    case Data => {}
    case Single => {v}
    case ListOf => if v.Array? then set c | c in v.elems else {}
    case DictOf => if v.Object? then v.fields.Values else {}
    case ItemsOf => if v.Array? then set c | c in v.elems else {v}
  }

  // ---- the `type` keyword

  /** A nonempty array of distinct standard type names. */
  predicate Portable(values: seq<Value>) {
    && values != []
    && (forall j | 0 <= j < |values| :: values[j].String? && values[j].s in TYPES)
    && (forall j, l | 0 <= j < l < |values| :: values[j] != values[l])
  }

  predicate HasUnion(m: map<string, Value>) {
    "type" in m && m["type"].Array? && Portable(m["type"].elems)
  }

  function TypeOnly(name: Value): Value { Object(map["type" := name]) }

  function Branches(values: seq<Value>): Value {
    Array(seq(|values|, j requires 0 <= j < |values| => TypeOnly(values[j])))
  }

  /** The rewriting appends to an existing `allOf`, which must then be an array. */
  predicate Rewritable(m: map<string, Value>) {
    HasUnion(m) && "anyOf" in m && "allOf" in m ==> m["allOf"].Array?
  }

  /** The rewriting of one object, before its children are visited. */
  function RewriteType(m: map<string, Value>): map<string, Value>
    requires Rewritable(m)
  {
    if !HasUnion(m) then m else
    var branches := Branches(m["type"].elems);
    var rest := m - {"type"};
    if "anyOf" in m
    then rest["allOf" := Array(List(m, "allOf") + [Object(map["anyOf" := branches])])]
    else rest["anyOf" := branches]
  }

  // ---- size: a union pays for the levels its rewriting adds

  ghost function Weight(v: Value): nat {
    match v
    case Array(es) => 1 + Max(set j | 0 <= j < |es| :: Weight(es[j]))
    case Object(m) => (if HasUnion(m) then 4 else 0) + 1 + Max(set k | k in m :: Weight(m[k]))
    case _ => 0
  }

  ghost function Max(s: set<nat>): (r: nat)
    ensures forall x :: x in s ==> x <= r
    ensures s != {} ==> r in s
  {
    if s == {} then 0 else
    var x :| x in s;
    var rest := Max(s - {x});
    assert s == {x} + (s - {x});
    if x > rest then x else rest
  }

  lemma ElementWeighsLess(es: seq<Value>, j: nat)
    requires j < |es|
    ensures Weight(es[j]) < Weight(Array(es))
  {
    var ws := set l | 0 <= l < |es| :: Weight(es[l]);
    assert Weight(es[j]) in ws;
    assert Weight(es[j]) <= Max(ws);
  }

  lemma MemberWeighsLess(m: map<string, Value>, k: string)
    requires k in m
    ensures Weight(m[k]) + (if HasUnion(m) then 4 else 0) < Weight(Object(m))
  {
    var ws := set l | l in m :: Weight(m[l]);
    assert Weight(m[k]) in ws;
    assert Weight(m[k]) <= Max(ws);
  }

  /** Subschemas of a value weigh no more than the value. */
  lemma ChildrenWeighLess(p: Position, v: Value, c: Value)
    requires c in Children(p, v)
    ensures Weight(c) <= Weight(v)
  {
    if c != v {
      if v.Array? {
        var j :| 0 <= j < |v.elems| && v.elems[j] == c;
        ElementWeighsLess(v.elems, j);
      } else {
        var j :| j in v.fields && v.fields[j] == c;
        MemberWeighsLess(v.fields, j);
      }
    }
  }

  lemma TypeOnlyWeight(name: Value)
    requires name.String?
    ensures Weight(TypeOnly(name)) == 1
  {
    var m := map["type" := name];
    assert (set k | k in m :: Weight(m[k])) == {0} by {
      assert Weight(m["type"]) == 0;
    }
  }

  lemma BranchesWeight(values: seq<Value>)
    requires Portable(values)
    ensures Weight(Branches(values)) == 2
    ensures Weight(Object(map["anyOf" := Branches(values)])) == 3
  {
    var es := Branches(values).elems;
    forall j | 0 <= j < |es| ensures Weight(es[j]) == 1 { TypeOnlyWeight(values[j]); }
    var ws := set j | 0 <= j < |es| :: Weight(es[j]);
    assert Weight(es[0]) in ws;
    assert ws == {1};
    var m := map["anyOf" := Branches(values)];
    assert "type" !in m;
    assert (set k | k in m :: Weight(m[k])) == {2} by {
      assert Weight(m["anyOf"]) == 2;
    }
  }

  /** Every subschema of the rewritten object is lighter than the original object. */
  lemma RewriteWeighsLess(m: map<string, Value>, k: string, p: Position, c: Value)
    requires Rewritable(m) && k in RewriteType(m) && c in Children(p, RewriteType(m)[k])
    ensures Weight(c) < Weight(Object(m))
  {
    var r := RewriteType(m);
    if k in m && r[k] == m[k] {
      MemberWeighsLess(m, k);
      ChildrenWeighLess(p, m[k], c);
    } else {
      AddedWeighsLess(m, k);
      ChildrenWeighLess(p, r[k], c);
    }
  }

  lemma AddedWeighsLess(m: map<string, Value>, k: string)
    requires Rewritable(m) && HasUnion(m) && k in RewriteType(m)
    requires k !in m || RewriteType(m)[k] != m[k]
    ensures Weight(RewriteType(m)[k]) < Weight(Object(m))
  {
    MemberWeighsLess(m, "type");
    BranchesWeight(m["type"].elems);
    if "anyOf" in m {
      assert k == "allOf";
      var prior := List(m, "allOf");
      var es := prior + [Object(map["anyOf" := Branches(m["type"].elems)])];
      var bound := Weight(Object(m)) - 2;
      if "allOf" in m { MemberWeighsLess(m, "allOf"); }
      forall j | 0 <= j < |es| ensures Weight(es[j]) <= bound {
        if j < |prior| { ElementWeighsLess(prior, j); }
      }
      var ws := set j | 0 <= j < |es| :: Weight(es[j]);
      assert Max(ws) <= bound;
    }
  }

  // ---- the rewriting at every schema position

  /** Every object met on the way down can be rewritten without a panic. */
  ghost predicate WellFormed(v: Value)
    decreases v, 0
  {
    v.Object? ==>
      && Rewritable(v.fields)
      && forall k | k in v.fields :: ChildrenWellFormed(PositionOf(k), v.fields[k])
  }

  ghost predicate ChildrenWellFormed(p: Position, v: Value)
    decreases v, 1
  {
    forall c | c in Children(p, v) :: WellFormed(c)
  }

  lemma TypePosition()
    ensures PositionOf("type") == Data
    ensures PositionOf("anyOf") == ListOf && PositionOf("allOf") == ListOf
    ensures PositionOf("$defs") == DictOf
  {}

  lemma BranchesWellFormed(values: seq<Value>)
    requires Portable(values)
    ensures ChildrenWellFormed(ListOf, Branches(values))
    ensures WellFormed(Object(map["anyOf" := Branches(values)]))
  {
    TypePosition();
    forall c | c in Branches(values).elems ensures WellFormed(c) {
      var j :| 0 <= j < |values| && c == TypeOnly(values[j]);
      assert c.fields.Keys == {"type"};
    }
    var m := map["anyOf" := Branches(values)];
    assert "type" !in m;
    forall k | k in m ensures ChildrenWellFormed(PositionOf(k), m[k]) { assert k == "anyOf"; }
  }

  lemma RewriteWellFormed(m: map<string, Value>, k: string)
    requires WellFormed(Object(m)) && k in RewriteType(m)
    ensures ChildrenWellFormed(PositionOf(k), RewriteType(m)[k])
  {
    var r := RewriteType(m);
    var v := Object(m);
    if k in m && r[k] == m[k] {
      assert ChildrenWellFormed(PositionOf(k), v.fields[k]);
    } else {
      TypePosition();
      BranchesWellFormed(m["type"].elems);
      if "anyOf" in m && "allOf" in m { assert ChildrenWellFormed(PositionOf("allOf"), v.fields["allOf"]); }
    }
  }

  /** A bound on what `NormalizeAt` still has to visit. */
  ghost function ChildBound(p: Position, v: Value): nat {
    1 + Max(set c | c in Children(p, v) :: Weight(c))
  }

  lemma ChildBoundAbove(p: Position, v: Value, c: Value)
    requires c in Children(p, v)
    ensures Weight(c) < ChildBound(p, v)
  {
    var ws := set d | d in Children(p, v) :: Weight(d);
    assert Weight(c) in ws;
    assert Weight(c) <= Max(ws);
  }

  lemma RewriteBound(m: map<string, Value>, k: string, p: Position)
    requires Rewritable(m) && k in RewriteType(m)
    ensures ChildBound(p, RewriteType(m)[k]) <= Weight(Object(m))
  {
    var cs := Children(p, RewriteType(m)[k]);
    forall c | c in cs ensures Weight(c) < Weight(Object(m)) { RewriteWeighsLess(m, k, p, c); }
  }

  function Normalize(v: Value): (r: Value)
    requires WellFormed(v)
    decreases Weight(v), 1
  {
    if !v.Object? then v else
    var m := RewriteType(v.fields);
    Object(map k | k in m ::
      (RewriteWellFormed(v.fields, k); RewriteBound(v.fields, k, PositionOf(k)); NormalizeAt(PositionOf(k), m[k])))
  }

  function NormalizeAt(p: Position, v: Value): (r: Value)
    requires ChildrenWellFormed(p, v)
    decreases ChildBound(p, v), 0
  {
    match p
    case Data => v
    case Single => ChildBoundAbove(p, v, v); Normalize(v)
    case ListOf =>
      if v.Array? then
        Array(seq(|v.elems|, j requires 0 <= j < |v.elems| =>
          (ChildBoundAbove(p, v, v.elems[j]); Normalize(v.elems[j]))))
      else v
    case DictOf =>
      if v.Object? then
        Object(map k | k in v.fields :: (ChildBoundAbove(p, v, v.fields[k]); Normalize(v.fields[k])))
      else v
    case ItemsOf =>
      if v.Array? then
        Array(seq(|v.elems|, j requires 0 <= j < |v.elems| =>
          (ChildBoundAbove(p, v, v.elems[j]); Normalize(v.elems[j]))))
      else (ChildBoundAbove(p, v, v); Normalize(v))
  }

  // ---- completeness and idempotence

  /** No schema position holds a legal type array. */
  ghost predicate UnionFree(v: Value)
    decreases v, 0
  {
    v.Object? ==>
      && !HasUnion(v.fields)
      && forall k | k in v.fields :: ChildrenUnionFree(PositionOf(k), v.fields[k])
  }

  ghost predicate ChildrenUnionFree(p: Position, v: Value)
    decreases v, 1
  {
    forall c | c in Children(p, v) :: UnionFree(c)
  }

  lemma RewriteHasNoUnion(m: map<string, Value>)
    requires Rewritable(m)
    ensures !HasUnion(RewriteType(m))
  {}

  /** One pass leaves no legal type array at any schema position. */
  lemma {:induction false} NormalizeIsComplete(v: Value)
    requires WellFormed(v)
    ensures UnionFree(Normalize(v))
    decreases Weight(v), 1
  {
    if v.Object? {
      var m := RewriteType(v.fields);
      var r := Normalize(v).fields;
      TypePosition();
      RewriteHasNoUnion(v.fields);
      assert "type" in r ==> r["type"] == NormalizeAt(PositionOf("type"), m["type"]);
      forall k | k in r ensures ChildrenUnionFree(PositionOf(k), r[k]) {
        RewriteWellFormed(v.fields, k);
        RewriteBound(v.fields, k, PositionOf(k));
        NormalizeAtIsComplete(PositionOf(k), m[k]);
      }
    }
  }

  lemma {:induction false} NormalizeAtIsComplete(p: Position, v: Value)
    requires ChildrenWellFormed(p, v)
    ensures ChildrenUnionFree(p, NormalizeAt(p, v))
    decreases ChildBound(p, v), 0
  {
    forall c | c in Children(p, v) ensures UnionFree(Normalize(c)) {
      ChildBoundAbove(p, v, c);
      NormalizeIsComplete(c);
    }
    forall d | d in Children(p, NormalizeAt(p, v)) ensures UnionFree(d) {
      NormalizeAtChild(p, v, d);
    }
  }

  /** Every subschema of the result is the normal form of a subschema of the input. */
  lemma NormalizeAtChild(p: Position, v: Value, d: Value)
    requires ChildrenWellFormed(p, v) && d in Children(p, NormalizeAt(p, v))
    ensures exists c :: c in Children(p, v) && d == Normalize(c)
  {
    if v.Array? {
      if p == ListOf || p == ItemsOf {
        var j :| 0 <= j < |v.elems| && NormalizeAt(p, v).elems[j] == d;
        assert v.elems[j] in Children(p, v);
      } else {
        assert v in Children(p, v);
      }
    } else if p == DictOf {
      var j :| j in v.fields && NormalizeAt(p, v).fields[j] == d;
      assert v.fields[j] in Children(p, v);
    } else {
      assert v in Children(p, v);
    }
  }

  /** A schema without unions is left exactly as it is. */
  lemma {:induction false} NormalizeFixesUnionFree(v: Value)
    requires UnionFree(v)
    ensures WellFormed(v) && Normalize(v) == v
    decreases v, 0
  {
    if v.Object? {
      forall k | k in v.fields
        ensures ChildrenWellFormed(PositionOf(k), v.fields[k]) && NormalizeAt(PositionOf(k), v.fields[k]) == v.fields[k]
      {
        NormalizeAtFixesUnionFree(PositionOf(k), v.fields[k]);
      }
    }
  }

  lemma {:induction false} NormalizeAtFixesUnionFree(p: Position, v: Value)
    requires ChildrenUnionFree(p, v)
    ensures ChildrenWellFormed(p, v) && NormalizeAt(p, v) == v
    decreases v, 1
  {
    forall c | c in Children(p, v) ensures WellFormed(c) && Normalize(c) == c { NormalizeFixesUnionFree(c); }
    match p
    case DictOf => if v.Object? { assert forall k | k in v.fields :: v.fields[k] in Children(p, v); }
    case _ =>
  }

  /** A second pass changes nothing. */
  lemma NormalizeIsIdempotent(v: Value)
    requires WellFormed(v)
    ensures WellFormed(Normalize(v)) && Normalize(Normalize(v)) == Normalize(v)
  {
    NormalizeIsComplete(v);
    NormalizeFixesUnionFree(Normalize(v));
  }

  // ---- the in-place traversal

  /** Collect the type names, giving up at the first value that is not a fresh standard name. */
  method PortableTypes(values: seq<Value>) returns (types: Option<seq<Value>>)
    ensures types == if Portable(values) then Some(values) else None
  {
    var names: seq<Value> := [];
    for j := 0 to |values|
      invariant names == values[..j]
      invariant forall l | 0 <= l < j :: values[l].String? && values[l].s in TYPES
      invariant forall l, o | 0 <= l < o < j :: values[l] != values[o]
    {
      if !values[j].String? || values[j].s !in TYPES {
        return None;
      }
      if values[j] in names {
        var l :| 0 <= l < j && values[l] == values[j];
        return None;
      }
      names := names + [values[j]];
    }
    assert names == values;
    types := if names != [] then Some(names) else None;
  }

  method NormalizeList(p: Position, v: Value) returns (out: Value)
    requires (p == ListOf || p == ItemsOf) && v.Array? && ChildrenWellFormed(p, v)
    ensures out == NormalizeAt(p, v)
    decreases ChildBound(p, v), 0
  {
    var es := v.elems;
    for j := 0 to |es|
      invariant |es| == |v.elems|
      invariant forall l | 0 <= l < |es| ::
        es[l] == if l < j then NormalizeAt(p, v).elems[l] else v.elems[l]
    {
      ChildBoundAbove(p, v, v.elems[j]);
      var child := NormalizeTypeUnions(es[j]);
      es := es[j := child];
    }
    out := Array(es);
  }

  method NormalizeDict(v: Value) returns (out: Value)
    requires v.Object? && ChildrenWellFormed(DictOf, v)
    ensures out == NormalizeAt(DictOf, v)
    decreases ChildBound(DictOf, v), 0
  {
    var members := v.fields;
    var todo := members.Keys;
    while todo != {}
      invariant todo <= members.Keys == v.fields.Keys
      invariant forall k | k in members ::
        members[k] == if k in todo then v.fields[k] else NormalizeAt(DictOf, v).fields[k]
      decreases todo
    {
      var k :| k in todo;
      assert v.fields[k] in Children(DictOf, v);
      ChildBoundAbove(DictOf, v, v.fields[k]);
      var child := NormalizeTypeUnions(members[k]);
      members, todo := members[k := child], todo - {k};
    }
    out := Object(members);
  }

  /** The keywords the traversal visits after the rewriting, one list for each position. */
  function VisitedKeywords(): set<string> {
    DICT_KEYWORDS + LIST_KEYWORDS + {"items"} + SINGLE_KEYWORDS
  }

  lemma UnvisitedKeywordsAreData(k: string)
    ensures k in VisitedKeywords() <==> PositionOf(k) != Data
  {}

  /** The first half of a visit: the `type` array becomes branches. */
  method RewriteInPlace(m: map<string, Value>) returns (r: map<string, Value>)
    requires Rewritable(m)
    ensures r == RewriteType(m)
  {
    r := m;
    if "type" in m && m["type"].Array? {
      var types := PortableTypes(m["type"].elems);
      if types.Some? {
        r := r - {"type"};
        var branches := Branches(types.value);
        if "anyOf" in r {
          r := r["allOf" := Array(List(r, "allOf") + [Object(map["anyOf" := branches])])];
        } else {
          r := r["anyOf" := branches];
        }
      }
    }
  }

  method NormalizeKeyword(p: Position, value: Value) returns (out: Value)
    requires ChildrenWellFormed(p, value)
    ensures out == NormalizeAt(p, value)
    decreases ChildBound(p, value), 1
  {
    out := value;
    if p == DictOf {
      if value.Object? { out := NormalizeDict(value); }
    } else if p == ListOf || (p == ItemsOf && value.Array?) {
      if value.Array? { out := NormalizeList(p, value); }
    } else if p == ItemsOf || p == Single {
      ChildBoundAbove(p, value, value);
      out := NormalizeTypeUnions(value);
    }
  }

  /** Visit the named keywords of one object and leave its other members alone. */
  method NormalizeMembers(m: map<string, Value>, keywords: set<string>, ghost bound: nat)
      returns (r: map<string, Value>)
    requires forall k | k in m ::
      ChildrenWellFormed(PositionOf(k), m[k]) && ChildBound(PositionOf(k), m[k]) <= bound
    ensures r.Keys == m.Keys
    ensures forall k | k in m :: r[k] == if k in keywords then NormalizeAt(PositionOf(k), m[k]) else m[k]
    decreases bound, 2
  {
    r := m;
    var todo := keywords;
    while todo != {}
      invariant todo <= keywords && r.Keys == m.Keys
      invariant forall k | k in m ::
        r[k] == if k in keywords - todo then NormalizeAt(PositionOf(k), m[k]) else m[k]
      decreases todo
    {
      var k :| k in todo;
      if k in r {
        var value := NormalizeKeyword(PositionOf(k), m[k]);
        r := r[k := value];
      }
      todo := todo - {k};
    }
  }

  method NormalizeTypeUnions(schema: Value) returns (out: Value)
    requires WellFormed(schema)
    ensures out == Normalize(schema)
    decreases Weight(schema), 3
  {
    if !schema.Object? { return schema; }
    var start := RewriteInPlace(schema.fields);
    forall k | k in start
      ensures ChildrenWellFormed(PositionOf(k), start[k]) && ChildBound(PositionOf(k), start[k]) <= Weight(schema)
    {
      RewriteWellFormed(schema.fields, k);
      RewriteBound(schema.fields, k, PositionOf(k));
    }
    var members := NormalizeMembers(start, VisitedKeywords(), Weight(schema));
    forall k | k in start ensures members[k] == NormalizeAt(PositionOf(k), start[k]) {
      UnvisitedKeywordsAreData(k);
    }
    out := Object(members);
  }
}
