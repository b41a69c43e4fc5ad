/** Where subschemas and data are, at any depth, and where they are after rewriting. */
module SchemaPaths {
  import opened Json
  import opened SchemaUnions
  import opened SchemaMeaning
  import opened SchemaAlike
  import opened SchemaPreserved

  /** One step from a schema to a subschema: a keyword's value, an element of it, or a member of it. */
  datatype Turn = ToValue(k: string) | ToElement(k: string, n: nat) | ToMember(k: string, name: string)

  function Subschema(v: Value, turn: Turn): Option<Value> {
    if !v.Object? || turn.k !in v.fields then None else
    var p, c := PositionOf(turn.k), v.fields[turn.k];
    match turn
    case ToValue(_) => if p == Single || (p == ItemsOf && !c.Array?) then Some(c) else None
    case ToElement(_, n) =>
      if (p == ListOf || p == ItemsOf) && c.Array? && n < |c.elems| then Some(c.elems[n]) else None
    case ToMember(_, name) => if p == DictOf && c.Object? && name in c.fields then Some(c.fields[name]) else None
  }

  /** The subschema at the end of a path. */
  function At(v: Value, path: seq<Turn>): Option<Value> {
    if path == [] then Some(v) else
    var next := Subschema(v, path[0]);
    if next.None? then None else At(next.value, path[1..])
  }

  /** The value of a keyword that holds subschemas is kept, or gets one more element. */
  lemma RewriteKeepsSubschema(m: map<string, Value>, turn: Turn)
    requires Rewritable(m) && Subschema(Object(m), turn).Some?
    ensures Subschema(Object(RewriteType(m)), turn) == Subschema(Object(m), turn)
  {
    TypePosition();
  }

  lemma SubschemaIsChild(v: Value, turn: Turn)
    requires Subschema(v, turn).Some?
    ensures v.Object? && turn.k in v.fields
    ensures Subschema(v, turn).value in Children(PositionOf(turn.k), v.fields[turn.k])
  {}

  lemma SubschemaNormalized(v: Value, turn: Turn)
    requires WellFormed(v) && Subschema(v, turn).Some?
    ensures WellFormed(Subschema(v, turn).value)
    ensures Subschema(Normalize(v), turn) == Some(Normalize(Subschema(v, turn).value))
  {
    SubschemaIsChild(v, turn);
    assert ChildrenWellFormed(PositionOf(turn.k), v.fields[turn.k]);
    RewriteKeepsSubschema(v.fields, turn);
    RewriteWellFormed(v.fields, turn.k);
    assert Normalize(v).fields[turn.k] == NormalizeAt(PositionOf(turn.k), RewriteType(v.fields)[turn.k]);
  }

  /** Rewriting goes down to every subschema and leaves it at its path: what is there afterwards is the
      normal form of what was there before. */
  lemma {:induction false} NormalizedAtEveryPath(v: Value, path: seq<Turn>)
    requires WellFormed(v) && At(v, path).Some?
    ensures WellFormed(At(v, path).value)
    ensures At(Normalize(v), path) == Some(Normalize(At(v, path).value))
    decreases |path|
  {
    if path != [] {
      SubschemaNormalized(v, path[0]);
      NormalizedAtEveryPath(Subschema(v, path[0]).value, path[1..]);
    }
  }

  /** Data at any depth stays as it is: a keyword of a subschema that holds no subschemas keeps its value
      at the same path, and only `type`, `anyOf` and `allOf` come or go. */
  lemma DataIsUntouchedAnywhere(v: Value, path: seq<Turn>, k: string)
    requires WellFormed(v) && At(v, path).Some? && At(v, path).value.Object?
    requires k != "type" && k != "anyOf" && k != "allOf"
    ensures At(Normalize(v), path).Some? && At(Normalize(v), path).value.Object?
    ensures var before, after := At(v, path).value.fields, At(Normalize(v), path).value.fields;
      (k in after <==> k in before) && (k in before && PositionOf(k) == Data ==> after[k] == before[k])
    ensures k in {"enum", "const", "default", "examples", "required"} ==> PositionOf(k) == Data
  {
    NormalizedAtEveryPath(v, path);
    TypePosition();
    DataIsUntouched(At(v, path).value, k);
    assert k in RewriteType(At(v, path).value.fields) <==> k in At(v, path).value.fields;
  }

  // ---- which arrays are legal, and where schemas are

  /** The standard names are exactly those that some instance has as a type. */
  lemma TypesAreTheNames(name: string)
    ensures name in TYPES <==> exists i :: HasType(name, i)
  {
    assert HasType("null", Null) && HasType("boolean", Bool(true)) && HasType("number", Number(0.0));
    assert HasType("integer", Number(0.0)) && HasType("string", String("")) && HasType("array", Array([]));
    assert HasType("object", Object(map[]));
  }

  /** A nonempty array of distinct names, each of which some instance has as a type. */
  ghost predicate LegalTypeArray(v: Value) {
    && v.Array? && v.elems != []
    && (forall j | 0 <= j < |v.elems| :: v.elems[j].String? && exists i :: HasType(v.elems[j].s, i))
    && (forall j, l | 0 <= j < l < |v.elems| :: v.elems[j] != v.elems[l])
  }

  lemma LegalIsPortable(v: Value)
    ensures LegalTypeArray(v) <==> v.Array? && Portable(v.elems)
  {
    if v.Array? {
      forall j | 0 <= j < |v.elems| && v.elems[j].String?
        ensures v.elems[j].s in TYPES <==> exists i :: HasType(v.elems[j].s, i)
      {
        TypesAreTheNames(v.elems[j].s);
      }
    }
  }

  lemma {:induction false} UnionFreeAtEveryPath(v: Value, path: seq<Turn>)
    requires UnionFree(v) && At(v, path).Some?
    ensures UnionFree(At(v, path).value)
    decreases |path|
  {
    if path != [] {
      SubschemaIsChild(v, path[0]);
      assert ChildrenUnionFree(PositionOf(path[0].k), v.fields[path[0].k]);
      UnionFreeAtEveryPath(Subschema(v, path[0]).value, path[1..]);
    }
  }

  /** After the rewriting no subschema at any path has a legal type array left. */
  lemma NoLegalTypeArrayAnywhere(v: Value, path: seq<Turn>)
    requires WellFormed(v) && At(Normalize(v), path).Some? && At(Normalize(v), path).value.Object?
    ensures var m := At(Normalize(v), path).value.fields; "type" in m ==> !LegalTypeArray(m["type"])
  {
    NormalizeIsComplete(v);
    UnionFreeAtEveryPath(Normalize(v), path);
    var m := At(Normalize(v), path).value.fields;
    if "type" in m { LegalIsPortable(m["type"]); }
  }

  /** The keywords whose value is a schema, an array of schemas, an object of schemas, or, for `items`, a schema
      or an array of them; all others hold data. */
  lemma SchemasAreWhereTheKeywordsSay(k: string)
    ensures PositionOf(k) == (
      if k == "$defs" || k == "definitions" || k == "properties" || k == "patternProperties"
         || k == "dependentSchemas" || k == "dependencies" then DictOf
      else if k == "allOf" || k == "anyOf" || k == "oneOf" || k == "prefixItems" then ListOf
      else if k == "items" then ItemsOf
      else if k == "contains" || k == "propertyNames" || k == "not" || k == "if" || k == "then" || k == "else"
         || k == "contentSchema" || k == "additionalProperties" || k == "unevaluatedProperties"
         || k == "additionalItems" || k == "unevaluatedItems" then Single
      else Data)
  {}
}
