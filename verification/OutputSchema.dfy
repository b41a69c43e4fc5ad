/** The output schema of a tool: a success schema or a failure schema, with merged definitions. */
module OutputSchema {
  import opened Json
  import opened SchemaUnions
  import opened SchemaMeaning
  import opened SchemaAlike
  import opened SchemaPreserved

  type Schema = map<string, Value>

  /** Definitions the two schemas share must be the same. */
  predicate Agree(a: map<string, Value>, b: map<string, Value>) {
    forall n | n in a && n in b :: a[n] == b[n]
  }

  function Merged(success: Schema, failure: Schema): Schema {
    map["type" := String("object"),
        "anyOf" := Array([Object(success - {"$defs"}), Object(failure - {"$defs"})]),
        "$defs" := Object(Dict(success, "$defs") + Dict(failure, "$defs"))]
  }

  /** Join the schemas; disagreeing definitions abort the construction. */
  method ToolOutputSchema(success: Schema, failure: Schema) returns (schema: Option<Schema>)
    requires "$defs" in success ==> success["$defs"].Object?
    ensures schema == if Agree(Dict(success, "$defs"), Dict(failure, "$defs"))
                      then Some(Merged(success, failure)) else None
  {
    var definitions := Dict(success, "$defs");
    var added := Dict(failure, "$defs");
    var todo := added.Keys;
    while todo != {}
      invariant todo <= added.Keys
      invariant definitions == Dict(success, "$defs") + map n | n in added && n !in todo :: added[n]
      invariant forall n | n in added && n in Dict(success, "$defs") && n !in todo ::
        added[n] == Dict(success, "$defs")[n]
      decreases todo
    {
      var n :| n in todo;
      if n in definitions && definitions[n] != added[n] {
        assert n in Dict(success, "$defs");
        return None;
      }
      definitions, todo := definitions[n := added[n]], todo - {n};
    }
    assert definitions == Dict(success, "$defs") + added;
    schema := Some(map["type" := String("object"),
                       "anyOf" := Array([Object(success - {"$defs"}), Object(failure - {"$defs"})]),
                       "$defs" := Object(definitions)]);
  }

  // ---- more definitions never change what a closed schema accepts

  /** Every reference below `v` names one of the definitions `names`. */
  ghost predicate RefsIn(names: set<string>, v: Value)
    decreases v, 0
  {
    v.Object? ==>
      && ("$ref" in v.fields ==> RefIn(names, v.fields["$ref"]))
      && forall k | k in v.fields :: ChildRefsIn(names, PositionOf(k), v.fields[k])
  }

  ghost predicate ChildRefsIn(names: set<string>, p: Position, v: Value)
    decreases v, 1
  {
    forall c | c in Children(p, v) :: RefsIn(names, c)
  }

  predicate RefIn(names: set<string>, ref: Value) {
    ref.String? && ref.s != "#" && REF_PREFIX <= ref.s && ref.s[|REF_PREFIX|..] in names
  }

  ghost predicate Closed(env: Env) {
    forall n | n in env.defs :: RefsIn(env.defs.Keys, env.defs[n])
  }

  /** `env2` has the definitions of `env`, and possibly more. */
  ghost predicate Extends(env: Env, env2: Env) {
    SameEngines(env, env2) && env.defs.Keys <= env2.defs.Keys && Agree(env.defs, env2.defs)
  }

  /** A schema whose references stay within closed definitions has the same outcomes
      under any larger set of definitions. */
  lemma {:induction false} EnlargingDefinitions(env: Env, env2: Env, fuel: nat, v: Value, i: Value)
    requires Closed(env) && Extends(env, env2) && RefsIn(env.defs.Keys, v)
    ensures Eval(env2, fuel, v, i) == Eval(env, fuel, v, i)
    decreases fuel, 1, v, 1
  {
    if v.Object? {
      EnlargedIsAlike(env, env2, fuel, v);
      EnlargedRefs(env, env2, fuel, v, i);
      ThroughoutCombineSame(env, v.fields, Inner(env, fuel, v), Target(env, fuel),
                            env2, v.fields, Inner(env2, fuel, v), Target(env2, fuel), i);
    }
  }

  lemma {:induction false} EnlargedIsAlike(env: Env, env2: Env, fuel: nat, v: Value)
    requires Closed(env) && Extends(env, env2) && RefsIn(env.defs.Keys, v) && v.Object?
    ensures AlikeThroughout(v.fields, Inner(env, fuel, v), v.fields, Inner(env2, fuel, v))
    decreases fuel, 1, v, 0
  {
    var m, ev, ev2 := v.fields, Inner(env, fuel, v), Inner(env2, fuel, v);
    forall k | k in m ensures SameAt(PositionOf(k), ev, m[k], ev2, m[k]) {
      var p := PositionOf(k);
      assert ChildRefsIn(env.defs.Keys, p, m[k]);
      forall c | c in Children(p, m[k]) ensures Same(ev, c, ev2, c) {
        ChildIsSmaller(m, k, p, c);
        InnerIsEval(env, fuel, v, c);
        InnerIsEval(env2, fuel, v, c);
        forall j ensures ev(c, j) == ev2(c, j) { EnlargingDefinitions(env, env2, fuel, c, j); }
      }
      SameAtItself(p, ev, m[k], ev2);
    }
  }

  lemma ResolveEnlarged(env: Env, env2: Env, ref: Value)
    requires Extends(env, env2) && RefIn(env.defs.Keys, ref)
    ensures Resolve(env, ref).Some? && Resolve(env, ref) == Resolve(env2, ref)
    ensures Closed(env) ==> RefsIn(env.defs.Keys, Resolve(env, ref).value)
  {}

  lemma {:induction false} EnlargedRefs(env: Env, env2: Env, fuel: nat, v: Value, i: Value)
    requires Closed(env) && Extends(env, env2) && RefsIn(env.defs.Keys, v) && v.Object?
    ensures RefOuts(env, v.fields, Target(env, fuel), i) == RefOuts(env2, v.fields, Target(env2, fuel), i)
    decreases fuel, 0, 1
  {
    if "$ref" in v.fields {
      ResolveEnlarged(env, env2, v.fields["$ref"]);
      EnlargedTarget(env, env2, fuel, Resolve(env, v.fields["$ref"]).value, i);
    }
  }

  lemma {:induction false} EnlargedTarget(env: Env, env2: Env, fuel: nat, t: Value, i: Value)
    requires Closed(env) && Extends(env, env2) && RefsIn(env.defs.Keys, t)
    ensures Target(env, fuel)(t, i) == Target(env2, fuel)(t, i)
    decreases fuel, 0, 0
  {
    if fuel > 0 { EnlargingDefinitions(env, env2, fuel - 1, t, i); }
  }

  // ---- the merged document

  lemma DroppedIsAlike(env: Env, fuel: nat, m: Schema, r: Schema, i: Value)
    requires r == m - {"$defs"}
    ensures Alike(m, Inner(env, fuel, Object(m)), r, Inner(env, fuel, Object(r)))
    ensures SameCore(m, Inner(env, fuel, Object(m)), r, Inner(env, fuel, Object(r)), i)
    ensures RefOuts(env, m, Target(env, fuel), i) == RefOuts(env, r, Target(env, fuel), i)
  {
    forall k | k in r
      ensures SameAt(PositionOf(k), Inner(env, fuel, Object(m)), m[k], Inner(env, fuel, Object(r)), r[k])
    {
      KeptSameAt(env, fuel, m, r, k);
    }
    DroppedCore(m, Inner(env, fuel, Object(m)), r, Inner(env, fuel, Object(r)), i);
    assert "$ref" in m <==> "$ref" in r;
  }

  lemma DroppedCombines(env: Env, fuel: nat, m: Schema, r: Schema, i: Value)
    requires r == m - {"$defs"}
    ensures Combine(env, m, Inner(env, fuel, Object(m)), Target(env, fuel), i)
         == Combine(env, r, Inner(env, fuel, Object(r)), Target(env, fuel), i)
  {
    DroppedIsAlike(env, fuel, m, r, i);
    CombineSame(env, m, Inner(env, fuel, Object(m)), Target(env, fuel),
                env, r, Inner(env, fuel, Object(r)), Target(env, fuel), i);
  }

  lemma DefinitionsAreNotRead(env: Env, fuel: nat, m: Schema, i: Value)
    ensures Eval(env, fuel, Object(m - {"$defs"}), i) == Eval(env, fuel, Object(m), i)
  {
    DroppedCombines(env, fuel, m, m - {"$defs"}, i);
    CombineAlikeMeansSame(env, m, env, m - {"$defs"}, fuel, i);
  }

  lemma KeptSameAt(env: Env, fuel: nat, m: Schema, r: Schema, k: string)
    requires k in m && k in r && m[k] == r[k]
    ensures SameAt(PositionOf(k), Inner(env, fuel, Object(m)), m[k], Inner(env, fuel, Object(r)), r[k])
  {
    var p := PositionOf(k);
    var ev, ev2 := Inner(env, fuel, Object(m)), Inner(env, fuel, Object(r));
    forall c | c in Children(p, m[k]) ensures Same(ev, c, ev2, c) {
      ChildIsSmaller(m, k, p, c);
      ChildIsSmaller(r, k, p, c);
      InnerIsEval(env, fuel, Object(m), c);
      InnerIsEval(env, fuel, Object(r), c);
    }
    SameAtItself(p, ev, m[k], ev2);
  }

  lemma DroppedCore(m: Schema, ev: Evaluator, r: Schema, ev2: Evaluator, i: Value)
    requires r == m - {"$defs"}
    requires forall k | k in r :: SameAt(PositionOf(k), ev, m[k], ev2, r[k])
    ensures SameCore(m, ev, r, ev2, i)
  {
    var n := map k | k in m && k != "$defs" :: m[k];
    assert n == r && AlikeThroughout(n, ev, r, ev2);
    ThroughoutCore(n, ev, r, ev2, i);
    assert ("type" in m <==> "type" in n) && ("allOf" in m <==> "allOf" in n) && ("anyOf" in m <==> "anyOf" in n);
    assert AllAnyOuts(m, ev, i) == AllAnyOuts(n, ev, i);
  }

  /** A branch of the merged document has the outcome its schema has on its own. */
  lemma BranchOutcome(env: Env, part: Schema, whole: Env, fuel: nat, i: Value)
    requires Closed(DocumentEnv(env, Object(part))) && Extends(DocumentEnv(env, Object(part)), whole)
    requires RefsIn(Dict(part, "$defs").Keys, Object(part))
    ensures Eval(whole, fuel, Object(part - {"$defs"}), i)
         == Eval(DocumentEnv(env, Object(part)), fuel, Object(part), i)
  {
    DefinitionsAreNotRead(whole, fuel, part, i);
    EnlargingDefinitions(DocumentEnv(env, Object(part)), whole, fuel, Object(part), i);
  }

  lemma ClosedDocument(env: Env, doc: Schema)
    requires RefsIn(Dict(doc, "$defs").Keys, Object(doc))
    ensures Closed(DocumentEnv(env, Object(doc)))
  {
    TypePosition();
    var defs := Dict(doc, "$defs");
    if "$defs" in doc && doc["$defs"].Object? {
      var v := Object(doc);
      assert ChildRefsIn(defs.Keys, PositionOf("$defs"), v.fields["$defs"]);
      assert forall n | n in defs :: defs[n] in Children(DictOf, v.fields["$defs"]);
    }
  }

  /** The merged schema accepts exactly the objects that the success schema accepts with its own
      definitions, or the failure schema with its own. */
  lemma MergedAcceptsEither(env: Env, success: Schema, failure: Schema, fuel: nat, i: Value)
    requires Agree(Dict(success, "$defs"), Dict(failure, "$defs"))
    requires RefsIn(Dict(success, "$defs").Keys, Object(success))
    requires RefsIn(Dict(failure, "$defs").Keys, Object(failure))
    ensures Accepts(env, Object(Merged(success, failure)), fuel, i) <==>
      i.Object? && (Accepts(env, Object(success), fuel, i) || Accepts(env, Object(failure), fuel, i))
  {
    var m := Merged(success, failure);
    var whole := DocumentEnv(env, Object(m));
    ClosedDocument(env, success);
    ClosedDocument(env, failure);
    BranchOutcome(env, success, whole, fuel, i);
    BranchOutcome(env, failure, whole, fuel, i);
    MergedOutcome(whole, fuel, success, failure, i);
  }

  lemma MergedShape(success: Schema, failure: Schema)
    ensures var m := Merged(success, failure);
      && Bare(m) && "allOf" !in m && "anyOf" in m && "type" in m && m["type"] == String("object")
      && m["anyOf"] == Array([Object(success - {"$defs"}), Object(failure - {"$defs"})])
  {}

  lemma MergedOutcome(whole: Env, fuel: nat, success: Schema, failure: Schema, i: Value)
    ensures Eval(whole, fuel, Object(Merged(success, failure)), i).ok <==>
      i.Object? && (Eval(whole, fuel, Object(success - {"$defs"}), i).ok ||
                    Eval(whole, fuel, Object(failure - {"$defs"}), i).ok)
  {
    MergedShape(success, failure);
    EitherOutcome(whole, fuel, Merged(success, failure), Object(success - {"$defs"}), Object(failure - {"$defs"}), i);
  }

  lemma EitherOutcome(whole: Env, fuel: nat, m: Schema, s: Value, f: Value, i: Value)
    requires Bare(m) && "allOf" !in m && "anyOf" in m && m["anyOf"] == Array([s, f])
    requires "type" in m && m["type"] == String("object")
    ensures Eval(whole, fuel, Object(m), i).ok <==>
      i.Object? && (Eval(whole, fuel, s, i).ok || Eval(whole, fuel, f, i).ok)
  {
    assert m["anyOf"].elems[0] == s && m["anyOf"].elems[1] == f;
    ChildIsSmaller(m, "anyOf", ListOf, s);
    ChildIsSmaller(m, "anyOf", ListOf, f);
    InnerIsEval(whole, fuel, Object(m), s);
    InnerIsEval(whole, fuel, Object(m), f);
    MergedCombine(whole, m, s, f, Inner(whole, fuel, Object(m)), Target(whole, fuel), i);
  }

  lemma MergedCombine(env: Env, m: Schema, s: Value, f: Value, ev: Evaluator, target: Evaluator, i: Value)
    requires Bare(m) && "allOf" !in m && "anyOf" in m && m["anyOf"] == Array([s, f])
    requires "type" in m && m["type"] == String("object")
    ensures Combine(env, m, ev, target, i).ok <==> i.Object? && (ev(s, i).ok || ev(f, i).ok)
  {
    BareMeaning(env, m, ev, target, i);
    var outs := ListOuts([s, f], ev, i);
    assert outs == [ev(s, i), ev(f, i)];
    assert (exists o | o in outs :: o.ok) <==> ev(s, i).ok || ev(f, i).ok by {
      assert outs[0] in outs && outs[1] in outs;
    }
  }

  // ---- joining rewritten schemas

  lemma GeneratedHasNoRefs(names: set<string>, values: seq<Value>)
    requires Portable(values)
    ensures ChildRefsIn(names, ListOf, Branches(values))
    ensures RefsIn(names, Object(map["anyOf" := Branches(values)]))
  {
    TypePosition();
    forall c | c in Branches(values).elems ensures RefsIn(names, c) {
      var j :| 0 <= j < |values| && c == TypeOnly(values[j]);
      assert "$ref" !in c.fields;
    }
    var m := map["anyOf" := Branches(values)];
    assert "$ref" !in m;
    forall k | k in m ensures ChildRefsIn(names, PositionOf(k), m[k]) { assert k == "anyOf"; }
  }

  lemma RewriteStaysClosed(names: set<string>, m: Schema, k: string)
    requires Rewritable(m) && RefsIn(names, Object(m)) && k in RewriteType(m)
    ensures ChildRefsIn(names, PositionOf(k), RewriteType(m)[k])
  {
    var r, v := RewriteType(m), Object(m);
    if k in m && r[k] == m[k] {
      assert ChildRefsIn(names, PositionOf(k), v.fields[k]);
    } else {
      TypePosition();
      GeneratedHasNoRefs(names, m["type"].elems);
      if "anyOf" in m && "allOf" in m { assert ChildRefsIn(names, PositionOf("allOf"), v.fields["allOf"]); }
    }
  }

  /** Rewriting introduces no reference. */
  lemma {:induction false} NormalizeStaysClosed(names: set<string>, v: Value)
    requires WellFormed(v) && RefsIn(names, v)
    ensures RefsIn(names, Normalize(v))
    decreases Weight(v)
  {
    if v.Object? {
      var r, t := RewriteType(v.fields), Normalize(v).fields;
      if "$ref" in t { RefUnchanged(v); }
      forall k | k in t ensures ChildRefsIn(names, PositionOf(k), t[k]) {
        var p := PositionOf(k);
        RewriteWellFormed(v.fields, k);
        RewriteStaysClosed(names, v.fields, k);
        forall d | d in Children(p, t[k]) ensures RefsIn(names, d) {
          NormalizeAtChild(p, r[k], d);
          var c :| c in Children(p, r[k]) && d == Normalize(c);
          NormalizedChildIsSmaller(v, k, c);
          NormalizeStaysClosed(names, c);
        }
      }
    }
  }

  lemma NormalizeKeepsDefinitionNames(doc: Value)
    requires WellFormed(doc) && doc.Object?
    ensures Dict(Fields(Normalize(doc)), "$defs").Keys == Dict(doc.fields, "$defs").Keys
  {
    TypePosition();
    var r := RewriteType(doc.fields);
    if "$defs" in doc.fields {
      RewriteWellFormed(doc.fields, "$defs");
      assert Normalize(doc).fields["$defs"] == NormalizeAt(PositionOf("$defs"), r["$defs"]);
    }
  }

  /** The advertised output schema, built from rewritten schemas, accepts exactly the objects that
      one of the two original documents accepts. */
  lemma AdvertisedSchemaAcceptsEither(env: Env, success: Value, failure: Value, fuel: nat, i: Value)
    requires success.Object? && WellFormed(success) && RefsIn(Dict(success.fields, "$defs").Keys, success)
    requires failure.Object? && WellFormed(failure) && RefsIn(Dict(failure.fields, "$defs").Keys, failure)
    requires Agree(Dict(Normalize(success).fields, "$defs"), Dict(Normalize(failure).fields, "$defs"))
    ensures Accepts(env, Object(Merged(Normalize(success).fields, Normalize(failure).fields)), fuel, i) <==>
      i.Object? && (Accepts(env, success, fuel, i) || Accepts(env, failure, fuel, i))
  {
    NormalizeStaysClosed(Dict(success.fields, "$defs").Keys, success);
    NormalizeStaysClosed(Dict(failure.fields, "$defs").Keys, failure);
    NormalizeKeepsDefinitionNames(success);
    NormalizeKeepsDefinitionNames(failure);
    MergedAcceptsEither(env, Normalize(success).fields, Normalize(failure).fields, fuel, i);
    NormalizedDocumentAcceptsTheSame(env, success, fuel, i);
    NormalizedDocumentAcceptsTheSame(env, failure, fuel, i);
  }
}
