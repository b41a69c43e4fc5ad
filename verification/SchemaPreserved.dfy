/** The rewriting of type unions accepts exactly the instances the original schema accepts. */
module SchemaPreserved {
  import opened Json
  import opened SchemaUnions
  import opened SchemaMeaning
  import opened SchemaAlike

  lemma InnerIsEval(env: Env, fuel: nat, s: Value, c: Value)
    requires c < s
    ensures forall j :: Inner(env, fuel, s)(c, j) == Eval(env, fuel, c, j)
  {}

  /** The outcome of an object is what its keywords combine to. */
  lemma CombinedOutcome(env: Env, fuel: nat, m: map<string, Value>, i: Value, o: Outcome)
    requires Combine(env, m, Inner(env, fuel, Object(m)), Target(env, fuel), i) == o
    ensures Eval(env, fuel, Object(m), i) == o
  {}

  lemma CombineAlikeMeansSame(env: Env, m: map<string, Value>, env2: Env, m2: map<string, Value>, fuel: nat, i: Value)
    ensures Combine(env, m, Inner(env, fuel, Object(m)), Target(env, fuel), i)
         == Combine(env2, m2, Inner(env2, fuel, Object(m2)), Target(env2, fuel), i)
      ==> Eval(env, fuel, Object(m), i) == Eval(env2, fuel, Object(m2), i)
  {
    CombinedOutcome(env, fuel, m, i, Combine(env, m, Inner(env, fuel, Object(m)), Target(env, fuel), i));
    CombinedOutcome(env2, fuel, m2, i, Combine(env2, m2, Inner(env2, fuel, Object(m2)), Target(env2, fuel), i));
  }

  /** A schema applied through a reference has one unit of fuel less. */
  lemma TargetOutcome(env: Env, fuel: nat, s: Value, i: Value, o: Outcome)
    requires fuel > 0 && Eval(env, fuel - 1, s, i) == o
    ensures Target(env, fuel)(s, i) == o
  {}

  lemma NoFuelLeft(env: Env, s: Value, i: Value)
    ensures Target(env, 0)(s, i) == REJECT
  {}

  lemma ChildIsSmaller(m: map<string, Value>, k: string, p: Position, c: Value)
    requires k in m && c in Children(p, m[k])
    ensures c < Object(m)
  {
    var v := Object(m);
    assert v.fields[k] < v;
  }

  // ---- the rewriting of one object

  ghost predicate Bare(m: map<string, Value>) { forall k | k in m :: Exempt(k) }

  lemma BareHasNo(m: map<string, Value>)
    requires Bare(m)
    ensures "$ref" !in m && "if" !in m && "oneOf" !in m && "not" !in m
    ensures "dependentSchemas" !in m && "dependencies" !in m
    ensures "properties" !in m && "patternProperties" !in m && "additionalProperties" !in m && "propertyNames" !in m
    ensures "prefixItems" !in m && "items" !in m && "additionalItems" !in m && "contains" !in m
    ensures "unevaluatedProperties" !in m && "unevaluatedItems" !in m
  {}

  lemma BareOthers(env: Env, m: map<string, Value>, ev: Evaluator, target: Evaluator, i: Value)
    requires Bare(m)
    ensures OtherOuts(env, m, ev, target, i) == {} && OthersOk(env, m, ev, target, i)
    ensures OwnProps(env, m, i) == {} && PropertiesOk(env, m, ev, i)
  {
    BareHasNo(m);
    assert forall key :: !Matched(env, m, key);
  }

  lemma BareItems(m: map<string, Value>, ev: Evaluator, props: set<string>, items: set<nat>, i: Value)
    requires Bare(m)
    ensures OwnItems(m, ev, i) == {} && ItemsOk(m, ev, i) && UnevaluatedOk(m, ev, props, items, i)
  {
    BareHasNo(m);
  }

  lemma BareAssertions(env: Env, m: map<string, Value>, i: Value)
    requires Bare(m)
    ensures AssertionsOk(env, m, i)
  {
    TypePosition();
  }

  /** A schema with nothing but `type`, `allOf`, `anyOf` and definitions evaluates only what those do. */
  lemma BareMeaning(env: Env, m: map<string, Value>, ev: Evaluator, target: Evaluator, i: Value)
    requires Bare(m)
    ensures Combine(env, m, ev, target, i)
         == if TypeOk(m, i) && AllAnyOk(m, ev, i)
            then Outcome(true, SeenProps(AllAnyOuts(m, ev, i)), SeenItems(AllAnyOuts(m, ev, i))) else REJECT
  {
    BareOthers(env, m, ev, target, i);
    BareAssertions(env, m, i);
    var outs := AllAnyOuts(m, ev, i);
    assert outs + {} == outs;
    BareItems(m, ev, SeenProps(outs) + OwnProps(env, m, i), SeenItems(outs) + OwnItems(m, ev, i), i);
    BareItems(m, ev, SeenProps(outs), SeenItems(outs), i);
    assert SeenProps(outs) + {} == SeenProps(outs) && SeenItems(outs) + {} == SeenItems(outs);
    BareHasNo(m);
  }

  /** `{"type": name}` accepts exactly the instances of the type, and evaluates nothing. */
  lemma TypeOnlyMeaning(env: Env, fuel: nat, name: Value, i: Value)
    requires name.String?
    ensures Eval(env, fuel, TypeOnly(name), i) == Outcome(HasType(name.s, i), {}, {})
  {
    var m := map["type" := name];
    var ev, target := Inner(env, fuel, TypeOnly(name)), Target(env, fuel);
    assert "allOf" !in m && "anyOf" !in m;
    BareMeaning(env, m, ev, target, i);
    assert AllAnyOuts(m, ev, i) == {};
    CombinedOutcome(env, fuel, m, i, Outcome(HasType(name.s, i), {}, {}));
  }

  lemma BranchesMeaning(env: Env, fuel: nat, names: seq<Value>, ev: Evaluator, i: Value)
    requires Portable(names)
    requires forall c | c in Branches(names).elems :: ev(c, i) == Eval(env, fuel, c, i)
    ensures ListOuts(Branches(names).elems, ev, i)
         == seq(|names|, j requires 0 <= j < |names| => Outcome(HasType(names[j].s, i), {}, {}))
  {
    forall j | 0 <= j < |names|
      ensures ListOuts(Branches(names).elems, ev, i)[j] == Outcome(HasType(names[j].s, i), {}, {})
    {
      TypeOnlyMeaning(env, fuel, names[j], i);
      assert Branches(names).elems[j] == TypeOnly(names[j]);
    }
  }

  lemma UnionCore(m: map<string, Value>, names: seq<Value>, ev: Evaluator, i: Value)
    requires Portable(names) && "anyOf" in m && m["anyOf"] == Branches(names)
    requires ListOuts(Branches(names).elems, ev, i)
          == seq(|names|, j requires 0 <= j < |names| => Outcome(HasType(names[j].s, i), {}, {}))
    ensures (exists o | o in ListOuts(List(m, "anyOf"), ev, i) :: o.ok) <==> TypeOk(map["type" := Array(names)], i)
    ensures forall o | o in ListOuts(List(m, "anyOf"), ev, i) :: o.props == {} && o.items == {}
  {
    var outs := ListOuts(List(m, "anyOf"), ev, i);
    if j :| 0 <= j < |names| && HasType(names[j].s, i) { assert outs[j] in outs && outs[j].ok; }
  }

  lemma UnionCombine(env: Env, m: map<string, Value>, names: seq<Value>, ev: Evaluator, target: Evaluator, i: Value)
    requires Portable(names) && Bare(m) && "anyOf" in m && "allOf" !in m && "type" !in m
    requires m["anyOf"] == Branches(names)
    requires ListOuts(Branches(names).elems, ev, i)
          == seq(|names|, j requires 0 <= j < |names| => Outcome(HasType(names[j].s, i), {}, {}))
    ensures Combine(env, m, ev, target, i) == Outcome(TypeOk(map["type" := Array(names)], i), {}, {})
  {
    UnionCore(m, names, ev, i);
    BareMeaning(env, m, ev, target, i);
    var outs := AllAnyOuts(m, ev, i);
    assert SeenProps(outs) == {} && SeenItems(outs) == {};
  }

  /** `{"anyOf": branches}` accepts exactly what the type array accepts, and evaluates nothing. */
  lemma UnionMeaning(env: Env, fuel: nat, names: seq<Value>, i: Value)
    requires Portable(names)
    ensures Eval(env, fuel, Object(map["anyOf" := Branches(names)]), i)
         == Outcome(TypeOk(map["type" := Array(names)], i), {}, {})
  {
    var m := map["anyOf" := Branches(names)];
    assert "allOf" !in m && "type" !in m;
    UnionBranchesMeaning(env, fuel, m, names, i);
    UnionCombine(env, m, names, Inner(env, fuel, Object(m)), Target(env, fuel), i);
    CombinedOutcome(env, fuel, m, i, Outcome(TypeOk(map["type" := Array(names)], i), {}, {}));
  }

  lemma UnionBranchesMeaning(env: Env, fuel: nat, m: map<string, Value>, names: seq<Value>, i: Value)
    requires Portable(names) && "anyOf" in m && m["anyOf"] == Branches(names)
    ensures ListOuts(Branches(names).elems, Inner(env, fuel, Object(m)), i)
         == seq(|names|, j requires 0 <= j < |names| => Outcome(HasType(names[j].s, i), {}, {}))
  {
    forall c | c in Branches(names).elems
      ensures Inner(env, fuel, Object(m))(c, i) == Eval(env, fuel, c, i)
    {
      ChildIsSmaller(m, "anyOf", ListOf, c);
      InnerIsEval(env, fuel, Object(m), c);
    }
    BranchesMeaning(env, fuel, names, Inner(env, fuel, Object(m)), i);
  }

  // ---- the rewriting of one object

  /** Values whose subschemas keep their outcomes can stand for themselves. */
  lemma SameAtItself(p: Position, ev: Evaluator, v: Value, ev2: Evaluator)
    requires forall c | c in Children(p, v) :: Same(ev, c, ev2, c)
    ensures SameAt(p, ev, v, ev2, v)
  {
    match p
    case DictOf => if v.Object? { assert forall n | n in v.fields :: v.fields[n] in Children(p, v); }
    case _ =>
  }

  lemma RewriteIsAlike(env: Env, fuel: nat, m: map<string, Value>)
    requires Rewritable(m)
    ensures Alike(m, Inner(env, fuel, Object(m)), RewriteType(m), Inner(env, fuel, Object(RewriteType(m))))
  {
    var r := RewriteType(m);
    var ev, ev2 := Inner(env, fuel, Object(m)), Inner(env, fuel, Object(r));
    forall k | !Exempt(k) && k in m ensures SameAt(PositionOf(k), ev, m[k], ev2, r[k]) {
      var p := PositionOf(k);
      forall c | c in Children(p, m[k]) ensures Same(ev, c, ev2, c) {
        ChildIsSmaller(m, k, p, c);
        ChildIsSmaller(r, k, p, c);
        InnerIsEval(env, fuel, Object(m), c);
        InnerIsEval(env, fuel, Object(r), c);
      }
      SameAtItself(p, ev, m[k], ev2);
    }
  }

  lemma KeptListOuts(env: Env, fuel: nat, m: map<string, Value>, r: map<string, Value>, k: string,
                     es: seq<Value>, i: Value)
    requires k in m && k in r && m[k].Array? && r[k].Array?
    requires es <= m[k].elems && es <= r[k].elems
    ensures ListOuts(es, Inner(env, fuel, Object(m)), i) == ListOuts(es, Inner(env, fuel, Object(r)), i)
  {
    forall c | c in es
      ensures Inner(env, fuel, Object(m))(c, i) == Inner(env, fuel, Object(r))(c, i)
    {
      assert c in Children(ListOf, m[k]) && c in Children(ListOf, r[k]);
      ChildIsSmaller(m, k, ListOf, c);
      ChildIsSmaller(r, k, ListOf, c);
      InnerIsEval(env, fuel, Object(m), c);
      InnerIsEval(env, fuel, Object(r), c);
    }
  }

  lemma SeenIgnoresEmpty(a: set<Outcome>, b: set<Outcome>)
    requires forall o | o in b :: o.props == {} && o.items == {}
    ensures SeenProps(a + b) == SeenProps(a) && SeenItems(a + b) == SeenItems(a)
  {}

  /** With no `anyOf` yet, the branches take its place. */
  lemma NewAnyOfCore(m: map<string, Value>, ev: Evaluator, r: map<string, Value>, ev2: Evaluator,
                     names: seq<Value>, i: Value)
    requires Portable(names) && "type" in m && m["type"] == Array(names) && "anyOf" !in m
    requires "type" !in r && "anyOf" in r && r["anyOf"] == Branches(names)
    requires ListOuts(List(m, "allOf"), ev, i) == ListOuts(List(r, "allOf"), ev2, i)
    requires ListOuts(Branches(names).elems, ev2, i)
          == seq(|names|, j requires 0 <= j < |names| => Outcome(HasType(names[j].s, i), {}, {}))
    ensures SameCore(m, ev, r, ev2, i)
  {
    UnionCore(r, names, ev2, i);
    var added := set o | o in ListOuts(List(r, "anyOf"), ev2, i);
    SeenIgnoresEmpty(AllAnyOuts(m, ev, i), added);
    assert AllAnyOuts(r, ev2, i) == AllAnyOuts(m, ev, i) + added;
  }

  /** With an `anyOf` in place, the branches become one more member of `allOf`. */
  lemma NewAllOfCore(m: map<string, Value>, ev: Evaluator, r: map<string, Value>, ev2: Evaluator, i: Value)
    requires "anyOf" in m && "anyOf" in r && "type" !in r
    requires ListOuts(List(m, "anyOf"), ev, i) == ListOuts(List(r, "anyOf"), ev2, i)
    requires ListOuts(List(r, "allOf"), ev2, i)
          == ListOuts(List(m, "allOf"), ev, i) + [Outcome(TypeOk(m, i), {}, {})]
    ensures SameCore(m, ev, r, ev2, i)
  {
    var outs, outs2 := ListOuts(List(m, "allOf"), ev, i), ListOuts(List(r, "allOf"), ev2, i);
    var added := {Outcome(TypeOk(m, i), {}, {})};
    SeenIgnoresEmpty(AllAnyOuts(m, ev, i), added);
    assert AllAnyOuts(r, ev2, i) == AllAnyOuts(m, ev, i) + added;
    assert (forall o | o in outs2 :: o.ok) <==> (forall o | o in outs :: o.ok) && TypeOk(m, i) by {
      assert outs2[|outs|] in outs2;
    }
  }

  lemma RewriteCoreNewAnyOf(env: Env, fuel: nat, m: map<string, Value>, i: Value)
    requires HasUnion(m) && "anyOf" !in m
    ensures SameCore(m, Inner(env, fuel, Object(m)), RewriteType(m), Inner(env, fuel, Object(RewriteType(m))), i)
  {
    var r := RewriteType(m);
    var names := m["type"].elems;
    var ev, ev2 := Inner(env, fuel, Object(m)), Inner(env, fuel, Object(r));
    assert "type" !in r && r["anyOf"] == Branches(names);
    forall c | c in Branches(names).elems ensures ev2(c, i) == Eval(env, fuel, c, i) {
      ChildIsSmaller(r, "anyOf", ListOf, c);
      InnerIsEval(env, fuel, Object(r), c);
    }
    BranchesMeaning(env, fuel, names, ev2, i);
    assert ("allOf" in m <==> "allOf" in r) && ("allOf" in m ==> r["allOf"] == m["allOf"]);
    if "allOf" in m && m["allOf"].Array? { KeptListOuts(env, fuel, m, r, "allOf", m["allOf"].elems, i); }
    NewAnyOfCore(m, ev, r, ev2, names, i);
  }

  lemma RewriteCoreNewAllOf(env: Env, fuel: nat, m: map<string, Value>, i: Value)
    requires Rewritable(m) && HasUnion(m) && "anyOf" in m
    ensures SameCore(m, Inner(env, fuel, Object(m)), RewriteType(m), Inner(env, fuel, Object(RewriteType(m))), i)
  {
    var r := RewriteType(m);
    var names := m["type"].elems;
    var ev, ev2 := Inner(env, fuel, Object(m)), Inner(env, fuel, Object(r));
    var union := Object(map["anyOf" := Branches(names)]);
    var prior := List(m, "allOf");
    assert "type" !in r && r["allOf"].elems == prior + [union] && r["allOf"].elems[|prior|] == union;
    assert r["anyOf"] == m["anyOf"];
    AddedMemberOut(env, fuel, m, i);
    if "allOf" in m { KeptListOuts(env, fuel, m, r, "allOf", prior, i); }
    assert ListOuts(List(r, "allOf"), ev2, i) == ListOuts(prior, ev, i) + [Outcome(TypeOk(m, i), {}, {})];
    if m["anyOf"].Array? { KeptListOuts(env, fuel, m, r, "anyOf", m["anyOf"].elems, i); }
    NewAllOfCore(m, ev, r, ev2, i);
  }

  lemma AddedMemberOut(env: Env, fuel: nat, m: map<string, Value>, i: Value)
    requires Rewritable(m) && HasUnion(m) && "anyOf" in m
    ensures Inner(env, fuel, Object(RewriteType(m)))(Object(map["anyOf" := Branches(m["type"].elems)]), i)
         == Outcome(TypeOk(m, i), {}, {})
  {
    var r := RewriteType(m);
    var union := Object(map["anyOf" := Branches(m["type"].elems)]);
    assert r["allOf"].elems[|List(m, "allOf")|] == union;
    ChildIsSmaller(r, "allOf", ListOf, union);
    InnerIsEval(env, fuel, Object(r), union);
    UnionOfType(env, fuel, m, i);
  }

  lemma UnionOfType(env: Env, fuel: nat, m: map<string, Value>, i: Value)
    requires HasUnion(m)
    ensures Eval(env, fuel, Object(map["anyOf" := Branches(m["type"].elems)]), i) == Outcome(TypeOk(m, i), {}, {})
  {
    UnionMeaning(env, fuel, m["type"].elems, i);
    assert TypeOk(map["type" := Array(m["type"].elems)], i) == TypeOk(m, i);
  }

  lemma RewriteKeepsRefs(env: Env, m: map<string, Value>, target: Evaluator, i: Value)
    requires Rewritable(m)
    ensures RefOuts(env, m, target, i) == RefOuts(env, RewriteType(m), target, i)
  {
    assert !Exempt("$ref");
  }

  lemma RewriteCombines(env: Env, fuel: nat, m: map<string, Value>, r: map<string, Value>, i: Value)
    requires Rewritable(m) && HasUnion(m) && r == RewriteType(m)
    ensures Combine(env, m, Inner(env, fuel, Object(m)), Target(env, fuel), i)
         == Combine(env, r, Inner(env, fuel, Object(r)), Target(env, fuel), i)
  {
    var ev, ev2, target := Inner(env, fuel, Object(m)), Inner(env, fuel, Object(r)), Target(env, fuel);
    assert Alike(m, ev, r, ev2) by { RewriteIsAlike(env, fuel, m); }
    assert SameCore(m, ev, r, ev2, i) by {
      if "anyOf" in m { RewriteCoreNewAllOf(env, fuel, m, i); } else { RewriteCoreNewAnyOf(env, fuel, m, i); }
    }
    assert RefOuts(env, m, target, i) == RefOuts(env, r, target, i) by { RewriteKeepsRefs(env, m, target, i); }
    CombineSame(env, m, ev, target, env, r, ev2, target, i);
  }

  /** Rewriting one object changes no outcome. */
  lemma RewritePreserves(env: Env, fuel: nat, m: map<string, Value>, i: Value)
    requires Rewritable(m)
    ensures Eval(env, fuel, Object(RewriteType(m)), i) == Eval(env, fuel, Object(m), i)
  {
    if HasUnion(m) {
      RewriteCombines(env, fuel, m, RewriteType(m), i);
      CombineAlikeMeansSame(env, m, env, RewriteType(m), fuel, i);
    }
  }

  // ---- the rewriting at every position, through every reference

  ghost predicate EnvWellFormed(env: Env) {
    WellFormed(env.root) && forall n | n in env.defs :: WellFormed(env.defs[n])
  }

  /** The definitions and root of the rewritten document. */
  ghost function NormalizeEnv(env: Env): Env
    requires EnvWellFormed(env)
  {
    env.(root := Normalize(env.root), defs := map n | n in env.defs :: Normalize(env.defs[n]))
  }

  lemma SameAtNormalized(p: Position, ev: Evaluator, v: Value, ev2: Evaluator)
    requires ChildrenWellFormed(p, v)
    requires forall c | c in Children(p, v) :: Same(ev, c, ev2, Normalize(c))
    ensures SameAt(p, ev, v, ev2, NormalizeAt(p, v))
  {
    match p
    case DictOf => if v.Object? { assert forall n | n in v.fields :: v.fields[n] in Children(p, v); }
    case _ =>
  }

  lemma NormalizedChildIsSmaller(v: Value, k: string, c: Value)
    requires WellFormed(v) && v.Object? && k in RewriteType(v.fields)
    requires c in Children(PositionOf(k), RewriteType(v.fields)[k])
    ensures WellFormed(c) && c < Object(RewriteType(v.fields)) && Normalize(c) < Normalize(v)
    ensures Weight(c) < Weight(v)
  {
    var r, p := RewriteType(v.fields), PositionOf(k);
    RewriteWellFormed(v.fields, k);
    RewriteWeighsLess(v.fields, k, p, c);
    ChildIsSmaller(r, k, p, c);
    NormalizedChildIsChild(p, r[k], c);
    assert Normalize(v).fields[k] == NormalizeAt(p, r[k]);
    ChildIsSmaller(Normalize(v).fields, k, p, Normalize(c));
  }

  lemma NormalizedChildIsChild(p: Position, v: Value, c: Value)
    requires ChildrenWellFormed(p, v) && c in Children(p, v)
    ensures Normalize(c) in Children(p, NormalizeAt(p, v))
  {
    if v.Array? && (p == ListOf || p == ItemsOf) {
      var j :| 0 <= j < |v.elems| && v.elems[j] == c;
      assert NormalizeAt(p, v).elems[j] == Normalize(c);
    } else if p == DictOf {
      var j :| j in v.fields && v.fields[j] == c;
      assert NormalizeAt(p, v).fields[j] == Normalize(c);
    }
  }

  /** The rewritten schema, read against the rewritten document, has every outcome of the original:
      the same verdict and the same evaluated properties and items, at any fuel. */
  lemma {:induction false} NormalizePreserves(env: Env, fuel: nat, v: Value, i: Value)
    requires WellFormed(v) && EnvWellFormed(env)
    ensures Eval(NormalizeEnv(env), fuel, Normalize(v), i) == Eval(env, fuel, v, i)
    decreases fuel, Weight(v) + 1, 1
  {
    if v.Object? {
      NormalizedIsAlike(env, fuel, v);
      NormalizedRefs(env, fuel, v, i);
      NormalizedCombines(env, fuel, v, i);
      RewritePreserves(env, fuel, v.fields, i);
    }
  }

  lemma NormalizedCombines(env: Env, fuel: nat, v: Value, i: Value)
    requires WellFormed(v) && EnvWellFormed(env) && v.Object?
    requires AlikeThroughout(RewriteType(v.fields), Inner(env, fuel, Object(RewriteType(v.fields))),
                             Normalize(v).fields, Inner(NormalizeEnv(env), fuel, Normalize(v)))
    requires RefOuts(env, RewriteType(v.fields), Target(env, fuel), i)
          == RefOuts(NormalizeEnv(env), Normalize(v).fields, Target(NormalizeEnv(env), fuel), i)
    ensures Eval(NormalizeEnv(env), fuel, Normalize(v), i) == Eval(env, fuel, Object(RewriteType(v.fields)), i)
  {
    var r, t, env2 := RewriteType(v.fields), Normalize(v).fields, NormalizeEnv(env);
    ThroughoutCombineSame(env, r, Inner(env, fuel, Object(r)), Target(env, fuel),
                          env2, t, Inner(env2, fuel, Normalize(v)), Target(env2, fuel), i);
    assert Normalize(v) == Object(t);
    CombineAlikeMeansSame(env, r, env2, t, fuel, i);
  }

  lemma {:induction false} NormalizedIsAlike(env: Env, fuel: nat, v: Value)
    requires WellFormed(v) && EnvWellFormed(env) && v.Object?
    ensures AlikeThroughout(RewriteType(v.fields), Inner(env, fuel, Object(RewriteType(v.fields))),
                            Normalize(v).fields, Inner(NormalizeEnv(env), fuel, Normalize(v)))
    decreases fuel, Weight(v) + 1, 0
  {
    var r, t, env2 := RewriteType(v.fields), Normalize(v).fields, NormalizeEnv(env);
    var ev, ev2 := Inner(env, fuel, Object(r)), Inner(env2, fuel, Normalize(v));
    forall k | k in r ensures SameAt(PositionOf(k), ev, r[k], ev2, t[k]) {
      var p := PositionOf(k);
      RewriteWellFormed(v.fields, k);
      forall c | c in Children(p, r[k]) ensures Same(ev, c, ev2, Normalize(c)) {
        NormalizedChildIsSmaller(v, k, c);
        InnerIsEval(env, fuel, Object(r), c);
        InnerIsEval(env2, fuel, Normalize(v), Normalize(c));
        forall j ensures ev(c, j) == ev2(Normalize(c), j) { NormalizePreserves(env, fuel, c, j); }
      }
      SameAtNormalized(p, ev, r[k], ev2);
    }
  }

  lemma RefUnchanged(v: Value)
    requires WellFormed(v) && v.Object? && "$ref" in RewriteType(v.fields)
    ensures Normalize(v).fields["$ref"] == RewriteType(v.fields)["$ref"]
  {
    Positions();
    var r := RewriteType(v.fields);
    RewriteWellFormed(v.fields, "$ref");
    assert NormalizeAt(PositionOf("$ref"), r["$ref"]) == r["$ref"];
  }

  /** A reference names the normal form of what it named. */
  lemma ResolveNormalized(env: Env, ref: Value)
    requires EnvWellFormed(env)
    ensures Resolve(env, ref).Some? == Resolve(NormalizeEnv(env), ref).Some?
    ensures Resolve(env, ref).Some? ==> WellFormed(Resolve(env, ref).value)
    ensures Resolve(env, ref).Some? ==> Resolve(NormalizeEnv(env), ref).value == Normalize(Resolve(env, ref).value)
  {}

  lemma {:induction false} NormalizedRefs(env: Env, fuel: nat, v: Value, i: Value)
    requires WellFormed(v) && EnvWellFormed(env) && v.Object?
    ensures RefOuts(env, RewriteType(v.fields), Target(env, fuel), i)
         == RefOuts(NormalizeEnv(env), Normalize(v).fields, Target(NormalizeEnv(env), fuel), i)
    decreases fuel, Weight(v) + 1, 0
  {
    var r := RewriteType(v.fields);
    if "$ref" in r {
      RefUnchanged(v);
      ResolveNormalized(env, r["$ref"]);
      if Resolve(env, r["$ref"]).Some? {
        NormalizedTarget(env, fuel, Resolve(env, r["$ref"]).value, i);
      }
    }
  }

  lemma {:induction false} NormalizedTarget(env: Env, fuel: nat, s: Value, i: Value)
    requires WellFormed(s) && EnvWellFormed(env)
    ensures Target(env, fuel)(s, i) == Target(NormalizeEnv(env), fuel)(Normalize(s), i)
    decreases fuel, 0, 1
  {
    if fuel == 0 {
      NoFuelLeft(env, s, i);
      NoFuelLeft(NormalizeEnv(env), Normalize(s), i);
    } else {
      NormalizedSpender(env, fuel, s, i);
    }
  }

  lemma {:induction false} NormalizedSpender(env: Env, fuel: nat, s: Value, i: Value)
    requires WellFormed(s) && EnvWellFormed(env) && fuel > 0
    ensures Target(env, fuel)(s, i) == Target(NormalizeEnv(env), fuel)(Normalize(s), i)
    decreases fuel, 0, 0
  {
    var o := Eval(env, fuel - 1, s, i);
    assert Eval(NormalizeEnv(env), fuel - 1, Normalize(s), i) == o by { NormalizePreserves(env, fuel - 1, s, i); }
    TargetOutcome(env, fuel, s, i, o);
    TargetOutcome(NormalizeEnv(env), fuel, Normalize(s), i, o);
  }

  /** Outside `type`, `anyOf` and `allOf` the rewriting keeps every member, and it never looks into
      a value that is not a schema. */
  lemma DataIsUntouched(v: Value, k: string)
    requires WellFormed(v) && v.Object?
    ensures !Exempt(k) ==> (k in Normalize(v).fields <==> k in v.fields)
    ensures !Exempt(k) && k in v.fields && PositionOf(k) == Data ==> Normalize(v).fields[k] == v.fields[k]
    ensures k in {"enum", "const", "default", "examples", "required"} ==> !Exempt(k) && PositionOf(k) == Data
  {
    var r := RewriteType(v.fields);
    if !Exempt(k) && k in v.fields && PositionOf(k) == Data {
      RewriteWellFormed(v.fields, k);
      assert NormalizeAt(PositionOf(k), r[k]) == r[k];
    }
  }

  // ---- whole documents

  /** A document read against its own definitions, with the engines of `env`. */
  function DocumentEnv(env: Env, doc: Value): Env {
    env.(root := doc, defs := Dict(Fields(doc), "$defs"))
  }

  ghost predicate Accepts(env: Env, doc: Value, fuel: nat, i: Value) {
    Eval(DocumentEnv(env, doc), fuel, doc, i).ok
  }

  lemma DefinitionsNormalized(env: Env, doc: Value)
    requires WellFormed(doc)
    ensures EnvWellFormed(DocumentEnv(env, doc))
    ensures NormalizeEnv(DocumentEnv(env, doc)) == DocumentEnv(env, Normalize(doc))
  {
    TypePosition();
    var defs := Dict(Fields(doc), "$defs");
    if doc.Object? && "$defs" in doc.fields {
      assert ChildrenWellFormed(PositionOf("$defs"), doc.fields["$defs"]);
      assert forall n | n in defs :: defs[n] in Children(DictOf, doc.fields["$defs"]);
      DefinitionsRewritten(doc);
    }
  }

  lemma DefinitionsRewritten(doc: Value)
    requires WellFormed(doc) && doc.Object? && "$defs" in doc.fields
    ensures Normalize(doc).Object? && "$defs" in Normalize(doc).fields
    ensures Normalize(doc).fields["$defs"] == NormalizeAt(PositionOf("$defs"), doc.fields["$defs"])
  {
    var r := RewriteType(doc.fields);
    RewriteWellFormed(doc.fields, "$defs");
    assert "$defs" in r && r["$defs"] == doc.fields["$defs"];
  }

  /** A rewritten document accepts exactly the instances the original document accepts. */
  lemma NormalizedDocumentAcceptsTheSame(env: Env, doc: Value, fuel: nat, i: Value)
    requires WellFormed(doc)
    ensures Accepts(env, Normalize(doc), fuel, i) <==> Accepts(env, doc, fuel, i)
  {
    DefinitionsNormalized(env, doc);
    NormalizePreserves(DocumentEnv(env, doc), fuel, doc, i);
  }
}
