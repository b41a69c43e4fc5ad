/** Operation filters: the upstream query they compile to, its meaning, and the local filter. */
module Operations {
  import opened Json
  import opened Sequences
  import opened Strings
  import opened Inventory

  datatype Target = Target(kind: string, id: string)

  /** The fields of an update that filters look at. */
  datatype Operation = Operation(operation: string, status: string, success: bool, startTs: int, target: Option<Target>)

  datatype Status = Queued | InProgress | Complete | Other

  datatype Query = Query(target: Option<Target>, operation: Option<string>, status: Option<Status>,
                         success: Option<bool>, startedAfter: Option<int>, startedBefore: Option<int>)

  // ---- the local filter

  predicate StatusMatches(wanted: Status, status: string) {
    match wanted
    case Queued => status == "Queued"
    case InProgress => status == "InProgress"
    case Complete => status == "Complete"
    case Other => status != "Queued" && status != "InProgress" && status != "Complete"
  }

  predicate Matches(q: Query, o: Operation) {
    && (q.target.Some? ==> o.target == q.target)
    && (q.operation.Some? ==> o.operation == q.operation.value)
    && (q.status.Some? ==> StatusMatches(q.status.value, o.status))
    && (q.success.Some? ==> o.success == q.success.value)
    && (q.startedAfter.Some? ==> o.startTs >= q.startedAfter.value)
    && (q.startedBefore.Some? ==> o.startTs < q.startedBefore.value)
  }

  // ---- the compiled query

  type Fields = map<string, Value>

  const KNOWN: seq<Value> := [String("Queued"), String("InProgress"), String("Complete")]

  function TargetFields(t: Option<Target>): Fields {
    if t.None? then map[] else map["target.type" := String(t.value.kind), "target.id" := String(t.value.id)]
  }

  function OperationFields(operation: Option<string>): Fields {
    if operation.None? then map[] else map["operation" := String(operation.value)]
  }

  function StatusValue(status: Status): Value {
    match status
    case Queued => String("Queued")
    case InProgress => String("InProgress")
    case Complete => String("Complete")
    case Other => Object(map["$nin" := Array(KNOWN)])
  }

  function StatusFields(status: Option<Status>): Fields {
    if status.None? then map[] else map["status" := StatusValue(status.value)]
  }

  function SuccessFields(success: Option<bool>): Fields {
    if success.None? then map[] else map["success" := Bool(success.value)]
  }

  function Window(after: Option<int>, before: Option<int>): Fields {
    (if after.None? then map[] else map["$gte" := Number(after.value as real)])
    + (if before.None? then map[] else map["$lt" := Number(before.value as real)])
  }

  function TimeFields(after: Option<int>, before: Option<int>): Fields {
    if after.None? && before.None? then map[] else map["start_ts" := Object(Window(after, before))]
  }

  function Compiled(q: Query): Fields {
    TargetFields(q.target) + OperationFields(q.operation) + StatusFields(q.status) + SuccessFields(q.success)
    + TimeFields(q.startedAfter, q.startedBefore)
  }

  method Times(after: Option<int>, before: Option<int>) returns (time: Fields)
    ensures time == Window(after, before) && (time == map[] <==> after.None? && before.None?)
  {
    time := map[];
    if after.Some? { time := time["$gte" := Number(after.value as real)]; }
    if before.Some? { time := time["$lt" := Number(before.value as real)]; }
    assert after.Some? ==> "$gte" in time;
    assert before.Some? ==> "$lt" in time;
  }

  /** The query document, none when it would be empty. */
  method UpstreamQuery(q: Query) returns (r: Option<Value>)
    ensures r == if Compiled(q) == map[] then None else Some(Object(Compiled(q)))
    ensures r.None? <==> q == Query(None, None, None, None, None, None)
    ensures forall o :: Accepts(r, o) <==> Matches(q, o)
  {
    var query: Fields := map[];
    if q.target.Some? {
      query := query["target.type" := String(q.target.value.kind)];
      query := query["target.id" := String(q.target.value.id)];
    }
    assert query == TargetFields(q.target);
    query := WithConditions(query, q);
    ghost var staged := query;
    var time := Times(q.startedAfter, q.startedBefore);
    if time != map[] { query := query["start_ts" := Object(time)]; }
    assert query == staged + TimeFields(q.startedAfter, q.startedBefore);
    CompiledIsEmpty(q);
    forall o ensures Evaluates(Compiled(q), Stored(o)) <==> Matches(q, o) { FilterCompiles(q, o); }
    r := if query == map[] then None else Some(Object(query));
  }

  method WithConditions(start: Fields, q: Query) returns (query: Fields)
    ensures query == start + OperationFields(q.operation) + StatusFields(q.status) + SuccessFields(q.success)
  {
    query := start;
    if q.operation.Some? { query := query["operation" := String(q.operation.value)]; }
    ghost var named := start + OperationFields(q.operation);
    assert query == named;
    if q.status.Some? { query := query["status" := StatusValue(q.status.value)]; }
    ghost var staged := named + StatusFields(q.status);
    assert query == staged;
    if q.success.Some? { query := query["success" := Bool(q.success.value)]; }
    assert query == staged + SuccessFields(q.success);
  }

  lemma CompiledIsEmpty(q: Query)
    ensures Compiled(q) == map[] <==> q == Query(None, None, None, None, None, None)
  {
    assert q.target.Some? ==> "target.type" in Compiled(q);
    assert q.operation.Some? ==> "operation" in Compiled(q);
    assert q.status.Some? ==> "status" in Compiled(q);
    assert q.success.Some? ==> "success" in Compiled(q);
    assert q.startedAfter.Some? || q.startedBefore.Some? ==> "start_ts" in Compiled(q);
  }

  // ---- what a query document means

  /** The stored document of an update. */
  function Stored(o: Operation): Value {
    Object(map["operation" := String(o.operation), "status" := String(o.status), "success" := Bool(o.success),
      "start_ts" := Number(o.startTs as real)]
      + if o.target.None? then map[]
        else map["target" := Object(map["type" := String(o.target.value.kind), "id" := String(o.target.value.id)])])
  }

  /** The value at a dotted path. */
  function Lookup(v: Value, path: seq<string>): Option<Value> {
    if path == [] then Some(v)
    else if v.Object? && path[0] in v.fields then Lookup(v.fields[path[0]], path[1..])
    else None
  }

  /** One operator; a missing or differently typed value is neither less nor greater. */
  predicate Holds(operator: string, found: Option<Value>, operand: Value) {
    if operator == "$gte" then found.Some? && found.value.Number? && operand.Number? && found.value.n >= operand.n
    else if operator == "$lt" then found.Some? && found.value.Number? && operand.Number? && found.value.n < operand.n
    else operator == "$nin" && operand.Array? && found.GetOr(Null) !in operand.elems
  }

  predicate IsOperators(v: Value) {
    v.Object? && v.fields != map[] && forall k | k in v.fields :: k != [] && k[0] == '$'
  }

  /** All operators of an operator object, or equality, where a missing value equals only null. */
  predicate Satisfies(found: Option<Value>, condition: Value) {
    if IsOperators(condition) then forall k | k in condition.fields :: Holds(k, found, condition.fields[k])
    else found.GetOr(Null) == condition
  }

  predicate Evaluates(query: Fields, document: Value) {
    forall k | k in query :: Satisfies(Lookup(document, Split(k, '.')), query[k])
  }

  predicate Accepts(query: Option<Value>, o: Operation) {
    query.None? || (query.value.Object? && Evaluates(query.value.fields, Stored(o)))
  }

  // ---- the two agree

  lemma PlainPath(k: string)
    requires '.' !in k
    ensures Split(k, '.') == [k]
  {
    SplitJoin([k], '.');
  }

  lemma TargetPath(k: string)
    requires '.' !in k
    ensures Split("target." + k, '.') == ["target", k]
  {
    SplitJoin(["target", k], '.');
    assert ["target", k][1..] == [k];
    assert Join(["target", k], '.') == "target" + ['.'] + Join([k], '.');
    assert "target" + ['.'] + k == "target." + k;
  }

  lemma Found(o: Operation, k: string)
    requires k in {"operation", "status", "success", "start_ts"}
    ensures Lookup(Stored(o), [k]) ==
      Some(if k == "operation" then String(o.operation) else if k == "status" then String(o.status)
        else if k == "success" then Bool(o.success) else Number(o.startTs as real))
  {
    assert [k][1..] == [];
    assert "target" !in {"operation", "status", "success", "start_ts"};
    assert k in Stored(o).fields;
  }

  lemma FoundTarget(o: Operation, k: string)
    requires k in {"type", "id"}
    ensures Lookup(Stored(o), ["target", k]) == if o.target.None? then None
      else Some(String(if k == "type" then o.target.value.kind else o.target.value.id))
  {
    assert ["target", k][1..] == [k] && [k][1..] == [];
    if o.target.Some? {
      var target := Object(map["type" := String(o.target.value.kind), "id" := String(o.target.value.id)]);
      assert "type" != "id";
      assert "target" in Stored(o).fields && Stored(o).fields["target"] == target;
      assert Lookup(Stored(o), ["target", k]) == Lookup(target, [k]) == Some(target.fields[k]);
    } else {
      assert "target" !in {"operation", "status", "success", "start_ts"};
      assert "target" !in Stored(o).fields;
    }
  }

  lemma EvaluatesSum(a: Fields, b: Fields, document: Value)
    requires a.Keys !! b.Keys
    ensures Evaluates(a + b, document) <==> Evaluates(a, document) && Evaluates(b, document)
  {
    assert forall k | k in a :: k in a + b && (a + b)[k] == a[k];
    assert forall k | k in b :: k in a + b && (a + b)[k] == b[k];
  }

  lemma EvaluatesOne(k: string, v: Value, document: Value)
    ensures Evaluates(map[k := v], document) <==> Satisfies(Lookup(document, Split(k, '.')), v)
  {
    assert k in map[k := v];
  }

  /** Equality with the value at a path. */
  lemma EvaluatesEquality(k: string, path: seq<string>, v: Value, document: Value)
    requires Split(k, '.') == path && !v.Object?
    ensures Evaluates(map[k := v], document) <==> Lookup(document, path).GetOr(Null) == v
  {
    EvaluatesOne(k, v, document);
  }

  lemma TargetAt(k: string, part: string, v: string, o: Operation)
    requires (k == "target.type" && part == "type") || (k == "target.id" && part == "id")
    ensures Evaluates(map[k := String(v)], Stored(o)) <==>
      (o.target.Some? && v == if part == "type" then o.target.value.kind else o.target.value.id)
  {
    assert "target." + part == k;
    TargetPath(part);
    EvaluatesEquality(k, ["target", part], String(v), Stored(o));
    FoundTarget(o, part);
  }

  lemma TargetAgrees(t: Option<Target>, o: Operation)
    ensures Evaluates(TargetFields(t), Stored(o)) <==> (t.Some? ==> o.target == t)
  {
    if t.Some? {
      var kind, id := map["target.type" := String(t.value.kind)], map["target.id" := String(t.value.id)];
      TargetKeys(t.value);
      EvaluatesSum(kind, id, Stored(o));
      TargetAt("target.type", "type", t.value.kind, o);
      TargetAt("target.id", "id", t.value.id, o);
    }
  }

  lemma TargetKeys(t: Target)
    ensures var kind, id := map["target.type" := String(t.kind)], map["target.id" := String(t.id)];
      TargetFields(Some(t)) == kind + id && kind.Keys !! id.Keys
  {
    assert "target.type" != "target.id";
  }

  lemma OperationAgrees(operation: Option<string>, o: Operation)
    ensures Evaluates(OperationFields(operation), Stored(o)) <==> (operation.Some? ==> o.operation == operation.value)
  {
    if operation.Some? {
      var k := "operation";
      PlainPath(k);
      EvaluatesEquality(k, [k], String(operation.value), Stored(o));
      Found(o, k);
    }
  }

  lemma SatisfiesOther(found: Option<Value>)
    ensures Satisfies(found, StatusValue(Other)) <==> found.GetOr(Null) !in KNOWN
  {
    var condition := StatusValue(Other);
    assert "$nin" in condition.fields;
    assert IsOperators(condition);
  }

  lemma SatisfiesStatus(status: Status, s: string)
    ensures Satisfies(Some(String(s)), StatusValue(status)) <==> StatusMatches(status, s)
  {
    if status == Other {
      SatisfiesOther(Some(String(s)));
      assert KNOWN[0] == String("Queued") && KNOWN[1] == String("InProgress") && KNOWN[2] == String("Complete");
    }
  }

  lemma StatusAgrees(status: Option<Status>, o: Operation)
    ensures Evaluates(StatusFields(status), Stored(o)) <==> (status.Some? ==> StatusMatches(status.value, o.status))
  {
    if status.Some? {
      EvaluatesOne("status", StatusValue(status.value), Stored(o));
      PlainPath("status");
      Found(o, "status");
      SatisfiesStatus(status.value, o.status);
    }
  }

  lemma SuccessAgrees(success: Option<bool>, o: Operation)
    ensures Evaluates(SuccessFields(success), Stored(o)) <==> (success.Some? ==> o.success == success.value)
  {
    if success.Some? {
      var k := "success";
      PlainPath(k);
      EvaluatesEquality(k, [k], Bool(success.value), Stored(o));
      Found(o, k);
    }
  }

  lemma WindowHolds(after: Option<int>, before: Option<int>, t: int)
    requires after.Some? || before.Some?
    ensures Satisfies(Some(Number(t as real)), Object(Window(after, before))) <==>
      (after.Some? ==> t >= after.value) && (before.Some? ==> t < before.value)
  {
    var w := Window(after, before);
    assert "$gte" != "$lt";
    assert after.Some? <==> "$gte" in w;
    assert before.Some? <==> "$lt" in w;
    assert IsOperators(Object(w));
    assert forall k | k in w :: k == "$gte" || k == "$lt";
  }

  lemma TimeAgrees(after: Option<int>, before: Option<int>, o: Operation)
    ensures Evaluates(TimeFields(after, before), Stored(o)) <==>
      (after.Some? ==> o.startTs >= after.value) && (before.Some? ==> o.startTs < before.value)
  {
    if after.Some? || before.Some? {
      EvaluatesOne("start_ts", Object(Window(after, before)), Stored(o));
      PlainPath("start_ts");
      Found(o, "start_ts");
      WindowHolds(after, before, o.startTs);
    }
  }

  /** Each kind of condition uses keys of its own. */
  lemma DistinctKeys(q: Query)
    ensures TargetFields(q.target).Keys !! OperationFields(q.operation).Keys
    ensures (TargetFields(q.target) + OperationFields(q.operation)).Keys !! StatusFields(q.status).Keys
    ensures var named := TargetFields(q.target) + OperationFields(q.operation) + StatusFields(q.status);
      && named.Keys !! SuccessFields(q.success).Keys
      && (named + SuccessFields(q.success)).Keys !! TimeFields(q.startedAfter, q.startedBefore).Keys
  {
    KeyNames();
    assert TargetFields(q.target).Keys <= {"target.type", "target.id"};
    assert OperationFields(q.operation).Keys <= {"operation"};
    assert StatusFields(q.status).Keys <= {"status"};
    assert SuccessFields(q.success).Keys <= {"success"};
    assert TimeFields(q.startedAfter, q.startedBefore).Keys <= {"start_ts"};
  }

  lemma KeyNames()
    ensures "operation" !in {"target.type", "target.id"}
    ensures "status" !in {"target.type", "target.id", "operation"}
    ensures "success" !in {"target.type", "target.id", "operation", "status"}
    ensures "start_ts" !in {"target.type", "target.id", "operation", "status", "success"}
  {}

  lemma EvaluatesParts(q: Query, document: Value)
    ensures Evaluates(Compiled(q), document) <==>
      Evaluates(TargetFields(q.target), document) && Evaluates(OperationFields(q.operation), document)
      && Evaluates(StatusFields(q.status), document) && Evaluates(SuccessFields(q.success), document)
      && Evaluates(TimeFields(q.startedAfter, q.startedBefore), document)
  {
    DistinctKeys(q);
    var a, b := TargetFields(q.target), OperationFields(q.operation);
    var c, d := StatusFields(q.status), SuccessFields(q.success);
    EvaluatesSum(a, b, document);
    EvaluatesSum(a + b, c, document);
    EvaluatesSum(a + b + c, d, document);
    EvaluatesSum(a + b + c + d, TimeFields(q.startedAfter, q.startedBefore), document);
  }

  /** Evaluating the emitted document is applying the filter, for every filter and operation. */
  lemma FilterCompiles(q: Query, o: Operation)
    ensures Evaluates(Compiled(q), Stored(o)) <==> Matches(q, o)
  {
    EvaluatesParts(q, Stored(o));
    TargetAgrees(q.target, o);
    OperationAgrees(q.operation, o);
    StatusAgrees(q.status, o);
    SuccessAgrees(q.success, o);
    TimeAgrees(q.startedAfter, q.startedBefore, o);
  }

  // ---- filters by outcome

  datatype Outcome = Accepted | Running | Succeeded | Failed | Unknown

  datatype SearchFilter = SearchFilter(target: Option<Target>, operation: Option<string>, outcome: Option<Outcome>,
    startedAfter: Option<int>, startedBefore: Option<int>)

  function OperationOutcome(status: string, success: bool): (Outcome, Option<bool>) {
    if status == "Queued" then (Accepted, None)
    else if status == "InProgress" then (Running, None)
    else if status == "Complete" then (if success then (Succeeded, Some(true)) else (Failed, Some(false)))
    else (Unknown, None)
  }

  predicate Acceptable(f: SearchFilter) {
    && (f.target.Some? ==> ValidSelector(f.target.value.kind) && ValidSelector(f.target.value.id))
    && (f.operation.Some? ==> ValidSelector(f.operation.value))
    && (f.startedAfter.Some? ==> f.startedAfter.value >= 0)
    && (f.startedBefore.Some? ==> f.startedBefore.value >= 0)
    && (f.startedAfter.Some? && f.startedBefore.Some? ==> f.startedAfter.value < f.startedBefore.value)
  }

  function StatusOf(outcome: Option<Outcome>): (Option<Status>, Option<bool>) {
    match outcome
    case None => (None, None)
    case Some(Accepted) => (Some(Queued), None)
    case Some(Running) => (Some(InProgress), None)
    case Some(Succeeded) => (Some(Complete), Some(true))
    case Some(Failed) => (Some(Complete), Some(false))
    case Some(Unknown) => (Some(Other), None)
  }

  /** None stands for the rejection of invalid parameters. */
  function ValidatedQuery(f: SearchFilter): Option<Query> {
    if !Acceptable(f) then None else
    var (status, success) := StatusOf(f.outcome);
    Some(Query(f.target, f.operation, status, success, f.startedAfter, f.startedBefore))
  }

  lemma OutcomeSelects(outcome: Outcome, o: Operation)
    ensures var (status, success) := StatusOf(Some(outcome));
      (StatusMatches(status.value, o.status) && (success.Some? ==> o.success == success.value)) <==>
        OperationOutcome(o.status, o.success).0 == outcome
  {
    assert "Queued" != "InProgress" && "Queued" != "Complete" && "InProgress" != "Complete";
  }

  /** Success is known exactly for a completed operation, and is then what it is. */
  lemma SuccessIsKnownWhenComplete(status: string, success: bool)
    ensures OperationOutcome(status, success).1 == (if status == "Complete" then Some(success) else None)
    ensures OperationOutcome(status, success).0.Succeeded? <==> status == "Complete" && success
    ensures OperationOutcome(status, success).0.Failed? <==> status == "Complete" && !success
  {
    assert "Queued" != "Complete" && "InProgress" != "Complete";
  }

  /** A filter is accepted exactly when its names can be said in 1 to 128 bytes without controls, and its
      times are no negative numbers and leave room for a start between them. */
  lemma FiltersAreAcceptedExactly(f: SearchFilter)
    ensures ValidatedQuery(f).Some? <==>
      ((f.target.Some? ==> Sayable(f.target.value.kind) && Sayable(f.target.value.id))
       && (f.operation.Some? ==> Sayable(f.operation.value))
       && (f.startedAfter.Some? ==> f.startedAfter.value >= 0) && (f.startedBefore.Some? ==> f.startedBefore.value >= 0)
       && exists t: int :: StartsWithin(f, t))
  {
    if f.startedAfter.Some? {
      assert f.startedBefore.Some? && f.startedAfter.value >= f.startedBefore.value ==>
        forall t: int :: !StartsWithin(f, t);
      assert !(f.startedBefore.Some? && f.startedAfter.value >= f.startedBefore.value) ==>
        StartsWithin(f, f.startedAfter.value);
    } else if f.startedBefore.Some? {
      assert StartsWithin(f, f.startedBefore.value - 1);
    } else {
      assert StartsWithin(f, 0);
    }
  }

  predicate StartsWithin(f: SearchFilter, t: int) {
    (f.startedAfter.Some? ==> f.startedAfter.value <= t) && (f.startedBefore.Some? ==> t < f.startedBefore.value)
  }

  /** An accepted filter selects, upstream as locally, exactly the operations of its target and name,
      in its time window, whose reported outcome is the one asked for. */
  lemma FilterSelects(f: SearchFilter, o: Operation)
    requires ValidatedQuery(f).Some?
    ensures Evaluates(Compiled(ValidatedQuery(f).value), Stored(o)) <==>
      ((f.target.Some? ==> o.target == f.target)
      && (f.operation.Some? ==> o.operation == f.operation.value)
      && (f.outcome.Some? ==> OperationOutcome(o.status, o.success).0 == f.outcome.value)
      && (f.startedAfter.Some? ==> o.startTs >= f.startedAfter.value)
      && (f.startedBefore.Some? ==> o.startTs < f.startedBefore.value))
  {
    FilterCompiles(ValidatedQuery(f).value, o);
    if f.outcome.Some? { OutcomeSelects(f.outcome.value, o); }
  }

  // ---- whole lists

  function Retained(items: seq<Operation>, q: Query): seq<Operation> { Filter(items, MatchesQuery(q)) }

  function MatchesQuery(q: Query): Operation -> bool { o => Matches(q, o) }

  function Selected(items: seq<Operation>, query: Fields): seq<Operation> { Filter(items, SelectedBy(query)) }

  function SelectedBy(query: Fields): Operation -> bool { o => Evaluates(query, Stored(o)) }

  /** Filtering a list locally leaves what the upstream query would have selected from it. */
  lemma LocalFilterIsUpstreamFilter(items: seq<Operation>, q: Query)
    ensures Retained(items, q) == Selected(items, Compiled(q))
  {
    forall o ensures Matches(q, o) <==> Evaluates(Compiled(q), Stored(o)) { FilterCompiles(q, o); }
    FilterAlike(items, MatchesQuery(q), SelectedBy(Compiled(q)));
  }
}
