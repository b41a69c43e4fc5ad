/** From what came back for an upstream request to what the MCP caller is told about it. */
module Outcomes {
  import opened Json
  import opened DiagnosticJson
  import Diagnostics

  // ---- the upstream request

  /** What one attempt brought back. A status outside 200..299 is a failure. */
  datatype Reply =
    | NotSent
    | NoResponse
    | Interrupted(status: nat)
    | Oversized(status: nat)
    | Received(status: nat, decodes: bool, failure: Diagnosis)

  /** What a failed response body says: an ordinary diagnostic, a reason why there is none, and
      whether the body holds a known credential and must stay out of the answer. */
  datatype Diagnosis = Diagnosis(diagnostic: Option<Diagnostics.Diagnostic>, unavailable: Option<string>,
                                 credentialPresent: Option<bool>, credentialDocument: bool)

  datatype ApiError =
    | Upstream(status: nat, request: string, diagnosis: Diagnosis)
    | InvalidConfiguration | Authentication | Forbidden | NotFound | Unavailable | IncompatibleResponse
    | ResponseTooLarge | InventoryPaginationUnsupported | InventorySelectorTooBroad

  predicate IsSuccess(status: nat) { 200 <= status < 300 }

  function WithoutBody(reason: string): Diagnosis { Diagnosis(None, Some(reason), None, false) }

  /** The error of an attempt, none when a success was decoded. */
  function Classify(reply: Reply, request: string): Option<ApiError> {
    match reply
    case NotSent => Some(InvalidConfiguration)
    case NoResponse => Some(Unavailable)
    case Interrupted(status) =>
      if !IsSuccess(status) then Some(Upstream(status, request, WithoutBody("response body interrupted")))
      else Some(Unavailable)
    case Oversized(status) =>
      if !IsSuccess(status) then Some(Upstream(status, request, WithoutBody("response body exceeds byte bound")))
      else Some(ResponseTooLarge)
    case Received(status, decodes, failure) =>
      if !IsSuccess(status) then Some(Upstream(status, request, failure))
      else if decodes then None else Some(IncompatibleResponse)
  }

  /** Reads are repeated after these errors. */
  predicate WorthRepeating(e: ApiError) {
    e.Unavailable? || (e.Upstream? && 500 <= e.status <= 599)
  }

  predicate MutationOutcomeUnknown(e: ApiError) {
    || e.Unavailable? || e.IncompatibleResponse? || e.ResponseTooLarge?
    || (e.Upstream? && e.status != 401 && e.status != 403 && e.status != 404)
  }

  /** A decoded success, or an upstream refusal that proves the write had no effect. */
  predicate Conclusive(reply: Reply) {
    match reply
    case NotSent => true
    case NoResponse => false
    case Interrupted(status) => status in {401, 403, 404}
    case Oversized(status) => status in {401, 403, 404}
    case Received(status, decodes, _) => (IsSuccess(status) && decodes) || status in {401, 403, 404}
  }

  /** The outcome of a write is called unknown exactly when nothing conclusive came back. */
  lemma UnknownUnlessConclusive(reply: Reply, request: string)
    ensures (Classify(reply, request).Some? && MutationOutcomeUnknown(Classify(reply, request).value))
       <==> !Conclusive(reply)
  {}

  // ---- the MCP error

  datatype McpError = McpError(message: string, data: Option<Value>)

  /** How a credential document could be published. */
  datatype Native = NoTransport | NoCapacity | Published(file: FileValue)

  function OrNull(s: Option<string>): Value { if s.Some? then String(s.value) else Null }

  function BoolOrNull(b: Option<bool>): Value { if b.Some? then Bool(b.value) else Null }

  /** The members every projection has. */
  function Projection(httpStatus: Value, request: Value, diagnostic: Value, diagnosticUnavailable: Value,
                      credentialValuesPresent: Value, untrusted: Value): map<string, Value> {
    map["httpStatus" := httpStatus, "request" := request, "diagnostic" := diagnostic,
        "diagnosticUnavailable" := diagnosticUnavailable,
        "credentialValuesPresent" := credentialValuesPresent, "untrusted" := untrusted]
  }

  /** The projection of a failed response. */
  function UpstreamFields(status: nat, request: string, d: Diagnosis): map<string, Value> {
    Projection(Number(status as real), String(request),
               WriteOptional(d.diagnostic), OrNull(d.unavailable), BoolOrNull(d.credentialPresent), Bool(true))
  }

  function FileFields(native: Native): map<string, Value> {
    match native
    case NoTransport => map["diagnosticFileUnavailable" := String("native file transfer required")]
    case NoCapacity => map["diagnosticFileUnavailable" := String("native file capacity unavailable")]
    case Published(file) => map["diagnosticFile" := WriteFile(file)]
  }

  const RECONCILE := "Komodo mutation outcome is unknown; reconcile before any new write"

  function ReconcileFields(target: string, readTool: string): map<string, Value> {
    map["outcome" := String("unknown")] + map["target" := String(target)] + map["retrySafe" := Bool(false)]
    + map["operationIdAvailable" := Bool(false)] + map["reconcileWith" := String(readTool)]
    + map["operatorVerificationRequired" := Bool(true)]
  }

  function ApiFailure(e: ApiError, message: string, native: Native): McpError {
    if !e.Upstream? then McpError(message, None) else
    var upstream := UpstreamFields(e.status, e.request, e.diagnosis)
                  + if e.diagnosis.credentialDocument then FileFields(native) else map[];
    McpError(message, Some(Object(map["upstream" := Object(upstream)])))
  }

  function MutationFailure(e: ApiError, message: string, native: Native, target: string, readTool: string): McpError {
    var base := ApiFailure(e, message, native);
    if !MutationOutcomeUnknown(e) then base else
    var fields := if base.data.Some? then Fields(base.data.value) else map[];
    McpError(RECONCILE, Some(Object(fields + ReconcileFields(target, readTool))))
  }

  /** Fill the error data step by step: the projection first, then the credential file. */
  method ApiErrorData(e: ApiError, message: string, native: Native) returns (error: McpError)
    ensures error == ApiFailure(e, message, native)
  {
    if !e.Upstream? { return McpError(message, None); }
    var upstream := UpstreamFields(e.status, e.request, e.diagnosis);
    if e.diagnosis.credentialDocument {
      upstream := Overwrite(upstream, FileFields(native));
    } else {
      assert upstream + map[] == upstream;
    }
    error := McpError(message, Some(Object(map["upstream" := Object(upstream)])));
  }

  /** Set every member of `added`, key by key. */
  method Overwrite(data: map<string, Value>, added: map<string, Value>) returns (r: map<string, Value>)
    ensures r == data + added
  {
    r := data;
    var todo := added.Keys;
    while todo != {}
      invariant todo <= added.Keys
      invariant r == data + map k | k in added && k !in todo :: added[k]
      decreases todo
    {
      var k :| k in todo;
      r, todo := r[k := added[k]], todo - {k};
    }
    assert r == data + added;
  }

  /** Overwrite an uncertain mutation error with the facts needed to reconcile it. */
  method MutationErrorData(e: ApiError, message: string, native: Native, target: string, readTool: string)
      returns (error: McpError)
    ensures error == MutationFailure(e, message, native, target, readTool)
  {
    error := ApiErrorData(e, message, native);
    if MutationOutcomeUnknown(e) {
      var data := if error.data.Some? then Fields(error.data.value) else map[];
      data := Overwrite(data, ReconcileFields(target, readTool));
      error := McpError(RECONCILE, Some(Object(data)));
    }
  }

  // ---- the result of a tool call

  datatype ToolResult = Success | Failure(error: McpError) | Structured(content: Value)

  /** The error of a call whose lifetime ended: nothing is known about a submitted write. */
  function Ended(): McpError {
    McpError("request cancelled or deadline exceeded",
             Some(Object(map["outcome" := String("unknown"), "retrySafe" := Bool(false),
                             "operatorVerificationRequired" := Bool(true)])))
  }

  /** The typed form credential-bearing error data is read into and written from again. */
  datatype UpstreamDiagnostic = UpstreamDiagnostic(
    httpStatus: Value, request: Value, diagnostic: Option<Diagnostics.Diagnostic>, diagnosticUnavailable: Value,
    untrusted: Value, credentialValuesPresent: Value, diagnosticFile: Option<FileValue>,
    diagnosticFileUnavailable: Option<Value>)

  datatype FailureData = FailureData(
    upstream: UpstreamDiagnostic, outcome: Option<Value>, target: Option<Value>, retrySafe: Option<Value>,
    operationIdAvailable: Option<Value>, reconcileWith: Option<Value>, operatorVerificationRequired: Option<Value>)

  /** An optional member is absent, null or of its kind. */
  predicate OptionalString(m: map<string, Value>, k: string) { k in m ==> m[k].String? || m[k] == Null }

  predicate OptionalBool(m: map<string, Value>, k: string) { k in m ==> m[k].Bool? || m[k] == Null }

  function OrNullValue(m: map<string, Value>, k: string): Value { if k in m then m[k] else Null }

  function ReadUpstream(v: Value): Option<UpstreamDiagnostic> {
    if !v.Object? then None else
    var m := v.fields;
    var diagnostic := ReadOptional(Member(m, "diagnostic"));
    var file := ReadOptionalFile(Member(m, "diagnosticFile"));
    if && "httpStatus" in m && m["httpStatus"].Number? && "request" in m && m["request"].String?
       && "untrusted" in m && m["untrusted"].Bool? && diagnostic.Good? && file.Good?
       && OptionalString(m, "diagnosticUnavailable") && OptionalBool(m, "credentialValuesPresent")
       && OptionalString(m, "diagnosticFileUnavailable")
    then Some(UpstreamDiagnostic(m["httpStatus"], m["request"], diagnostic.value,
                                 OrNullValue(m, "diagnosticUnavailable"), m["untrusted"],
                                 OrNullValue(m, "credentialValuesPresent"), file.value,
                                 Member(m, "diagnosticFileUnavailable")))
    else None
  }

  function ReadFailureData(v: Value): Option<FailureData> {
    if !v.Object? || "upstream" !in v.fields then None else
    var m := v.fields;
    var upstream := ReadUpstream(m["upstream"]);
    if && upstream.Some? && OptionalString(m, "outcome") && OptionalString(m, "target") && OptionalBool(m, "retrySafe")
       && OptionalBool(m, "operationIdAvailable") && OptionalString(m, "reconcileWith")
       && OptionalBool(m, "operatorVerificationRequired")
    then Some(FailureData(upstream.value, Member(m, "outcome"), Member(m, "target"), Member(m, "retrySafe"),
                          Member(m, "operationIdAvailable"), Member(m, "reconcileWith"),
                          Member(m, "operatorVerificationRequired")))
    else None
  }

  function WriteUpstream(u: UpstreamDiagnostic): Value {
    Object(Projection(u.httpStatus, u.request, WriteOptional(u.diagnostic), u.diagnosticUnavailable,
                      u.credentialValuesPresent, u.untrusted)
           + Present("diagnosticFile", WriteOptionalFile(u.diagnosticFile))
           + Present("diagnosticFileUnavailable", u.diagnosticFileUnavailable))
  }

  function WriteFailureData(d: FailureData): Value {
    Object(map["upstream" := WriteUpstream(d.upstream)] + Present("outcome", d.outcome) + Present("target", d.target)
           + Present("retrySafe", d.retrySafe) + Present("operationIdAvailable", d.operationIdAvailable)
           + Present("reconcileWith", d.reconcileWith)
           + Present("operatorVerificationRequired", d.operatorVerificationRequired))
  }

  predicate CarriesCredentialFile(data: Option<Value>) {
    data.Some? && "upstream" in Fields(data.value) &&
    var u := Fields(Fields(data.value)["upstream"]);
    "diagnosticFile" in u || "diagnosticFileUnavailable" in u
  }

  /** Errors that carry a credential file become structured results. */
  function Convert(error: McpError): Option<ToolResult> {
    if !CarriesCredentialFile(error.data) then Some(Failure(error)) else
    match ReadFailureData(error.data.value)
    case None => None
    case Some(d) =>
      Some(Structured(Object(map["message" := String(error.message), "data" := WriteFailureData(d)])))
  }

  /** The data part of a failed result. */
  function DataOf(r: ToolResult): Value {
    match r
    case Success => Null
    case Failure(error) => if error.data.Some? then error.data.value else Null
    case Structured(content) => if "data" in Fields(content) then Fields(content)["data"] else Null
  }

  /** The caller is told that the outcome is unknown and a retry is not safe. */
  predicate MarksUnknown(r: ToolResult) { Uncertain(Fields(DataOf(r))) }

  predicate Uncertain(d: map<string, Value>) {
    "outcome" in d && d["outcome"] == String("unknown") && "retrySafe" in d && d["retrySafe"] == Bool(false)
  }

  // ---- nothing is lost on the way to the caller

  function WriteOptionalFile(f: Option<FileValue>): Option<Value> {
    if f.Some? then Some(WriteFile(f.value)) else None
  }

  function FullUpstream(e: ApiError, native: Native): map<string, Value>
    requires e.Upstream?
  {
    UpstreamFields(e.status, e.request, e.diagnosis)
    + if e.diagnosis.credentialDocument then FileFields(native) else map[]
  }

  lemma ProjectionMembers(a: Value, b: Value, c: Value, d: Value, e: Value, f: Value)
    ensures var m := Projection(a, b, c, d, e, f);
      && m.Keys ==
         {"httpStatus", "request", "diagnostic", "diagnosticUnavailable", "credentialValuesPresent", "untrusted"}
      && m["httpStatus"] == a && m["request"] == b && m["diagnostic"] == c && m["diagnosticUnavailable"] == d
      && m["credentialValuesPresent"] == e && m["untrusted"] == f
    ensures "diagnosticFile" !in Projection(a, b, c, d, e, f)
    ensures "diagnosticFileUnavailable" !in Projection(a, b, c, d, e, f)
  {}

  lemma CredentialFileMembers(p: map<string, Value>, native: Native)
    requires "diagnosticFile" !in p && "diagnosticFileUnavailable" !in p
    ensures var m := p + FileFields(native);
      && (forall k | k in p :: k in m && m[k] == p[k])
      && Member(m, "diagnosticFile") == (if native.Published? then Some(WriteFile(native.file)) else None)
      && Member(m, "diagnosticFileUnavailable") ==
           (if native.Published? then None else Some(FileFields(native)["diagnosticFileUnavailable"]))
      && OptionalString(m, "diagnosticFileUnavailable")
  {}

  /** What the members of the projection are read into. */
  lemma UpstreamRead(m: map<string, Value>, p: map<string, Value>, e: ApiError, file: Option<FileValue>,
                     unavailable: Option<Value>)
    requires e.Upstream? && p == UpstreamFields(e.status, e.request, e.diagnosis)
    requires forall k | k in p :: k in m && m[k] == p[k]
    requires Member(m, "diagnosticFile") == WriteOptionalFile(file)
    requires Member(m, "diagnosticFileUnavailable") == unavailable && OptionalString(m, "diagnosticFileUnavailable")
    ensures ReadUpstream(Object(m)) ==
      Some(UpstreamDiagnostic(Number(e.status as real), String(e.request), e.diagnosis.diagnostic,
                              OrNull(e.diagnosis.unavailable), Bool(true), BoolOrNull(e.diagnosis.credentialPresent),
                              file, unavailable))
  {
    var d := e.diagnosis;
    ProjectionMembers(Number(e.status as real), String(e.request), WriteOptional(d.diagnostic),
                      OrNull(d.unavailable), BoolOrNull(d.credentialPresent), Bool(true));
    if d.diagnostic.Some? { DiagnosticRoundTrip(d.diagnostic.value); }
    assert ReadOptional(Member(m, "diagnostic")) == Good(d.diagnostic);
    if file.Some? { FileRoundTrip(file.value); }
    assert ReadOptionalFile(Member(m, "diagnosticFile")) == Good(file);
  }

  /** Reading upstream data into its typed form, diagnostic and file included, and writing it again keeps
      every member. */
  lemma UpstreamRoundTrip(e: ApiError, native: Native)
    requires e.Upstream?
    ensures ReadUpstream(Object(FullUpstream(e, native))).Some?
    ensures WriteUpstream(ReadUpstream(Object(FullUpstream(e, native))).value) == Object(FullUpstream(e, native))
  {
    var p := UpstreamFields(e.status, e.request, e.diagnosis);
    var document := e.diagnosis.credentialDocument;
    var file := if document && native.Published? then Some(native.file) else None;
    var unavailable :=
      if document && !native.Published? then Some(FileFields(native)["diagnosticFileUnavailable"]) else None;
    ProjectionMembers(Number(e.status as real), String(e.request), WriteOptional(e.diagnosis.diagnostic),
                      OrNull(e.diagnosis.unavailable), BoolOrNull(e.diagnosis.credentialPresent), Bool(true));
    if document { CredentialFileMembers(p, native); } else { assert FullUpstream(e, native) == p; }
    UpstreamRead(FullUpstream(e, native), p, e, file, unavailable);
    PresentFiles(p, native, document, file, unavailable);
  }

  lemma PresentFiles(p: map<string, Value>, native: Native, document: bool, file: Option<FileValue>,
                     unavailable: Option<Value>)
    requires file == (if document && native.Published? then Some(native.file) else None)
    requires unavailable ==
      (if document && !native.Published? then Some(FileFields(native)["diagnosticFileUnavailable"]) else None)
    ensures p + Present("diagnosticFile", WriteOptionalFile(file)) + Present("diagnosticFileUnavailable", unavailable)
         == p + if document then FileFields(native) else map[]
  {
    match native
    case Published(f) => assert Present("diagnosticFile", Some(WriteFile(f))) == FileFields(native);
    case _ => assert FileFields(native) ==
      Present("diagnosticFileUnavailable", Some(FileFields(native)["diagnosticFileUnavailable"]));
  }

  lemma ReconcileMembers(target: string, readTool: string)
    ensures var m := ReconcileFields(target, readTool);
      && "upstream" !in m
      && Member(m, "outcome") == Some(String("unknown")) && Member(m, "target") == Some(String(target))
      && Member(m, "retrySafe") == Some(Bool(false)) && Member(m, "operationIdAvailable") == Some(Bool(false))
      && Member(m, "reconcileWith") == Some(String(readTool))
      && Member(m, "operatorVerificationRequired") == Some(Bool(true))
  {}

  lemma PlusAssociates(a: map<string, Value>, b: map<string, Value>, c: map<string, Value>)
    ensures a + b + c == a + (b + c)
  {}

  lemma ReconcileWritten(upstream: map<string, Value>, target: string, readTool: string)
    ensures upstream + Present("outcome", Some(String("unknown"))) + Present("target", Some(String(target)))
            + Present("retrySafe", Some(Bool(false))) + Present("operationIdAvailable", Some(Bool(false)))
            + Present("reconcileWith", Some(String(readTool)))
            + Present("operatorVerificationRequired", Some(Bool(true)))
         == upstream + ReconcileFields(target, readTool)
  {
    var a, b := map["outcome" := String("unknown")], map["target" := String(target)];
    var c, d := map["retrySafe" := Bool(false)], map["operationIdAvailable" := Bool(false)];
    var e, f := map["reconcileWith" := String(readTool)], map["operatorVerificationRequired" := Bool(true)];
    PlusAssociates(upstream, a, b);
    PlusAssociates(upstream, a + b, c);
    PlusAssociates(upstream, a + b + c, d);
    PlusAssociates(upstream, a + b + c + d, e);
    PlusAssociates(upstream, a + b + c + d + e, f);
  }

  /** Reading reconciliation data and writing it again keeps every member. */
  lemma ReconcileRoundTrip(upstream: Value, target: string, readTool: string)
    requires ReadUpstream(upstream).Some? && WriteUpstream(ReadUpstream(upstream).value) == upstream
    ensures var v := Object(map["upstream" := upstream] + ReconcileFields(target, readTool));
      ReadFailureData(v).Some? && WriteFailureData(ReadFailureData(v).value) == v
  {
    ReconcileRead(upstream, target, readTool);
    ReconcileWritten(map["upstream" := upstream], target, readTool);
  }

  lemma AddedMembers(m: map<string, Value>, added: map<string, Value>)
    ensures forall k | k in added :: Member(m + added, k) == Member(added, k)
    ensures forall k | k !in added :: Member(m + added, k) == Member(m, k)
  {}

  lemma ReconcileRead(upstream: Value, target: string, readTool: string)
    requires ReadUpstream(upstream).Some?
    ensures ReadFailureData(Object(map["upstream" := upstream] + ReconcileFields(target, readTool))) ==
      Some(FailureData(ReadUpstream(upstream).value, Some(String("unknown")), Some(String(target)), Some(Bool(false)),
                       Some(Bool(false)), Some(String(readTool)), Some(Bool(true))))
  {
    var start := map["upstream" := upstream];
    ReconcileMembers(target, readTool);
    AddedMembers(start, ReconcileFields(target, readTool));
    assert Member(start, "upstream") == Some(upstream);
  }

  lemma PlainRoundTrip(upstream: Value)
    requires ReadUpstream(upstream).Some? && WriteUpstream(ReadUpstream(upstream).value) == upstream
    ensures var v := Object(map["upstream" := upstream]);
      ReadFailureData(v).Some? && WriteFailureData(ReadFailureData(v).value) == v
  {
    PlainMembers(upstream);
    assert ReadFailureData(Object(map["upstream" := upstream])) ==
      Some(FailureData(ReadUpstream(upstream).value, None, None, None, None, None, None));
  }

  lemma PlainMembers(upstream: Value)
    ensures var m := map["upstream" := upstream];
      "outcome" !in m && "target" !in m && "retrySafe" !in m && "operationIdAvailable" !in m
      && "reconcileWith" !in m && "operatorVerificationRequired" !in m
  {}

  lemma FailureDataShape(e: ApiError, message: string, native: Native, target: string, readTool: string)
    requires e.Upstream?
    ensures var upstream := Object(FullUpstream(e, native));
      MutationFailure(e, message, native, target, readTool).data ==
        Some(Object(if MutationOutcomeUnknown(e) then map["upstream" := upstream] + ReconcileFields(target, readTool)
                    else map["upstream" := upstream]))
  {}

  lemma ConvertedData(error: McpError)
    requires error.data.Some? && ReadFailureData(error.data.value).Some?
    requires WriteFailureData(ReadFailureData(error.data.value).value) == error.data.value
    ensures Convert(error).Some? && DataOf(Convert(error).value) == error.data.value
  {
    if CarriesCredentialFile(error.data) {
      StructuredData(error.message, error.data.value);
      assert Convert(error).value ==
        Structured(Object(map["message" := String(error.message), "data" := error.data.value]));
    } else { assert Convert(error) == Some(Failure(error)); }
  }

  lemma StructuredData(message: string, data: Value)
    ensures DataOf(Structured(Object(map["message" := String(message), "data" := data]))) == data
  {}

  /** A mutation error reaches the caller with its data unchanged, in either form. */
  lemma DataSurvives(e: ApiError, message: string, native: Native, target: string, readTool: string)
    ensures var error := MutationFailure(e, message, native, target, readTool);
      Convert(error).Some? && DataOf(Convert(error).value) == (if error.data.Some? then error.data.value else Null)
  {
    var error := MutationFailure(e, message, native, target, readTool);
    if e.Upstream? {
      DataRoundTrip(e, message, native, target, readTool);
      ConvertedData(error);
    } else if MutationOutcomeUnknown(e) {
      ReconcileMembers(target, readTool);
    }
  }

  /** A caller whose write was submitted and drew no conclusive answer is told that the outcome is
      unknown and that a retry is not safe; a conclusive failure never says so. */
  lemma NoFalseCertainty(reply: Reply, request: string, message: string, native: Native,
                         target: string, readTool: string)
    requires Classify(reply, request).Some?
    ensures var error := MutationFailure(Classify(reply, request).value, message, native, target, readTool);
      Convert(error).Some? && (MarksUnknown(Convert(error).value) <==> !Conclusive(reply))
  {
    var e := Classify(reply, request).value;
    UnknownUnlessConclusive(reply, request);
    DataSurvives(e, message, native, target, readTool);
    OnlyUnknownIsUncertain(e, message, native, target, readTool);
  }

  lemma OnlyUnknownIsUncertain(e: ApiError, message: string, native: Native, target: string, readTool: string)
    ensures var data := MutationFailure(e, message, native, target, readTool).data;
      Uncertain(Fields(data.GetOr(Null))) <==> MutationOutcomeUnknown(e)
  {
    ReconcileMembers(target, readTool);
    if e.Upstream? {
      FailureDataShape(e, message, native, target, readTool);
      PlainIsCertain(Object(FullUpstream(e, native)));
      AddedMembers(map["upstream" := Object(FullUpstream(e, native))], ReconcileFields(target, readTool));
    }
  }

  lemma PlainIsCertain(upstream: Value)
    ensures !Uncertain(map["upstream" := upstream])
  {}

  lemma EndedMarksUnknown()
    ensures Convert(Ended()) == Some(Failure(Ended())) && MarksUnknown(Failure(Ended()))
  {
    assert "upstream" !in Fields(Ended().data.value);
  }

  // ---- what the caller can read

  lemma OnlyDocumentsCarryFiles(e: ApiError, native: Native)
    requires e.Upstream?
    ensures var u := FullUpstream(e, native);
      ("diagnosticFile" in u || "diagnosticFileUnavailable" in u) <==> e.diagnosis.credentialDocument
  {
    ProjectionMembers(Number(e.status as real), String(e.request), WriteOptional(e.diagnosis.diagnostic),
                      OrNull(e.diagnosis.unavailable), BoolOrNull(e.diagnosis.credentialPresent), Bool(true));
  }

  lemma NoUpstreamReconciled(target: string, readTool: string)
    ensures "upstream" !in ReconcileFields(target, readTool)
  {
    ReconcileMembers(target, readTool);
  }

  lemma CarriesExactlyDocuments(e: ApiError, message: string, native: Native, target: string, readTool: string)
    ensures CarriesCredentialFile(MutationFailure(e, message, native, target, readTool).data) <==>
      e.Upstream? && e.diagnosis.credentialDocument
  {
    if e.Upstream? {
      FailureDataShape(e, message, native, target, readTool);
      UpstreamMember(Object(FullUpstream(e, native)), target, readTool);
      OnlyDocumentsCarryFiles(e, native);
    } else {
      NoUpstreamReconciled(target, readTool);
    }
  }

  lemma DataRoundTrip(e: ApiError, message: string, native: Native, target: string, readTool: string)
    requires e.Upstream?
    ensures var data := MutationFailure(e, message, native, target, readTool).data;
      data.Some? && ReadFailureData(data.value).Some?
      && WriteFailureData(ReadFailureData(data.value).value) == data.value
  {
    UpstreamRoundTrip(e, native);
    FailureDataShape(e, message, native, target, readTool);
    if MutationOutcomeUnknown(e) {
      ReconcileRoundTrip(Object(FullUpstream(e, native)), target, readTool);
    } else {
      PlainRoundTrip(Object(FullUpstream(e, native)));
    }
  }

  /** An error becomes a structured result exactly when its response holds a credential, with its message
      and data; and it is announced as unknown exactly when it is. */
  lemma CredentialErrorsAreStructured(e: ApiError, message: string, native: Native, target: string, readTool: string)
    ensures var error := MutationFailure(e, message, native, target, readTool);
      && error.message == (if MutationOutcomeUnknown(e)
                           then "Komodo mutation outcome is unknown; reconcile before any new write" else message)
      && Convert(error) == Some(
           if e.Upstream? && e.diagnosis.credentialDocument
           then Structured(Object(map["message" := String(error.message), "data" := error.data.GetOr(Null)]))
           else Failure(error))
  {
    CarriesExactlyDocuments(e, message, native, target, readTool);
    if e.Upstream? { DataRoundTrip(e, message, native, target, readTool); }
  }

  lemma UpstreamMember(upstream: Value, target: string, readTool: string)
    ensures var m := map["upstream" := upstream];
      && "upstream" in m && m["upstream"] == upstream
      && "upstream" in m + ReconcileFields(target, readTool)
      && (m + ReconcileFields(target, readTool))["upstream"] == upstream
  {
    NoUpstreamReconciled(target, readTool);
  }

  /** What a caller reads in the data of an upstream error: the status, the request, the diagnostic or why
      there is none, the credential file or why there is none, and what to do about an unknown outcome. */
  lemma CallerReads(e: ApiError, message: string, native: Native, target: string, readTool: string)
    requires e.Upstream?
    ensures var d := e.diagnosis;
      var file := if d.credentialDocument && native.Published? then Some(native.file) else None;
      var missing :=
        if !d.credentialDocument || native.Published? then None
        else Some(String(if native.NoTransport? then "native file transfer required"
                         else "native file capacity unavailable"));
      var u := UpstreamDiagnostic(Number(e.status as real), String(e.request), d.diagnostic, OrNull(d.unavailable),
                                  Bool(true), BoolOrNull(d.credentialPresent), file, missing);
      var error := MutationFailure(e, message, native, target, readTool);
      error.data.Some? && ReadFailureData(error.data.value) == Some(
        if e.status in {401, 403, 404} then FailureData(u, None, None, None, None, None, None)
        else FailureData(u, Some(String("unknown")), Some(String(target)), Some(Bool(false)), Some(Bool(false)),
                         Some(String(readTool)), Some(Bool(true))))
  {
    UpstreamIsRead(e, native);
    FailureDataShape(e, message, native, target, readTool);
    if MutationOutcomeUnknown(e) {
      ReconcileRead(Object(FullUpstream(e, native)), target, readTool);
    } else {
      PlainRead(Object(FullUpstream(e, native)));
    }
  }

  lemma PlainRead(upstream: Value)
    requires ReadUpstream(upstream).Some?
    ensures ReadFailureData(Object(map["upstream" := upstream])) ==
      Some(FailureData(ReadUpstream(upstream).value, None, None, None, None, None, None))
  {
    PlainMembers(upstream);
  }

  lemma UpstreamIsRead(e: ApiError, native: Native)
    requires e.Upstream?
    ensures var d := e.diagnosis;
      var file := if d.credentialDocument && native.Published? then Some(native.file) else None;
      var missing :=
        if !d.credentialDocument || native.Published? then None
        else Some(String(if native.NoTransport? then "native file transfer required"
                         else "native file capacity unavailable"));
      ReadUpstream(Object(FullUpstream(e, native))) ==
        Some(UpstreamDiagnostic(Number(e.status as real), String(e.request), d.diagnostic, OrNull(d.unavailable),
                                Bool(true), BoolOrNull(d.credentialPresent), file, missing))
  {
    var p := UpstreamFields(e.status, e.request, e.diagnosis);
    var document := e.diagnosis.credentialDocument;
    var file := if document && native.Published? then Some(native.file) else None;
    var missing :=
      if document && !native.Published? then Some(FileFields(native)["diagnosticFileUnavailable"]) else None;
    ProjectionMembers(Number(e.status as real), String(e.request), WriteOptional(e.diagnosis.diagnostic),
                      OrNull(e.diagnosis.unavailable), BoolOrNull(e.diagnosis.credentialPresent), Bool(true));
    if document { CredentialFileMembers(p, native); } else { assert FullUpstream(e, native) == p; }
    UpstreamRead(FullUpstream(e, native), p, e, file, missing);
  }
}
