/** Diagnostics and native file values as JSON, and reading them back. */
module DiagnosticJson {
  import opened Json
  import D = Diagnostics

  // ---- strings, texts and diagnostics

  /** An optional part: absent, or there and well formed. */
  datatype Part<+T> = Bad | Good(value: Option<T>)

  function WriteStrings(ss: seq<string>): Value {
    Array(seq(|ss|, j requires 0 <= j < |ss| => String(ss[j])))
  }

  function ReadStrings(v: Value): Option<seq<string>> {
    if v.Array? && forall j | 0 <= j < |v.elems| :: v.elems[j].String?
    then Some(seq(|v.elems|, j requires 0 <= j < |v.elems| => v.elems[j].s)) else None
  }

  /** A complete text is a string, and a cut one an object with its segments; no tag tells them apart. */
  function WriteText(t: D.Text): Value {
    match t
    case Complete(text) => String(text)
    case Segments(segments) => Object(map["segments" := WriteStrings(segments)])
  }

  function ReadText(v: Value): Option<D.Text> {
    if v.String? then Some(D.Complete(v.s))
    else if v.Object? && "segments" in v.fields && ReadStrings(v.fields["segments"]).Some?
    then Some(D.Segments(ReadStrings(v.fields["segments"]).value)) else None
  }

  function WriteTexts(ts: seq<D.Text>): Value {
    Array(seq(|ts|, j requires 0 <= j < |ts| => WriteText(ts[j])))
  }

  function ReadTexts(v: Value): Option<seq<D.Text>> {
    if v.Array? && forall j | 0 <= j < |v.elems| :: ReadText(v.elems[j]).Some?
    then Some(seq(|v.elems|, j requires 0 <= j < |v.elems| => ReadText(v.elems[j]).value)) else None
  }

  function WriteDiagnostic(d: D.Diagnostic): Value {
    Object(map["error" := WriteText(d.error), "trace" := WriteTexts(d.trace)])
  }

  function ReadDiagnostic(v: Value): Option<D.Diagnostic> {
    if !v.Object? || "error" !in v.fields || "trace" !in v.fields then None else
    var error, trace := ReadText(v.fields["error"]), ReadTexts(v.fields["trace"]);
    if error.Some? && trace.Some? then Some(D.Diagnostic(error.value, trace.value)) else None
  }

  /** No diagnostic is written as null. */
  function WriteOptional(d: Option<D.Diagnostic>): Value { if d.Some? then WriteDiagnostic(d.value) else Null }

  function ReadOptional(v: Option<Value>): Part<D.Diagnostic> {
    if v.None? then Good(None)
    else if ReadDiagnostic(v.value).Some? then Good(ReadDiagnostic(v.value)) else Bad
  }

  lemma StringsRoundTrip(ss: seq<string>)
    ensures ReadStrings(WriteStrings(ss)) == Some(ss)
  {
    var r := ReadStrings(WriteStrings(ss));
    assert r.value == ss;
  }

  lemma TextRoundTrip(t: D.Text)
    ensures ReadText(WriteText(t)) == Some(t)
  {
    if t.Segments? { StringsRoundTrip(t.segments); }
  }

  lemma TextsRoundTrip(ts: seq<D.Text>)
    ensures ReadTexts(WriteTexts(ts)) == Some(ts)
  {
    var v := WriteTexts(ts);
    forall j | 0 <= j < |ts| ensures ReadText(v.elems[j]) == Some(ts[j]) { TextRoundTrip(ts[j]); }
    assert ReadTexts(v).value == ts;
  }

  /** A written diagnostic is read back as it was. */
  lemma DiagnosticRoundTrip(d: D.Diagnostic)
    ensures ReadDiagnostic(WriteDiagnostic(d)) == Some(d)
  {
    TextRoundTrip(d.error);
    TextsRoundTrip(d.trace);
    assert "error" != "trace";
  }

  // ---- native file values

  type Size = n: nat | n < 0x1_0000_0000_0000_0000

  datatype FileDigest = FileDigest(algorithm: string, value: string)

  datatype FileValue = FileValue(uri: string, name: Option<string>, mimeType: Option<string>, size: Option<Size>,
                                 digest: Option<FileDigest>)

  function WriteString(s: Option<string>): Option<Value> { if s.Some? then Some(String(s.value)) else None }

  function WriteSize(n: Option<Size>): Option<Value> { if n.Some? then Some(Number(n.value as real)) else None }

  function WriteDigest(d: Option<FileDigest>): Option<Value> {
    if d.Some? then Some(Object(map["algorithm" := String(d.value.algorithm), "value" := String(d.value.value)]))
    else None
  }

  function WriteFile(f: FileValue): Value {
    Object(map["uri" := String(f.uri)] + Present("name", WriteString(f.name))
           + Present("mimeType", WriteString(f.mimeType)) + Present("size", WriteSize(f.size))
           + Present("digest", WriteDigest(f.digest)))
  }

  function ReadString(v: Option<Value>): Part<string> {
    if v.None? then Good(None) else if v.value.String? then Good(Some(v.value.s)) else Bad
  }

  function ReadSize(v: Option<Value>): Part<Size> {
    if v.None? then Good(None)
    else if v.value.Number? && v.value.n.Floor as real == v.value.n && 0 <= v.value.n.Floor < 0x1_0000_0000_0000_0000
    then Good(Some(v.value.n.Floor)) else Bad
  }

  /** No other members are allowed. */
  function ReadDigest(v: Option<Value>): Part<FileDigest> {
    if v.None? then Good(None)
    else if v.value.Object? && v.value.fields.Keys == {"algorithm", "value"}
         && v.value.fields["algorithm"].String? && v.value.fields["value"].String?
    then Good(Some(FileDigest(v.value.fields["algorithm"].s, v.value.fields["value"].s))) else Bad
  }

  const FILE_MEMBERS: set<string> := {"uri", "name", "mimeType", "size", "digest"}

  /** No other members are allowed here either. */
  function ReadFile(v: Value): Option<FileValue> {
    if !v.Object? || !(v.fields.Keys <= FILE_MEMBERS) || "uri" !in v.fields || !v.fields["uri"].String? then None else
    var name, mimeType := ReadString(Member(v.fields, "name")), ReadString(Member(v.fields, "mimeType"));
    var size, digest := ReadSize(Member(v.fields, "size")), ReadDigest(Member(v.fields, "digest"));
    if name.Good? && mimeType.Good? && size.Good? && digest.Good?
    then Some(FileValue(v.fields["uri"].s, name.value, mimeType.value, size.value, digest.value)) else None
  }

  function ReadOptionalFile(v: Option<Value>): Part<FileValue> {
    if v.None? then Good(None) else if ReadFile(v.value).Some? then Good(ReadFile(v.value)) else Bad
  }

  lemma PresentMember(m: map<string, Value>, k: string, v: Option<Value>, other: string)
    requires k !in m && v != Some(Null)
    ensures Member(m + Present(k, v), other) == if other == k then v else Member(m, other)
    ensures (m + Present(k, v)).Keys <= m.Keys + {k}
    ensures other in m ==> other in m + Present(k, v) && (m + Present(k, v))[other] == m[other]
    ensures other !in m && other != k ==> other !in m + Present(k, v)
  {}

  lemma MemberNames()
    ensures "name" !in {"uri"} && "mimeType" !in {"uri", "name"} && "size" !in {"uri", "name", "mimeType"}
    ensures "digest" !in {"uri", "name", "mimeType", "size"}
  {}

  lemma FileMembers(f: FileValue)
    ensures var m := WriteFile(f).fields;
      && m.Keys <= FILE_MEMBERS && "uri" in m && m["uri"] == String(f.uri)
      && Member(m, "name") == WriteString(f.name) && Member(m, "mimeType") == WriteString(f.mimeType)
      && Member(m, "size") == WriteSize(f.size) && Member(m, "digest") == WriteDigest(f.digest)
  {
    MemberNames();
    var a := map["uri" := String(f.uri)];
    var b := a + Present("name", WriteString(f.name));
    var c := b + Present("mimeType", WriteString(f.mimeType));
    var d := c + Present("size", WriteSize(f.size));
    assert a.Keys == {"uri"} && b.Keys <= {"uri", "name"} && c.Keys <= {"uri", "name", "mimeType"};
    assert d.Keys <= {"uri", "name", "mimeType", "size"};
    forall k | k in FILE_MEMBERS
      ensures Member(b, k) == if k == "name" then WriteString(f.name) else Member(a, k)
      ensures Member(c, k) == if k == "mimeType" then WriteString(f.mimeType) else Member(b, k)
      ensures Member(d, k) == if k == "size" then WriteSize(f.size) else Member(c, k)
      ensures Member(WriteFile(f).fields, k) == if k == "digest" then WriteDigest(f.digest) else Member(d, k)
    {
      PresentMember(a, "name", WriteString(f.name), k);
      PresentMember(b, "mimeType", WriteString(f.mimeType), k);
      PresentMember(c, "size", WriteSize(f.size), k);
      PresentMember(d, "digest", WriteDigest(f.digest), k);
    }
  }

  lemma DigestRoundTrip(d: Option<FileDigest>)
    ensures ReadDigest(WriteDigest(d)) == Good(d)
  {
    assert "algorithm" != "value";
  }

  /** A written file value is read back as it was. */
  lemma FileRoundTrip(f: FileValue)
    ensures ReadFile(WriteFile(f)) == Some(f)
  {
    FileMembers(f);
    DigestRoundTrip(f.digest);
  }
}
