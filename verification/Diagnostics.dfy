/** Known credentials are cut out of upstream diagnostics, leaving the text around them in segments. */
module Diagnostics {
  import opened Json
  import opened Sequences

  const MAX_SEGMENTS: nat := 256

  datatype Text = Complete(text: string) | Segments(segments: seq<string>)

  /** A match, from its first character up to but excluding `end`. */
  datatype Match = Match(start: nat, end: nat)

  // ---- leftmost-longest matching

  predicate OccursAt(text: string, credentials: set<string>, start: nat, end: nat) {
    start < end <= |text| && text[start..end] in credentials
  }

  /** The end of the longest credential at `start`, at most `end`; `start` itself when there is none. */
  function LongestEnd(text: string, credentials: set<string>, start: nat, end: nat): (r: nat)
    requires start <= end <= |text|
    ensures start <= r <= end && (r > start ==> OccursAt(text, credentials, start, r))
    ensures forall e | r < e <= end :: !OccursAt(text, credentials, start, e)
  {
    if end == start then start
    else if text[start..end] in credentials then end
    else LongestEnd(text, credentials, start, end - 1)
  }

  /** The first match that starts at or after `from`. */
  function Find(text: string, credentials: set<string>, from: nat): (r: Option<Match>)
    requires from <= |text|
    ensures r.Some? ==> from <= r.value.start < r.value.end <= |text|
    decreases |text| - from
  {
    var end := LongestEnd(text, credentials, from, |text|);
    if end > from then Some(Match(from, end))
    else if from == |text| then None
    else Find(text, credentials, from + 1)
  }

  /** What is found is a credential, the longest one there, and none starts before it. */
  lemma {:induction false} FoundIsLeftmostLongest(text: string, credentials: set<string>, from: nat)
    requires from <= |text|
    ensures var r := Find(text, credentials, from);
      && (r.Some? ==> OccursAt(text, credentials, r.value.start, r.value.end))
      && (r.Some? ==> forall e | r.value.end < e :: !OccursAt(text, credentials, r.value.start, e))
      && (forall p, e | from <= p && (r.Some? ==> p < r.value.start) :: !OccursAt(text, credentials, p, e))
    decreases |text| - from
  {
    var end := LongestEnd(text, credentials, from, |text|);
    if end == from && from < |text| { FoundIsLeftmostLongest(text, credentials, from + 1); }
  }

  /** The text between the matches, from `from` to the end; some gaps may be empty. */
  function Gaps(text: string, credentials: set<string>, from: nat): seq<string>
    requires from <= |text|
    decreases |text| - from
  {
    var m := Find(text, credentials, from);
    if m.None? then [text[from..]] else [text[from..m.value.start]] + Gaps(text, credentials, m.value.end)
  }

  predicate HasText(gap: string) { gap != "" }

  function NonEmpty(gaps: seq<string>): seq<string> { Filter(gaps, HasText) }

  lemma NonEmptyFirst(gap: string, rest: seq<string>)
    ensures NonEmpty([gap] + rest) == (if gap == "" then [] else [gap]) + NonEmpty(rest)
  {
    assert ([gap] + rest)[1..] == rest;
  }

  function RemovedText(text: string, credentials: set<string>, from: nat): seq<string>
    requires from <= |text|
    decreases |text| - from
  {
    var m := Find(text, credentials, from);
    if m.None? then [] else [text[m.value.start..m.value.end]] + RemovedText(text, credentials, m.value.end)
  }

  function Interleave(gaps: seq<string>, removed: seq<string>): string
    requires |gaps| == |removed| + 1
  {
    if removed == [] then gaps[0] else gaps[0] + removed[0] + Interleave(gaps[1..], removed[1..])
  }

  predicate Contains(text: string, credentials: set<string>) {
    exists p, e | 0 <= p < e <= |text| :: OccursAt(text, credentials, p, e)
  }

  // ---- what matching leaves behind

  /** Putting the removed credentials back between the gaps rebuilds the text, and only credentials
      were removed. */
  lemma {:induction false} GapsRebuildText(text: string, credentials: set<string>, from: nat)
    requires from <= |text|
    ensures |Gaps(text, credentials, from)| == |RemovedText(text, credentials, from)| + 1
    ensures Interleave(Gaps(text, credentials, from), RemovedText(text, credentials, from)) == text[from..]
    ensures forall r | r in RemovedText(text, credentials, from) :: r in credentials
    decreases |text| - from
  {
    var m := Find(text, credentials, from);
    FoundIsLeftmostLongest(text, credentials, from);
    if m.Some? {
      GapsRebuildText(text, credentials, m.value.end);
      var gaps, removed := Gaps(text, credentials, from), RemovedText(text, credentials, from);
      assert gaps[1..] == Gaps(text, credentials, m.value.end);
      assert removed[1..] == RemovedText(text, credentials, m.value.end);
      assert Interleave(gaps, removed) == gaps[0] + removed[0] + Interleave(gaps[1..], removed[1..]);
      CutInThree(text, from, m.value.start, m.value.end);
    }
  }

  lemma SliceOfSlice(text: string, a: nat, b: nat, p: nat, e: nat)
    requires a <= b <= |text| && p <= e <= b - a
    ensures text[a..b][p..e] == text[a + p..a + e]
  {
    var left, right := text[a..b][p..e], text[a + p..a + e];
    assert forall j | 0 <= j < |left| :: left[j] == right[j];
  }

  /** No gap contains a credential. */
  lemma {:induction false} GapsHoldNoCredential(text: string, credentials: set<string>, from: nat)
    requires from <= |text|
    ensures forall g | g in Gaps(text, credentials, from) :: !Contains(g, credentials)
    decreases |text| - from
  {
    var m := Find(text, credentials, from);
    var stop := if m.Some? then m.value.start else |text|;
    var gap := text[from..stop];
    FoundIsLeftmostLongest(text, credentials, from);
    forall p, e | 0 <= p < e <= |gap| ensures !OccursAt(gap, credentials, p, e) {
      SliceOfSlice(text, from, stop, p, e);
      assert !OccursAt(text, credentials, from + p, from + e);
    }
    assert !Contains(gap, credentials);
    if m.Some? {
      GapsHoldNoCredential(text, credentials, m.value.end);
      assert Gaps(text, credentials, from) == [gap] + Gaps(text, credentials, m.value.end);
    } else {
      assert text[from..] == gap;
    }
  }

  lemma NonEmptyIsSubset(gaps: seq<string>)
    ensures forall g | g in NonEmpty(gaps) :: g in gaps && g != ""
  {
    FilterMembers(gaps, HasText);
  }

  lemma NoMatchMeansNoCredential(text: string, credentials: set<string>)
    ensures Find(text, credentials, 0).None? <==> !Contains(text, credentials)
  {
    FoundIsLeftmostLongest(text, credentials, 0);
    if Find(text, credentials, 0).Some? {
      var m := Find(text, credentials, 0).value;
      assert OccursAt(text, credentials, m.start, m.end);
    }
  }

  // ---- projecting one text

  /** More gaps than the segment bound. */
  predicate Fragmented(text: string, credentials: set<string>) {
    Contains(text, credentials) && |NonEmpty(Gaps(text, credentials, 0))| > MAX_SEGMENTS
  }

  function Lead(text: string, cursor: nat, start: nat): seq<string>
    requires start <= |text|
  {
    if cursor < start then [text[cursor..start]] else []
  }

  /** The nonempty gaps from `cursor` on: the one before the next match, then those after it. */
  lemma GapsFrom(text: string, credentials: set<string>, cursor: nat)
    requires cursor <= |text|
    ensures var m := Find(text, credentials, cursor);
      NonEmpty(Gaps(text, credentials, cursor)) ==
        if m.Some?
        then Lead(text, cursor, m.value.start) + NonEmpty(Gaps(text, credentials, m.value.end))
        else Lead(text, cursor, |text|)
  {
    var m := Find(text, credentials, cursor);
    if m.Some? {
      NonEmptyFirst(text[cursor..m.value.start], Gaps(text, credentials, m.value.end));
    } else {
      NonEmptyFirst(text[cursor..], []);
      assert [text[cursor..]] + [] == [text[cursor..]];
      Tail(text, cursor);
    }
  }

  ghost function Pieces(text: string, credentials: set<string>, cursor: nat): seq<string>
    requires cursor <= |text|
  {
    NonEmpty(Gaps(text, credentials, cursor))
  }

  /** `segments` are the pieces before `cursor`. */
  ghost predicate Collected(text: string, credentials: set<string>, segments: seq<string>, cursor: nat)
    requires cursor <= |text|
  {
    Pieces(text, credentials, 0) == segments + Pieces(text, credentials, cursor)
  }

  lemma CollectedFromStart(text: string, credentials: set<string>)
    ensures Collected(text, credentials, [], 0)
  {}

  lemma CollectNext(text: string, credentials: set<string>, segments: seq<string>, cursor: nat)
    requires cursor <= |text| && Collected(text, credentials, segments, cursor) && Find(text, credentials, cursor).Some?
    ensures var m := Find(text, credentials, cursor).value;
      && Collected(text, credentials, segments + Lead(text, cursor, m.start), m.end)
      && |segments + Lead(text, cursor, m.start)| <= |Pieces(text, credentials, 0)|
  {
    var m := Find(text, credentials, cursor).value;
    GapsFrom(text, credentials, cursor);
    Regroup(segments, Lead(text, cursor, m.start), Pieces(text, credentials, m.end));
  }

  lemma CollectLast(text: string, credentials: set<string>, segments: seq<string>, cursor: nat)
    requires cursor <= |text| && Collected(text, credentials, segments, cursor) && Find(text, credentials, cursor).None?
    ensures Pieces(text, credentials, 0) == segments + Lead(text, cursor, |text|)
  {
    GapsFrom(text, credentials, cursor);
  }

  /** Collect the text before each match, until the matches or the segments run out. */
  method CutMatches(text: string, credentials: set<string>)
      returns (cursor: nat, segments: seq<string>, changed: bool, stopped: bool)
    ensures cursor <= |text| && |segments| <= MAX_SEGMENTS
    ensures changed <==> Find(text, credentials, 0).Some?
    ensures !changed ==> segments == [] && !stopped
    ensures stopped ==> |Pieces(text, credentials, 0)| > MAX_SEGMENTS
    ensures !stopped ==> Pieces(text, credentials, 0) == segments + Lead(text, cursor, |text|)
  {
    cursor, segments, changed, stopped := 0, [], false, false;
    var found := Find(text, credentials, 0);
    CollectedFromStart(text, credentials);
    while found.Some? && !stopped
      invariant cursor <= |text| && |segments| <= MAX_SEGMENTS
      invariant changed || found.Some? <==> Find(text, credentials, 0).Some?
      invariant !changed ==> segments == [] && !stopped
      invariant stopped ==> changed && |Pieces(text, credentials, 0)| > MAX_SEGMENTS
      invariant !stopped ==> found == Find(text, credentials, cursor) && Collected(text, credentials, segments, cursor)
      decreases |text| - cursor, !stopped
    {
      var start := found.value.start;
      CollectNext(text, credentials, segments, cursor);
      if start > cursor && |segments| == MAX_SEGMENTS {
        stopped := true;
      } else {
        if start > cursor { segments := segments + [text[cursor..start]]; }
        changed := true;
        cursor := found.value.end;
        found := Find(text, credentials, cursor);
      }
    }
    if !stopped { CollectLast(text, credentials, segments, cursor); }
  }

  /** Cut the credentials out of `text`, noting in the two flags, which earlier texts may have set,
      whether one was present and whether the segments exceed their bound. */
  method ProjectText(text: string, credentials: set<string>, present0: bool, fragmented0: bool)
      returns (out: Text, present: bool, fragmented: bool)
    ensures present == (present0 || Contains(text, credentials))
    ensures fragmented == (fragmented0 || Fragmented(text, credentials))
    ensures out.Complete? <==> !Contains(text, credentials)
    ensures out.Complete? ==> out.text == text
    ensures out.Segments? && !fragmented ==> out.segments == NonEmpty(Gaps(text, credentials, 0))
    ensures out.Segments? ==> |out.segments| <= MAX_SEGMENTS
  {
    NoMatchMeansNoCredential(text, credentials);
    var cursor, segments, changed, stopped := CutMatches(text, credentials);
    present, fragmented := present0 || changed, fragmented0 || stopped;
    if !changed { return Complete(text), present, fragmented; }
    if cursor < |text| && !fragmented {
      if |segments| == MAX_SEGMENTS { fragmented := true; }
      else {
        Tail(text, cursor);
        segments := segments + [text[cursor..]];
      }
    }
    out := Segments(segments);
  }

  // ---- projecting a whole response

  datatype Report = Report(error: string, trace: seq<string>)

  datatype Body = EmptyBody | Undecodable | Decoded(report: Report)

  datatype Diagnostic = Diagnostic(error: Text, trace: seq<Text>)

  datatype Failure = Failure(diagnostic: Option<Diagnostic>, unavailable: Option<string>,
                             present: Option<bool>, keepsOriginal: bool)

  /** What one text becomes inline. */
  function Projected(text: string, credentials: set<string>): Text {
    if Find(text, credentials, 0).None? then Complete(text) else Segments(NonEmpty(Gaps(text, credentials, 0)))
  }

  function Inspected(b: Body): seq<string> {
    if b.Decoded? then [b.report.error] + b.report.trace else []
  }

  function Nonempty(credentials: seq<string>): set<string> {
    set c | c in credentials && c != ""
  }

  predicate AnyContains(texts: seq<string>, known: set<string>) {
    exists n | 0 <= n < |texts| :: Contains(texts[n], known)
  }

  predicate AnyFragmented(texts: seq<string>, known: set<string>) {
    exists n | 0 <= n < |texts| :: Fragmented(texts[n], known)
  }

  lemma AnyOfOneMore(texts: seq<string>, last: string, known: set<string>)
    ensures AnyContains(texts + [last], known) <==> AnyContains(texts, known) || Contains(last, known)
    ensures AnyFragmented(texts + [last], known) <==> AnyFragmented(texts, known) || Fragmented(last, known)
  {
    var all := texts + [last];
    assert all[|texts|] == last && forall n | 0 <= n < |texts| :: all[n] == texts[n];
  }

  /** Project texts one after another; once the flags are set they stay set. */
  method ProjectTexts(texts: seq<string>, known: set<string>) returns (out: seq<Text>, present: bool, fragmented: bool)
    ensures |out| == |texts|
    ensures present == AnyContains(texts, known) && fragmented == AnyFragmented(texts, known)
    ensures !fragmented ==> forall n | 0 <= n < |texts| :: out[n] == Projected(texts[n], known)
  {
    out, present, fragmented := [], false, false;
    for n := 0 to |texts|
      invariant |out| == n
      invariant present == AnyContains(texts[..n], known) && fragmented == AnyFragmented(texts[..n], known)
      invariant !fragmented ==> forall l | 0 <= l < n :: out[l] == Projected(texts[l], known)
    {
      NoMatchMeansNoCredential(texts[n], known);
      AnyOfOneMore(texts[..n], texts[n], known);
      assert texts[..n + 1] == texts[..n] + [texts[n]];
      var projected;
      projected, present, fragmented := ProjectText(texts[n], known, present, fragmented);
      out := out + [projected];
    }
    assert texts[..|texts|] == texts;
  }

  /** Every text of the report is projected in its place. */
  predicate Shows(d: Diagnostic, report: Report, known: set<string>) {
    && d.error == Projected(report.error, known)
    && |d.trace| == |report.trace|
    && forall n | 0 <= n < |report.trace| :: d.trace[n] == Projected(report.trace[n], known)
  }

  method ProjectReport(report: Report, known: set<string>) returns (d: Diagnostic, present: bool, fragmented: bool)
    ensures present <==> AnyContains(Inspected(Decoded(report)), known)
    ensures fragmented <==> AnyFragmented(Inspected(Decoded(report)), known)
    ensures !fragmented ==> Shows(d, report, known)
  {
    var texts := Inspected(Decoded(report));
    var projected;
    projected, present, fragmented := ProjectTexts(texts, known);
    d := Diagnostic(projected[0], projected[1..]);
    assert texts[0] == report.error;
    assert forall n | 0 <= n < |report.trace| :: report.trace[n] == texts[n + 1] && d.trace[n] == projected[n + 1];
  }

  const UNPROJECTED := "credential projection unavailable; use original file"
  const EMPTY := "upstream response body is empty"
  const UNSUPPORTED := "upstream response body has unsupported encoding"
  const TOO_MANY_SEGMENTS := "credential-separated text exceeds inline segment bound; use original file"

  // ---- in terms of the configured credentials

  /** The word occurs in the text. */
  ghost predicate Mentions(text: string, word: string) { exists a: nat :: MentionedAt(text, word, a) }

  predicate MentionedAt(text: string, word: string, a: nat) {
    a + |word| <= |text| && text[a..a + |word|] == word
  }

  /** A nonempty configured credential occurs in the text. */
  ghost predicate Reveals(text: string, credentials: seq<string>) {
    exists c :: c in credentials && c != "" && Mentions(text, c)
  }

  lemma OccurrencesAreMentions(text: string, credentials: seq<string>, start: nat, end: nat)
    requires OccursAt(text, Nonempty(credentials), start, end)
    ensures Reveals(text, credentials)
  {
    assert MentionedAt(text, text[start..end], start);
  }

  lemma MentionsAreOccurrences(text: string, credentials: seq<string>, c: string)
    requires c in credentials && c != "" && Mentions(text, c)
    ensures Contains(text, Nonempty(credentials))
  {
    var a: nat :| MentionedAt(text, c, a);
    assert OccursAt(text, Nonempty(credentials), a, a + |c|);
  }

  lemma RevealsExactly(text: string, credentials: seq<string>)
    ensures Reveals(text, credentials) <==> Contains(text, Nonempty(credentials))
  {
    if Contains(text, Nonempty(credentials)) {
      var p, e :| 0 <= p < e <= |text| && OccursAt(text, Nonempty(credentials), p, e);
      OccurrencesAreMentions(text, credentials, p, e);
    }
    if c :| c in credentials && c != "" && Mentions(text, c) { MentionsAreOccurrences(text, credentials, c); }
  }

  /** More than 256 pieces are left when the credentials are cut out of the text. */
  ghost predicate InPieces(text: string, credentials: seq<string>) {
    Reveals(text, credentials) && |Pieces(text, Nonempty(credentials), 0)| > 256
  }

  /** What is shown of a text. */
  predicate Shown(t: Text, piece: string) {
    match t
    case Complete(text) => piece == text
    case Segments(segments) => piece in segments
  }

  /** Nothing shown of the texts reveals a credential, and a text that reveals none is shown as it is. */
  ghost predicate ShowsSafely(t: Text, text: string, credentials: seq<string>) {
    && (forall piece | Shown(t, piece) :: !Reveals(piece, credentials))
    && (t.Complete? <==> !Reveals(text, credentials)) && (t.Complete? ==> t.text == text)
    && (t.Segments? ==> t.segments == Pieces(text, Nonempty(credentials), 0))
  }

  lemma ProjectedShowsSafely(text: string, credentials: seq<string>)
    ensures ShowsSafely(Projected(text, Nonempty(credentials)), text, credentials)
  {
    var t := Projected(text, Nonempty(credentials));
    InlineTextHoldsNoCredential(text, Nonempty(credentials));
    RevealsExactly(text, credentials);
    forall piece | Shown(t, piece) ensures !Reveals(piece, credentials) { RevealsExactly(piece, credentials); }
  }

  lemma ReportRevealsExactly(report: Report, credentials: seq<string>)
    ensures var texts, known := Inspected(Decoded(report)), Nonempty(credentials);
      && (AnyContains(texts, known) <==>
            Reveals(report.error, credentials) || exists t :: t in report.trace && Reveals(t, credentials))
      && (AnyFragmented(texts, known) <==>
            InPieces(report.error, credentials) || exists t :: t in report.trace && InPieces(t, credentials))
  {
    var texts := Inspected(Decoded(report));
    forall t ensures Reveals(t, credentials) <==> Contains(t, Nonempty(credentials)) { RevealsExactly(t, credentials); }
    assert texts[0] == report.error && forall n | 0 <= n < |report.trace| :: texts[n + 1] == report.trace[n];
    assert forall n | 0 < n < |texts| :: texts[n] in report.trace;
  }

  /** Project a failed response, keeping its original bytes for native transfer when needed: exactly when its
      error or a line of its trace reveals a configured credential, or nothing could be inspected for want of
      a matcher. What is shown inline reveals none; nothing is shown when a text falls into too many pieces. */
  method FromResponse(body: Body, credentials: seq<string>, matcherBuilds: bool) returns (f: Failure)
    ensures !matcherBuilds ==>
      f == Failure(None, Some("credential projection unavailable; use original file"), None, true)
    ensures matcherBuilds && body.EmptyBody? ==>
      f == Failure(None, Some("upstream response body is empty"), None, false)
    ensures matcherBuilds && body.Undecodable? ==>
      f == Failure(None, Some("upstream response body has unsupported encoding"), None, false)
    ensures matcherBuilds && body.Decoded? ==>
      && (f.keepsOriginal <==> (Reveals(body.report.error, credentials)
                                || exists t :: t in body.report.trace && Reveals(t, credentials)))
      && f.present == Some(f.keepsOriginal)
      && (f.diagnostic.None? <==> (InPieces(body.report.error, credentials)
                                   || exists t :: t in body.report.trace && InPieces(t, credentials)))
      && f.unavailable == (if f.diagnostic.Some? then None else
           Some("credential-separated text exceeds inline segment bound; use original file"))
      && (f.diagnostic.Some? ==>
            var d := f.diagnostic.value;
            && ShowsSafely(d.error, body.report.error, credentials) && |d.trace| == |body.report.trace|
            && forall n | 0 <= n < |d.trace| :: ShowsSafely(d.trace[n], body.report.trace[n], credentials))
  {
    if !matcherBuilds { return Failure(None, Some(UNPROJECTED), None, true); }
    if body.EmptyBody? { return Failure(None, Some(EMPTY), None, false); }
    if body.Undecodable? { return Failure(None, Some(UNSUPPORTED), None, false); }
    var d, present, fragmented := ProjectReport(body.report, Nonempty(credentials));
    ReportRevealsExactly(body.report, credentials);
    ProjectedShowsSafely(body.report.error, credentials);
    forall n | 0 <= n < |body.report.trace|
      ensures ShowsSafely(Projected(body.report.trace[n], Nonempty(credentials)), body.report.trace[n], credentials)
    {
      ProjectedShowsSafely(body.report.trace[n], credentials);
    }
    f := if fragmented then Failure(None, Some(TOO_MANY_SEGMENTS), Some(present), present)
         else Failure(Some(d), None, Some(present), present);
  }

  /** An inline text shows no credential: it holds none, or it is cut into pieces that hold none and
      that the removed credentials would complete to the original text. */
  lemma InlineTextHoldsNoCredential(text: string, known: set<string>)
    ensures Projected(text, known).Complete? <==> !Contains(text, known)
    ensures Projected(text, known).Complete? ==> Projected(text, known).text == text
    ensures Projected(text, known).Segments? ==>
      && (forall s | s in Projected(text, known).segments :: s != "" && !Contains(s, known))
      && |Gaps(text, known, 0)| == |RemovedText(text, known, 0)| + 1
      && Interleave(Gaps(text, known, 0), RemovedText(text, known, 0)) == text
      && (forall r | r in RemovedText(text, known, 0) :: r in known)
  {
    NoMatchMeansNoCredential(text, known);
    GapsHoldNoCredential(text, known, 0);
    NonEmptyIsSubset(Gaps(text, known, 0));
    GapsRebuildText(text, known, 0);
  }
}
