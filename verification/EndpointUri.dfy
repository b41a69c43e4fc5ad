/** The projection of an endpoint URI: credential components are replaced, the others are kept. */
module EndpointUri {
  import opened Json
  import opened Strings

  const MARKER := "credential-in-original-file"

  datatype Kind = Slack | Discord | Pushover | OtherKind

  /** A URI cut into components; no scheme for a network-path reference. */
  datatype Uri = Uri(scheme: Option<string>, authority: string, path: string, query: Option<string>, fragment: string)

  /** The parts of the URL libraries the projection calls: path normalization, percent decoding of a
      path segment and form decoding of a parameter name. `plain` are the segments normalization
      leaves as they are. */
  datatype UrlLibrary = UrlLibrary(normalize: string -> string, plain: string -> bool,
                                   decode: string -> Option<string>, formDecode: string -> string)

  const SLASHES: set<char> := {'/', '\\'}

  /** Characters no path segment contains after normalization. */
  const RESERVED: set<char> := {'/', '\\', '?', '#'}

  /** Normalization yields rooted paths of plain segments, keeps such paths, and roots the empty path. */
  ghost predicate Lawful(u: UrlLibrary) {
    && (forall s :: u.plain(s) ==> Free(s, RESERVED))
    && u.plain(MARKER) && u.normalize("") == "/"
    && (forall p :: YieldsRooted(u, p))
    && (forall parts :: KeepsRooted(u, parts))
  }

  predicate YieldsRooted(u: UrlLibrary, p: string) { Rooted(u, Split(u.normalize(p), '/')) }

  predicate KeepsRooted(u: UrlLibrary, parts: seq<string>) {
    Rooted(u, parts) ==> u.normalize(Join(parts, '/')) == Join(parts, '/')
  }

  predicate Rooted(u: UrlLibrary, parts: seq<string>) {
    |parts| >= 2 && parts[0] == "" && forall p | p in parts :: u.plain(p)
  }

  // ---- cutting and printing

  predicate Alphabetic(c: char) { 'a' <= Lower(c) <= 'z' }

  predicate SchemeName(s: string) {
    s != [] && Alphabetic(s[0]) && forall c | c in s :: Alphabetic(c) || '0' <= c <= '9' || c in "+-."
  }

  /** Schemes of URLs with an authority after any number of slashes. */
  predicate Special(scheme: Option<string>) {
    scheme.Some? ==> LowerAll(scheme.value) in {"ftp", "file", "http", "https", "ws", "wss"}
  }

  function TrimSlashes(s: string): (r: string)
    ensures r != [] ==> r[0] !in SLASHES
  {
    if s != [] && s[0] in SLASHES then TrimSlashes(s[1..]) else s
  }

  function AuthorityEnds(special: bool): set<char> {
    if special then {'/', '?', '#', '\\'} else {'/', '?', '#'}
  }

  /** The scheme and everything after the slashes that follow it. */
  function CutScheme(s: string): Option<(Option<string>, string)> {
    if "//" <= s then Some((None, TrimSlashes(s)))
    else
      var cut := SplitOnce(s, ':');
      if cut.None? || !SchemeName(cut.value.0) then None else
      var (scheme, rest) := cut.value;
      if Special(Some(scheme)) then Some((Some(scheme), TrimSlashes(rest)))
      else if "//" <= rest then Some((Some(scheme), rest[2..])) else None
  }

  /** Authority, path, query and fragment. */
  function CutRest(scheme: Option<string>, rest: string): Uri {
    var n := First(rest, AuthorityEnds(Special(scheme)));
    var (authority, tail) := (rest[..n], rest[n..]);
    var f := First(tail, {'#'});
    var (resource, fragment) := (tail[..f], tail[f..]);
    var cut := SplitOnce(resource, '?');
    if cut.Some? then Uri(scheme, authority, cut.value.0, Some(cut.value.1), fragment)
    else Uri(scheme, authority, resource, None, fragment)
  }

  function Cut(s: string): Option<Uri> {
    var c := CutScheme(s);
    if c.None? then None else Some(CutRest(c.value.0, c.value.1))
  }

  function Resource(u: Uri): string { u.path + if u.query.Some? then ['?'] + u.query.value else [] }

  function Print(u: Uri): string {
    (if u.scheme.Some? then u.scheme.value + "://" else "//") + u.authority + Resource(u) + u.fragment
  }

  /** What cutting yields, and what printing it again can be cut into. */
  predicate WellCut(u: Uri) {
    && (u.scheme.Some? ==> SchemeName(u.scheme.value))
    && Free(u.authority, AuthorityEnds(Special(u.scheme)))
    && Free(u.path, {'?', '#'}) && (u.query.Some? ==> Free(u.query.value, {'#'}))
    && (u.path != [] ==> u.path[0] in AuthorityEnds(Special(u.scheme)))
    && (u.fragment != [] ==> u.fragment[0] == '#')
    && (Special(u.scheme) && u.authority == [] ==> u.path == [])
  }

  lemma CutIsWellCut(s: string)
    requires Cut(s).Some?
    ensures WellCut(Cut(s).value)
  {
    SchemeIsCut(s);
    RestIsWellCut(CutScheme(s).value.0, CutScheme(s).value.1);
  }

  lemma SchemeIsCut(s: string)
    requires CutScheme(s).Some?
    ensures SchemeCut(CutScheme(s).value.0, CutScheme(s).value.1)
  {}

  lemma RestIsWellCut(scheme: Option<string>, rest: string)
    requires SchemeCut(scheme, rest)
    ensures WellCut(CutRest(scheme, rest))
  {
    var ends := AuthorityEnds(Special(scheme));
    FirstFree(rest, ends);
    ResourceCut(rest[First(rest, ends)..], ends);
  }

  /** No scheme has a name of its own; with a special scheme slashes come off before the authority. */
  predicate SchemeCut(scheme: Option<string>, rest: string) {
    (scheme.Some? ==> SchemeName(scheme.value)) && (Special(scheme) && rest != [] ==> rest[0] !in SLASHES)
  }

  lemma FirstFree(s: string, cs: set<char>)
    ensures Free(s[..First(s, cs)], cs)
  {
    assert forall c | c in s[..First(s, cs)] :: c !in cs;
  }

  /** The path, query and fragment of what follows the authority. */
  lemma ResourceCut(tail: string, ends: set<char>)
    requires tail != [] ==> tail[0] in ends
    ensures var resource := tail[..First(tail, {'#'})];
      var cut := SplitOnce(resource, '?');
      var path := if cut.Some? then cut.value.0 else resource;
      && Free(path, {'?', '#'}) && (cut.Some? ==> Free(cut.value.1, {'#'}))
      && (path != [] ==> path[0] in ends)
  {
    var resource := tail[..First(tail, {'#'})];
    FirstFree(tail, {'#'});
    FirstFree(resource, {'?'});
    assert forall c | c in resource[..First(resource, {'?'})] :: c in resource;
    assert forall j | 0 <= j < |resource| :: resource[j] in resource;
  }

  lemma RestRecut(u: Uri)
    requires WellCut(u)
    ensures CutRest(u.scheme, u.authority + Resource(u) + u.fragment) == u
  {
    var tail := Resource(u) + u.fragment;
    assert u.authority + Resource(u) + u.fragment == u.authority + tail;
    FirstIs(u.authority, tail, AuthorityEnds(Special(u.scheme)));
    assert Free(Resource(u), {'#'});
    FirstIs(Resource(u), u.fragment, {'#'});
    if u.query.Some? {
      assert Resource(u) == u.path + ['?'] + u.query.value;
      SplitOnceIs(u.path, '?', u.query.value);
    } else {
      FirstIs(u.path, [], {'?'});
      assert Resource(u) == u.path;
    }
  }

  lemma SchemeRecut(u: Uri)
    requires WellCut(u)
    ensures CutScheme(Print(u)) == Some((u.scheme, u.authority + Resource(u) + u.fragment))
  {
    var rest := u.authority + Resource(u) + u.fragment;
    if Special(u.scheme) { RestHasNoSlash(u); }
    if u.scheme.None? {
      assert Print(u) == ['/', '/'] + rest;
      TrimTwo(rest);
    } else {
      assert Print(u) == u.scheme.value + [':'] + (['/', '/'] + rest);
      NamedSchemeRecut(u.scheme.value, rest);
    }
  }

  lemma RestHasNoSlash(u: Uri)
    requires WellCut(u) && Special(u.scheme)
    ensures var rest := u.authority + Resource(u) + u.fragment; rest != [] ==> rest[0] !in SLASHES
  {}

  lemma NamedSchemeRecut(name: string, rest: string)
    requires SchemeName(name) && (Special(Some(name)) && rest != [] ==> rest[0] !in SLASHES)
    ensures CutScheme(name + [':'] + (['/', '/'] + rest)) == Some((Some(name), rest))
  {
    var after := ['/', '/'] + rest;
    assert (name + [':'] + after)[0] == name[0];
    SplitOnceIs(name, ':', after);
    if Special(Some(name)) { TrimTwo(rest); } else { assert after[2..] == rest; }
  }

  lemma TrimTwo(rest: string)
    requires rest != [] ==> rest[0] !in SLASHES
    ensures TrimSlashes(['/', '/'] + rest) == rest
  {
    assert (['/', '/'] + rest)[1..] == ['/'] + rest && (['/'] + rest)[1..] == rest;
    assert TrimSlashes(['/'] + rest) == TrimSlashes(rest) == rest;
  }

  /** Well-cut components are cut again into themselves after printing. */
  lemma PrintRecut(u: Uri)
    requires WellCut(u)
    ensures Cut(Print(u)) == Some(u)
  {
    SchemeRecut(u);
    RestRecut(u);
  }

  // ---- the contract can be met

  /** A library that keeps rooted paths and replaces all others, and decodes nothing. */
  function PlainLibrary(): UrlLibrary {
    UrlLibrary(p => if IsRooted(p) then p else "/", s => Free(s, RESERVED), s => Some(s), s => s)
  }

  predicate IsRooted(p: string) {
    var parts := Split(p, '/');
    |parts| >= 2 && parts[0] == "" && forall part | part in parts :: Free(part, RESERVED)
  }

  lemma RootIsRooted()
    ensures Split("/", '/') == ["", ""] && IsRooted("/") && !IsRooted("")
  {
    SplitJoin(["", ""], '/');
    assert Join(["", ""], '/') == "" + ['/'] + Join([""], '/') == "/";
    SplitJoin([""], '/');
  }

  lemma PlainLibraryIsLawful()
    ensures Lawful(PlainLibrary())
  {
    var u := PlainLibrary();
    RootIsRooted();
    MarkerIsPlain();
    forall p ensures YieldsRooted(u, p) {}
    forall parts ensures KeepsRooted(u, parts) {
      if Rooted(u, parts) {
        assert forall part | part in parts :: u.plain(part) && '/' !in part;
        SplitJoin(parts, '/');
      }
    }
  }

  // ---- the credential components

  /** User name, password and host of an authority; the password is absent without a colon. */
  datatype Account = Account(username: string, password: Option<string>, host: string)

  function AccountOf(authority: string): Account {
    var at := SplitLast(authority, '@');
    if at.None? then Account("", None, authority) else
    var colon := SplitOnce(at.value.0, ':');
    if colon.None? then Account(at.value.0, None, at.value.1)
    else Account(colon.value.0, Some(colon.value.1), at.value.1)
  }

  function ProjectAuthority(authority: string): Option<string> {
    var a := AccountOf(authority);
    if a.password.None? || a.password.value == "" then None
    else Some(a.username + ":" + MARKER + "@" + a.host)
  }

  /** The index of the first segment that decodes to `word`, the length when there is none. */
  function FirstSegment(u: UrlLibrary, parts: seq<string>, word: string): (n: nat)
    ensures n <= |parts| && (n < |parts| ==> u.decode(parts[n]) == Some(word))
    ensures forall j | 0 <= j < n :: u.decode(parts[j]) != Some(word)
  {
    if parts == [] || u.decode(parts[0]) == Some(word) then 0 else 1 + FirstSegment(u, parts[1..], word)
  }

  /** The segment that carries the token of a webhook path, if there is one. */
  function TokenSegment(u: UrlLibrary, parts: seq<string>, kind: Kind): Option<nat> {
    if kind != Slack && kind != Discord then None else
    var n := if kind == Slack then FirstSegment(u, parts, "services") + 3 else FirstSegment(u, parts, "webhooks") + 2;
    if n < |parts| && parts[n] != "" then Some(n) else None
  }

  function ProjectPath(u: UrlLibrary, path: string, kind: Kind): Option<string> {
    var parts := Split(u.normalize(path), '/');
    var n := TokenSegment(u, parts, kind);
    if n.None? then None else Some(Join(parts[n.value := MARKER], '/'))
  }

  /** A query pair that names a credential and gives it a value. */
  predicate CredentialPair(u: UrlLibrary, pair: string) {
    var cut := SplitOnce(pair, '=');
    cut.Some? && u.formDecode(cut.value.0) in {"token", "user"} && cut.value.1 != ""
  }

  function ProjectPair(u: UrlLibrary, pair: string): string {
    if CredentialPair(u, pair) then SplitOnce(pair, '=').value.0 + "=" + MARKER else pair
  }

  function ProjectPairs(u: UrlLibrary, pairs: seq<string>): (r: seq<string>)
    ensures |r| == |pairs|
  {
    seq(|pairs|, j requires 0 <= j < |pairs| => ProjectPair(u, pairs[j]))
  }

  function ProjectQuery(u: UrlLibrary, query: string, kind: Kind): Option<string> {
    var pairs := Split(query, '&');
    if kind == Pushover && (exists pair | pair in pairs :: CredentialPair(u, pair))
    then Some(Join(ProjectPairs(u, pairs), '&')) else None
  }

  function Or(o: Option<string>, s: string): string { if o.Some? then o.value else s }

  /** The components with their credentials replaced, none when there is nothing to replace. */
  function ProjectComponents(u: UrlLibrary, c: Uri, kind: Kind): Option<Uri> {
    var authority := ProjectAuthority(c.authority);
    var path := ProjectPath(u, c.path, kind);
    var query := if c.query.Some? then ProjectQuery(u, c.query.value, kind) else None;
    if authority.None? && path.None? && query.None? then None else
    Some(c.(authority := Or(authority, c.authority), path := Or(path, c.path),
            query := if c.query.Some? then Some(Or(query, c.query.value)) else None))
  }

  function Project(u: UrlLibrary, s: string, kind: Kind): Option<string> {
    var c := Cut(s);
    if c.None? then None else
    var projected := ProjectComponents(u, c.value, kind);
    if projected.None? then None else Some(Print(projected.value))
  }

  // ---- the authority

  predicate Word(c: char) { c == '-' || 'a' <= c <= 'z' }

  lemma MarkerIsPlain()
    ensures MARKER != "" && forall c | c in MARKER :: Word(c)
  {}

  lemma AccountIs(username: string, password: string, host: string)
    requires ':' !in username && '@' !in host
    ensures AccountOf(username + ":" + password + "@" + host) == Account(username, Some(password), host)
  {
    var userinfo := username + [':'] + password;
    assert username + ":" + password + "@" + host == userinfo + ['@'] + host;
    SplitLastIs(userinfo, '@', host);
    SplitOnceIs(username, ':', password);
  }

  /** Only the password of an authority changes, and it becomes the marker. */
  lemma AuthorityProjected(authority: string)
    requires ProjectAuthority(authority).Some?
    ensures AccountOf(ProjectAuthority(authority).value) == AccountOf(authority).(password := Some(MARKER))
    ensures forall cs {:trigger Free(authority, cs)} ::
      Free(authority, cs) && Free(MARKER, cs) ==> Free(ProjectAuthority(authority).value, cs)
  {
    var at := SplitLast(authority, '@').value;
    SplitLastParts(authority, '@');
    SplitOnceParts(at.0, ':');
    MarkerIsPlain();
    var a := AccountOf(authority);
    AccountIs(a.username, MARKER, a.host);
    assert authority == a.username + [':'] + a.password.value + ['@'] + a.host;
    forall cs {:trigger Free(authority, cs)} | Free(authority, cs) && Free(MARKER, cs)
      ensures Free(ProjectAuthority(authority).value, cs)
    {
      assert authority[|a.username|] == ':' && ':' in authority;
      assert authority[|a.username| + 1 + |a.password.value|] == '@' && '@' in authority;
      assert forall c | c in a.username :: c in authority;
      assert forall c | c in a.host :: c in authority;
    }
  }

  // ---- the path

  lemma FirstSegmentKept(u: UrlLibrary, parts: seq<string>, word: string, n: nat, value: string)
    requires FirstSegment(u, parts, word) < n < |parts|
    ensures FirstSegment(u, parts[n := value], word) == FirstSegment(u, parts, word)
  {
    var f, g := FirstSegment(u, parts, word), FirstSegment(u, parts[n := value], word);
    assert u.decode(parts[n := value][f]) == Some(word);
    assert g <= f && parts[n := value][g] == parts[g];
  }

  /** Rooted paths are cut into their segments again, start with a slash and hold no query. */
  lemma RootedJoin(u: UrlLibrary, parts: seq<string>)
    requires Lawful(u) && Rooted(u, parts)
    ensures Split(Join(parts, '/'), '/') == parts && u.normalize(Join(parts, '/')) == Join(parts, '/')
    ensures Join(parts, '/') != [] && Join(parts, '/')[0] == '/' && Free(Join(parts, '/'), {'?', '#'})
  {
    forall p | p in parts ensures '/' !in p && Free(p, {'?', '#'}) { assert u.plain(p) && Free(p, RESERVED); }
    SplitJoin(parts, '/');
    JoinFree(parts, '/', {'?', '#'});
    assert KeepsRooted(u, parts);
    assert Join(parts, '/') == parts[0] + ['/'] + Join(parts[1..], '/');
  }

  lemma TokenIsNotFirst(u: UrlLibrary, path: string, kind: Kind)
    requires Lawful(u) && ProjectPath(u, path, kind).Some?
    ensures var before := Split(u.normalize(path), '/');
      Rooted(u, before) && 0 < TokenSegment(u, before, kind).value < |before|
  {
    assert YieldsRooted(u, path);
  }

  /** Replacing the token leaves a normalized path whose token is the replacement. */
  lemma PathProjected(u: UrlLibrary, path: string, kind: Kind)
    requires Lawful(u) && ProjectPath(u, path, kind).Some?
    ensures var before, after := Split(u.normalize(path), '/'), ProjectPath(u, path, kind).value;
      && Split(after, '/') == before[TokenSegment(u, before, kind).value := MARKER]
      && u.normalize(after) == after
      && after != [] && after[0] == '/' && Free(after, {'?', '#'})
  {
    TokenIsNotFirst(u, path, kind);
    var before := Split(u.normalize(path), '/');
    var parts := before[TokenSegment(u, before, kind).value := MARKER];
    assert forall p | p in parts :: p in before || p == MARKER;
    RootedJoin(u, parts);
  }

  lemma TokenKept(u: UrlLibrary, parts: seq<string>, kind: Kind)
    requires TokenSegment(u, parts, kind).Some?
    ensures TokenSegment(u, parts[TokenSegment(u, parts, kind).value := MARKER], kind) == TokenSegment(u, parts, kind)
  {
    var n := TokenSegment(u, parts, kind).value;
    MarkerIsPlain();
    if kind == Slack { FirstSegmentKept(u, parts, "services", n, MARKER); }
    else { FirstSegmentKept(u, parts, "webhooks", n, MARKER); }
  }

  lemma PathProjectedTwice(u: UrlLibrary, path: string, kind: Kind)
    requires Lawful(u) && ProjectPath(u, path, kind).Some?
    ensures ProjectPath(u, ProjectPath(u, path, kind).value, kind) == ProjectPath(u, path, kind)
  {
    PathProjected(u, path, kind);
    var before := Split(u.normalize(path), '/');
    var n := TokenSegment(u, before, kind).value;
    TokenKept(u, before, kind);
    assert before[n := MARKER][n := MARKER] == before[n := MARKER];
  }

  // ---- the query

  lemma PairProjected(u: UrlLibrary, pair: string)
    requires CredentialPair(u, pair)
    ensures SplitOnce(ProjectPair(u, pair), '=') == Some((SplitOnce(pair, '=').value.0, MARKER))
    ensures CredentialPair(u, ProjectPair(u, pair)) && ProjectPair(u, ProjectPair(u, pair)) == ProjectPair(u, pair)
    ensures forall cs {:trigger Free(pair, cs)} ::
      Free(pair, cs) && Free(MARKER, cs) ==> Free(ProjectPair(u, pair), cs)
  {
    var (name, value) := SplitOnce(pair, '=').value;
    SplitOnceParts(pair, '=');
    MarkerIsPlain();
    assert name + "=" + MARKER == name + ['='] + MARKER;
    SplitOnceIs(name, '=', MARKER);
    assert pair[|name|] == '=' && forall c | c in name :: c in pair;
  }

  lemma PairStaysFree(u: UrlLibrary, pair: string, c: char)
    requires c !in pair && c !in MARKER && c != '='
    ensures c !in ProjectPair(u, pair)
  {
    if CredentialPair(u, pair) {
      PairProjected(u, pair);
      assert Free(pair, {c}) && Free(MARKER, {c});
      assert Free(ProjectPair(u, pair), {c});
    }
  }

  /** Every pair of the projected query is the projection of the pair in its place. */
  lemma QueryProjected(u: UrlLibrary, query: string, kind: Kind)
    requires ProjectQuery(u, query, kind).Some? && Free(query, {'#'})
    ensures Split(ProjectQuery(u, query, kind).value, '&') == ProjectPairs(u, Split(query, '&'))
    ensures Free(ProjectQuery(u, query, kind).value, {'#'})
  {
    var pairs := Split(query, '&');
    SplitFree(query, '&', {'#'});
    MarkerIsPlain();
    forall p | p in ProjectPairs(u, pairs) ensures '&' !in p && Free(p, {'#'}) {
      var j :| 0 <= j < |pairs| && p == ProjectPair(u, pairs[j]);
      assert pairs[j] in pairs;
      assert Free(pairs[j], {'#'});
      PairStaysFree(u, pairs[j], '&');
      PairStaysFree(u, pairs[j], '#');
    }
    SplitJoin(ProjectPairs(u, pairs), '&');
    JoinFree(ProjectPairs(u, pairs), '&', {'#'});
  }

  lemma QueryProjectedTwice(u: UrlLibrary, query: string, kind: Kind)
    requires ProjectQuery(u, query, kind).Some? && Free(query, {'#'})
    ensures ProjectQuery(u, ProjectQuery(u, query, kind).value, kind) == ProjectQuery(u, query, kind)
  {
    QueryProjected(u, query, kind);
    var pairs := Split(query, '&');
    forall j | 0 <= j < |pairs| ensures ProjectPair(u, ProjectPair(u, pairs[j])) == ProjectPair(u, pairs[j]) {
      if CredentialPair(u, pairs[j]) { PairProjected(u, pairs[j]); }
    }
    assert ProjectPairs(u, ProjectPairs(u, pairs)) == ProjectPairs(u, pairs);
    var pair :| pair in pairs && CredentialPair(u, pair);
    var j :| 0 <= j < |pairs| && pairs[j] == pair;
    PairProjected(u, pair);
    assert ProjectPairs(u, pairs)[j] in ProjectPairs(u, pairs);
  }

  lemma EmptyPathHasNoToken(u: UrlLibrary, kind: Kind)
    requires Lawful(u)
    ensures ProjectPath(u, "", kind).None?
  {
    assert Split("/", '/') == ["", ""] by {
      assert Join(["", ""], '/') == "" + ['/'] + "";
      SplitJoin(["", ""], '/');
    }
  }

  // ---- the whole URI

  lemma ProjectedIsWellCut(u: UrlLibrary, c: Uri, kind: Kind)
    requires Lawful(u) && WellCut(c) && ProjectComponents(u, c, kind).Some?
    ensures WellCut(ProjectComponents(u, c, kind).value)
  {
    MarkerIsPlain();
    if ProjectAuthority(c.authority).Some? { AuthorityProjected(c.authority); }
    if ProjectPath(u, c.path, kind).Some? {
      PathProjected(u, c.path, kind);
      EmptyPathHasNoToken(u, kind);
    }
    if c.query.Some? && ProjectQuery(u, c.query.value, kind).Some? { QueryProjected(u, c.query.value, kind); }
  }

  lemma AuthorityTwice(a: string)
    ensures var after := Or(ProjectAuthority(a), a);
      && ProjectAuthority(after) == ProjectAuthority(a)
      && AccountOf(after) == 
           (if ProjectAuthority(a).Some? then AccountOf(a).(password := Some(MARKER)) else AccountOf(a))
  {
    MarkerIsPlain();
    if ProjectAuthority(a).Some? { AuthorityProjected(a); }
  }

  lemma PathTwice(u: UrlLibrary, path: string, kind: Kind)
    requires Lawful(u)
    ensures ProjectPath(u, Or(ProjectPath(u, path, kind), path), kind) == ProjectPath(u, path, kind)
  {
    if ProjectPath(u, path, kind).Some? { PathProjectedTwice(u, path, kind); }
  }

  lemma QueryTwice(u: UrlLibrary, query: string, kind: Kind)
    requires Free(query, {'#'})
    ensures ProjectQuery(u, Or(ProjectQuery(u, query, kind), query), kind) == ProjectQuery(u, query, kind)
  {
    if ProjectQuery(u, query, kind).Some? { QueryProjectedTwice(u, query, kind); }
  }

  lemma ProjectedTwice(u: UrlLibrary, c: Uri, kind: Kind)
    requires Lawful(u) && WellCut(c) && ProjectComponents(u, c, kind).Some?
    ensures ProjectComponents(u, ProjectComponents(u, c, kind).value, kind) == ProjectComponents(u, c, kind)
  {
    AuthorityTwice(c.authority);
    PathTwice(u, c.path, kind);
    if c.query.Some? { QueryTwice(u, c.query.value, kind); }
  }

  /** The output is cut again into the projected components: the scheme, the fragment and the frame
      around every component stay where they were. */
  lemma OutputIsRecut(u: UrlLibrary, s: string, kind: Kind)
    requires Lawful(u) && Project(u, s, kind).Some?
    ensures Cut(Project(u, s, kind).value) == ProjectComponents(u, Cut(s).value, kind)
    ensures var before, after := Cut(s).value, Cut(Project(u, s, kind).value).value;
      && after.scheme == before.scheme && after.fragment == before.fragment
      && after.query.Some? == before.query.Some?
      && after.authority == Or(ProjectAuthority(before.authority), before.authority)
      && after.path == Or(ProjectPath(u, before.path, kind), before.path)
      && (before.query.Some? ==>
            after.query.value == Or(ProjectQuery(u, before.query.value, kind), before.query.value))
  {
    CutIsWellCut(s);
    ProjectedIsWellCut(u, Cut(s).value, kind);
    PrintRecut(ProjectComponents(u, Cut(s).value, kind).value);
  }

  /** Projecting an output again returns it unchanged. */
  lemma ProjectionIsIdempotent(u: UrlLibrary, s: string, kind: Kind)
    requires Lawful(u) && Project(u, s, kind).Some?
    ensures Project(u, Project(u, s, kind).value, kind) == Project(u, s, kind)
  {
    CutIsWellCut(s);
    OutputIsRecut(u, s, kind);
    ProjectedTwice(u, Cut(s).value, kind);
  }

  /** The same user name and host; a nonempty password has become the marker. */
  predicate PasswordReplaced(before: string, after: string) {
    var b := AccountOf(before);
    AccountOf(after) ==
      b.(password := if b.password.Some? && b.password.value != "" then Some(MARKER) else b.password)
  }

  lemma AuthorityReplaced(a: string)
    ensures PasswordReplaced(a, Or(ProjectAuthority(a), a))
  {
    AuthorityTwice(a);
  }

  /** The output names the account of the input, with a nonempty password replaced. */
  lemma AccountOfOutput(u: UrlLibrary, s: string, kind: Kind)
    requires Lawful(u) && Project(u, s, kind).Some?
    ensures Cut(Project(u, s, kind).value).Some?
    ensures PasswordReplaced(Cut(s).value.authority, Cut(Project(u, s, kind).value).value.authority)
  {
    OutputIsRecut(u, s, kind);
    AuthorityReplaced(Cut(s).value.authority);
  }

  /** `after` has the pairs of `before`: a credential pair keeps its name and gets the marker as its
      value, and every other pair is kept as it was written. */
  predicate PairsReplaced(u: UrlLibrary, before: seq<string>, after: seq<string>, kind: Kind) {
    && |after| == |before|
    && forall j | 0 <= j < |before| ::
         if kind == Pushover && CredentialPair(u, before[j])
         then SplitOnce(after[j], '=') == Some((SplitOnce(before[j], '=').value.0, MARKER))
         else after[j] == before[j]
  }

  lemma QueryReplaced(u: UrlLibrary, query: string, kind: Kind)
    requires Free(query, {'#'})
    ensures PairsReplaced(u, Split(query, '&'), Split(Or(ProjectQuery(u, query, kind), query), '&'), kind)
  {
    var before := Split(query, '&');
    if ProjectQuery(u, query, kind).Some? {
      QueryProjected(u, query, kind);
      forall j | 0 <= j < |before| && CredentialPair(u, before[j])
        ensures SplitOnce(ProjectPairs(u, before)[j], '=') == Some((SplitOnce(before[j], '=').value.0, MARKER))
      {
        PairProjected(u, before[j]);
      }
    } else {
      assert forall j | 0 <= j < |before| :: before[j] in before;
    }
  }

  /** The output has the query pairs of the input, one for one, with credential values replaced. */
  lemma PairsOfOutput(u: UrlLibrary, s: string, kind: Kind)
    requires Lawful(u) && Project(u, s, kind).Some? && Cut(s).value.query.Some?
    ensures Cut(Project(u, s, kind).value).Some? && Cut(Project(u, s, kind).value).value.query.Some?
    ensures PairsReplaced(u, Split(Cut(s).value.query.value, '&'),
                          Split(Cut(Project(u, s, kind).value).value.query.value, '&'), kind)
  {
    OutputIsRecut(u, s, kind);
    CutIsWellCut(s);
    QueryReplaced(u, Cut(s).value.query.value, kind);
  }

  /** `after` is the path `before`, or its normal form with the token segment replaced. */
  predicate TokenReplaced(u: UrlLibrary, before: string, after: string, kind: Kind) {
    var segments := Split(u.normalize(before), '/');
    var n := TokenSegment(u, segments, kind);
    if n.Some? then Split(after, '/') == segments[n.value := MARKER] else after == before
  }

  lemma PathReplaced(u: UrlLibrary, path: string, kind: Kind)
    requires Lawful(u)
    ensures TokenReplaced(u, path, Or(ProjectPath(u, path, kind), path), kind)
  {
    if ProjectPath(u, path, kind).Some? { PathProjected(u, path, kind); }
  }

  /** The path of the output is the path of the input, or its normal form with the token replaced. */
  lemma PathOfOutput(u: UrlLibrary, s: string, kind: Kind)
    requires Lawful(u) && Project(u, s, kind).Some?
    ensures Cut(Project(u, s, kind).value).Some?
    ensures TokenReplaced(u, Cut(s).value.path, Cut(Project(u, s, kind).value).value.path, kind)
  {
    OutputIsRecut(u, s, kind);
    PathReplaced(u, Cut(s).value.path, kind);
  }

  /** The components that hold a credential. */
  predicate HasCredential(u: UrlLibrary, c: Uri, kind: Kind) {
    || (AccountOf(c.authority).password.Some? && AccountOf(c.authority).password.value != "")
    || TokenSegment(u, Split(u.normalize(c.path), '/'), kind).Some?
    || (kind == Pushover && c.query.Some? && exists pair | pair in Split(c.query.value, '&') :: CredentialPair(u, pair))
  }

  /** The original text is kept exactly when no recognized component holds a credential. */
  lemma KeptUnlessCredential(u: UrlLibrary, s: string, kind: Kind)
    ensures Project(u, s, kind).None? <==> Cut(s).None? || !HasCredential(u, Cut(s).value, kind)
  {}
}
