/** What the projection of an endpoint address does, with every name, place and separator written out. */
module EndpointCredentials {
  import opened Json
  import opened Sequences
  import opened Strings
  import opened EndpointUri

  // ---- cutting an address

  predicate Letter(c: char) { 'a' <= c <= 'z' || 'A' <= c <= 'Z' }

  /** No scheme, or one of those that take any number of slashes of either kind. */
  predicate TakesSlashes(scheme: Option<string>) {
    scheme.None? || LowerAll(scheme.value) == "http" || LowerAll(scheme.value) == "https"
    || LowerAll(scheme.value) == "ws" || LowerAll(scheme.value) == "wss"
    || LowerAll(scheme.value) == "ftp" || LowerAll(scheme.value) == "file"
  }

  predicate Slash(c: char) { c == '/' || c == '\\' }

  predicate EndsAuthority(c: char, scheme: Option<string>) {
    c == '/' || c == '?' || c == '#' || (c == '\\' && TakesSlashes(scheme))
  }

  /** The address consists of these components in their order. */
  predicate Consists(s: string, u: Uri, slashes: string) {
    var prefix := if u.scheme.Some? then u.scheme.value + ":" else "";
    var query := if u.query.Some? then "?" + u.query.value else "";
    s == prefix + (slashes + (u.authority + (u.path + query) + u.fragment))
  }

  /** A letter, and then letters, digits, plus, minus and dots. */
  predicate Named(scheme: string) {
    && scheme != "" && Letter(scheme[0])
    && forall c | c in scheme :: Letter(c) || '0' <= c <= '9' || c == '+' || c == '-' || c == '.'
  }

  /** Each component is one: the scheme is a name, the slashes are slashes, and nothing contains what would
      end it. */
  predicate Proper(u: Uri, slashes: string) {
    && (u.scheme.Some? ==> Named(u.scheme.value))
    && (if TakesSlashes(u.scheme)
        then (forall c | c in slashes :: Slash(c)) && (u.authority == "" ==> u.path == "")
             && (u.authority != "" ==> !Slash(u.authority[0])) && (u.scheme.None? ==> "//" <= slashes)
        else slashes == "//")
    && (forall c | c in u.authority :: !EndsAuthority(c, u.scheme))
    && (u.path != "" ==> EndsAuthority(u.path[0], u.scheme)) && (forall c | c in u.path :: c != '?' && c != '#')
    && (u.query.Some? ==> '#' !in u.query.value) && (u.fragment != "" ==> u.fragment[0] == '#')
  }

  lemma SameSchemes(scheme: Option<string>)
    ensures TakesSlashes(scheme) <==> Special(scheme)
    ensures scheme.Some? ==> (Named(scheme.value) <==> SchemeName(scheme.value))
  {
    assert forall c :: Letter(c) <==> Alphabetic(c);
  }

  lemma SameEnds(c: char, scheme: Option<string>)
    ensures EndsAuthority(c, scheme) <==> c in AuthorityEnds(Special(scheme))
  {
    SameSchemes(scheme);
  }

  lemma {:induction false} SlashesComeOff(slashes: string, rest: string)
    requires (forall c | c in slashes :: Slash(c)) && (rest != "" ==> !Slash(rest[0]))
    ensures TrimSlashes(slashes + rest) == rest
  {
    if slashes == "" {
      assert slashes + rest == rest;
    } else {
      assert slashes[0] in slashes && slashes[0] in SLASHES;
      assert (slashes + rest)[0] == slashes[0] && (slashes + rest)[1..] == slashes[1..] + rest;
      SlashesComeOff(slashes[1..], rest);
    }
  }

  lemma {:induction false} LeadingSlashes(s: string) returns (slashes: string)
    ensures s == slashes + TrimSlashes(s) && forall c | c in slashes :: Slash(c)
    ensures "//" <= s ==> "//" <= slashes
  {
    if s != "" && s[0] in SLASHES {
      var rest := LeadingSlashes(s[1..]);
      slashes := [s[0]] + rest;
      assert "//" <= s ==> s[1..] != "" && s[1] == '/' && s[1..][0] == '/';
      assert s[1..] != "" && s[1] == '/' ==> rest != "" && rest[0] == '/';
    } else {
      slashes := "";
    }
  }

  lemma ProperIsWellCut(u: Uri, slashes: string)
    requires Proper(u, slashes)
    ensures WellCut(u)
  {
    SameSchemes(u.scheme);
    forall c ensures EndsAuthority(c, u.scheme) <==> c in AuthorityEnds(Special(u.scheme)) { SameEnds(c, u.scheme); }
  }

  function Rest(u: Uri): string { u.authority + Resource(u) + u.fragment }

  lemma ConsistsOfRest(s: string, u: Uri, slashes: string)
    ensures Consists(s, u, slashes) <==>
      s == (if u.scheme.Some? then u.scheme.value + ":" else "") + (slashes + Rest(u))
  {
    var query := if u.query.Some? then "?" + u.query.value else "";
    assert Resource(u) == u.path + query;
    Regroup(u.authority, u.path + query, u.fragment);
    assert u.authority + (u.path + query) + u.fragment == Rest(u);
  }

  /** Whatever consists of proper components is cut into them. */
  lemma ProperIsCut(s: string, u: Uri, slashes: string)
    requires Consists(s, u, slashes) && Proper(u, slashes)
    ensures Cut(s) == Some(u)
  {
    ProperIsWellCut(u, slashes);
    ConsistsOfRest(s, u, slashes);
    SameSchemes(u.scheme);
    RestRecut(u);
    if TakesSlashes(u.scheme) { RestStarts(u, slashes); }
    SchemeIsFound(s, u.scheme, slashes, Rest(u));
  }

  lemma RestStarts(u: Uri, slashes: string)
    requires Proper(u, slashes) && TakesSlashes(u.scheme)
    ensures Rest(u) != "" ==> !Slash(Rest(u)[0])
  {}

  /** The slashes between a scheme and what follows them. */
  predicate Between(scheme: Option<string>, slashes: string, rest: string) {
    if TakesSlashes(scheme)
    then (forall c | c in slashes :: Slash(c)) && (rest != "" ==> !Slash(rest[0]))
         && (scheme.None? ==> "//" <= slashes)
    else slashes == "//"
  }

  lemma SchemeIsFound(s: string, scheme: Option<string>, slashes: string, rest: string)
    requires s == (if scheme.Some? then scheme.value + ":" else "") + (slashes + rest)
    requires scheme.Some? ==> Named(scheme.value)
    requires Between(scheme, slashes, rest)
    ensures CutScheme(s) == Some((scheme, rest))
  {
    SameSchemes(scheme);
    if scheme.None? {
      assert s == slashes + rest && "//" <= s;
      SlashesComeOff(slashes, rest);
    } else {
      var name := scheme.value;
      assert s == name + [':'] + (slashes + rest) && s[0] == name[0];
      assert forall c | c in name :: c != ':';
      SplitOnceIs(name, ':', slashes + rest);
      if TakesSlashes(scheme) { SlashesComeOff(slashes, rest); } else { assert (slashes + rest)[2..] == rest; }
    }
  }

  lemma WellCutIsProper(u: Uri, slashes: string)
    requires WellCut(u)
    requires Between(u.scheme, slashes, Rest(u))
    ensures Proper(u, slashes)
  {
    SameSchemes(u.scheme);
    forall c ensures EndsAuthority(c, u.scheme) <==> c in AuthorityEnds(Special(u.scheme)) { SameEnds(c, u.scheme); }
    if u.authority != "" { assert Rest(u)[0] == u.authority[0]; }
  }

  /** Every cut goes through the rest after the scheme and the slashes. */
  lemma CutGoesOn(s: string, u: Uri)
    requires Cut(s) == Some(u)
    ensures CutScheme(s) == Some((u.scheme, Rest(u)))
  {
    var (scheme, rest) := CutScheme(s).value;
    RestJoins(scheme, rest);
  }

  lemma ResourceJoins(resource: string)
    ensures var cut := SplitOnce(resource, '?');
      cut.Some? ==> cut.value.0 + (['?'] + cut.value.1) == resource
  {
    if SplitOnce(resource, '?').Some? {
      SplitOnceParts(resource, '?');
      Regroup(SplitOnce(resource, '?').value.0, ['?'], SplitOnce(resource, '?').value.1);
    }
  }

  lemma JoinTwice(s: string, n: nat, f: nat)
    requires n <= |s| && f <= |s[n..]|
    ensures s[..n] + s[n..][..f] + s[n..][f..] == s
  {
    assert s[n..][..f] + s[n..][f..] == s[n..];
    Regroup(s[..n], s[n..][..f], s[n..][f..]);
    assert s[..n] + s[n..] == s;
  }

  lemma RestJoins(scheme: Option<string>, rest: string)
    ensures Rest(CutRest(scheme, rest)) == rest && CutRest(scheme, rest).scheme == scheme
  {
    var n := First(rest, AuthorityEnds(Special(scheme)));
    var f := First(rest[n..], {'#'});
    var u := CutRest(scheme, rest);
    ResourceJoins(rest[n..][..f]);
    assert Resource(u) == rest[n..][..f] by { assert u.query.None? ==> u.path + "" == u.path; }
    assert u.authority == rest[..n] && u.fragment == rest[n..][f..];
    JoinTwice(rest, n, f);
  }

  /** The slashes between the scheme and the rest. */
  lemma SlashesBetween(s: string, scheme: Option<string>, rest: string) returns (slashes: string)
    requires CutScheme(s) == Some((scheme, rest))
    ensures s == (if scheme.Some? then scheme.value + ":" else "") + (slashes + rest)
    ensures Between(scheme, slashes, rest)
  {
    SameSchemes(scheme);
    if "//" <= s {
      slashes := LeadingSlashes(s);
      assert "" + (slashes + rest) == s;
    } else {
      SplitOnceParts(s, ':');
      var after := SplitOnce(s, ':').value.1;
      assert s == scheme.value + ":" + after;
      if TakesSlashes(scheme) {
        slashes := LeadingSlashes(after);
      } else {
        slashes := "//";
        assert after == "//" + rest;
      }
    }
  }

  /** An address is cut into components exactly when it consists of them and each of them is proper: no
      other reading of it exists, and no address that has one is left uncut. */
  lemma CutExactly(s: string, u: Uri)
    ensures Cut(s) == Some(u) <==> exists slashes :: Consists(s, u, slashes) && Proper(u, slashes)
  {
    if Cut(s) == Some(u) {
      CutIsWellCut(s);
      CutGoesOn(s, u);
      var slashes := SlashesBetween(s, u.scheme, Rest(u));
      WellCutIsProper(u, slashes);
      ConsistsOfRest(s, u, slashes);
    }
    if slashes :| Consists(s, u, slashes) && Proper(u, slashes) { ProperIsCut(s, u, slashes); }
  }

  // ---- the same, component by component and written out

  /** Segment `n` of the path is the first that decodes to `word`. */
  predicate FirstDecoding(u: UrlLibrary, segments: seq<string>, n: nat, word: string) {
    && n < |segments| && u.decode(segments[n]) == Some(word)
    && forall j | 0 <= j < n :: u.decode(segments[j]) != Some(word)
  }

  /** The token of a webhook path is segment `n`: three after the first "services" for Slack, two after the
      first "webhooks" for Discord. */
  predicate TokenAt(u: UrlLibrary, path: string, kind: Kind, n: nat) {
    var segments := Split(u.normalize(path), '/');
    && n < |segments| && segments[n] != ""
    && ((kind == Slack && n >= 3 && FirstDecoding(u, segments, n - 3, "services"))
        || (kind == Discord && n >= 2 && FirstDecoding(u, segments, n - 2, "webhooks")))
  }

  lemma FirstDecodingIsFound(u: UrlLibrary, segments: seq<string>, n: nat, word: string)
    ensures FirstDecoding(u, segments, n, word) <==> (n < |segments| && FirstSegment(u, segments, word) == n)
  {}

  lemma TokenIsFound(u: UrlLibrary, path: string, kind: Kind, n: nat)
    ensures TokenAt(u, path, kind, n) <==> TokenSegment(u, Split(u.normalize(path), '/'), kind) == Some(n)
  {
    var segments := Split(u.normalize(path), '/');
    if kind == Slack && n >= 3 { FirstDecodingIsFound(u, segments, n - 3, "services"); }
    if kind == Discord && n >= 2 { FirstDecodingIsFound(u, segments, n - 2, "webhooks"); }
  }

  /** Of a path with a token every other segment of its normal form is kept, and the token is replaced;
      every other path is kept as it was written. */
  lemma TokensAreReplaced(u: UrlLibrary, s: string, kind: Kind, n: nat)
    requires Lawful(u) && Project(u, s, kind).Some?
    ensures Cut(Project(u, s, kind).value).Some?
    ensures var before, after := Cut(s).value.path, Cut(Project(u, s, kind).value).value.path;
      && (TokenAt(u, before, kind, n) ==>
            Split(after, '/') == Split(u.normalize(before), '/')[n := "credential-in-original-file"])
      && ((forall m: nat :: !TokenAt(u, before, kind, m)) ==> after == before)
  {
    PathOfOutput(u, s, kind);
    var before := Cut(s).value.path;
    TokenIsFound(u, before, kind, n);
    var token := TokenSegment(u, Split(u.normalize(before), '/'), kind);
    if token.Some? { TokenIsFound(u, before, kind, token.value); }
  }

  /** The pair gives a parameter called "token" or "user" a value. */
  ghost predicate NamesCredential(u: UrlLibrary, pair: string) {
    exists name, value :: IsPair(pair, name, value) && value != ""
      && (u.formDecode(name) == "token" || u.formDecode(name) == "user")
  }

  /** The name and the value of a pair, around its first equals sign. */
  predicate IsPair(pair: string, name: string, value: string) { pair == name + "=" + value && '=' !in name }

  lemma PairIsCut(pair: string, name: string, value: string)
    ensures IsPair(pair, name, value) <==> SplitOnce(pair, '=') == Some((name, value))
  {
    assert name + "=" + value == name + ['='] + value;
    if IsPair(pair, name, value) { SplitOnceIs(name, '=', value); }
    if SplitOnce(pair, '=') == Some((name, value)) { SplitOnceParts(pair, '='); }
  }

  lemma CredentialPairsAreNamed(u: UrlLibrary, pair: string)
    ensures CredentialPair(u, pair) <==> NamesCredential(u, pair)
  {
    if CredentialPair(u, pair) {
      var (name, value) := SplitOnce(pair, '=').value;
      PairIsCut(pair, name, value);
    }
    if NamesCredential(u, pair) {
      var name, value :| IsPair(pair, name, value) && value != ""
        && (u.formDecode(name) == "token" || u.formDecode(name) == "user");
      PairIsCut(pair, name, value);
    }
  }

  /** Pushover parameters called "token" or "user" get the marker as their value; all pairs of other
      endpoints, and all other pairs, are kept as they were written. */
  lemma ParametersAreReplaced(u: UrlLibrary, s: string, kind: Kind, j: nat)
    requires Lawful(u) && Project(u, s, kind).Some? && Cut(s).value.query.Some?
    requires j < |Split(Cut(s).value.query.value, '&')|
    ensures Cut(Project(u, s, kind).value).Some? && Cut(Project(u, s, kind).value).value.query.Some?
    ensures var before := Split(Cut(s).value.query.value, '&');
      var after := Split(Cut(Project(u, s, kind).value).value.query.value, '&');
      && |after| == |before|
      && (if kind == Pushover && NamesCredential(u, before[j])
          then forall name, value | IsPair(before[j], name, value) ::
                 IsPair(after[j], name, "credential-in-original-file")
          else after[j] == before[j])
  {
    PairsOfOutput(u, s, kind);
    var before := Split(Cut(s).value.query.value, '&');
    var after := Split(Cut(Project(u, s, kind).value).value.query.value, '&');
    CredentialPairsAreNamed(u, before[j]);
    forall name, value | kind == Pushover && NamesCredential(u, before[j]) && IsPair(before[j], name, value)
      ensures IsPair(after[j], name, "credential-in-original-file")
    {
      PairIsCut(before[j], name, value);
      PairIsCut(after[j], name, MARKER);
    }
  }

  /** The user name, password and host of an authority: the host after the last at sign, and the password
      after the first colon before it. */
  predicate HasPassword(authority: string, username: string, password: string, host: string) {
    authority == username + ":" + password + "@" + host && ':' !in username && '@' !in host
  }

  lemma PasswordIsCut(authority: string, username: string, password: string, host: string)
    ensures HasPassword(authority, username, password, host) <==>
      AccountOf(authority) == Account(username, Some(password), host)
  {
    if HasPassword(authority, username, password, host) {
      AccountIs(username, password, host);
    }
    if AccountOf(authority) == Account(username, Some(password), host) {
      SplitLastParts(authority, '@');
      var (userinfo, _) := SplitLast(authority, '@').value;
      SplitOnceParts(userinfo, ':');
      assert authority == userinfo + ['@'] + host && userinfo == username + [':'] + password;
      assert username + ":" + password + "@" + host == userinfo + ['@'] + host;
    }
  }

  lemma PasswordIsReplaced(authority: string, username: string, password: string, host: string)
    requires HasPassword(authority, username, password, host)
    ensures ProjectAuthority(authority) ==
      if password == "" then None else Some(username + ":" + "credential-in-original-file" + "@" + host)
  {
    PasswordIsCut(authority, username, password, host);
  }

  lemma OtherAuthoritiesAreKept(authority: string)
    requires forall username, password, host | HasPassword(authority, username, password, host) :: password == ""
    ensures ProjectAuthority(authority).None?
  {
    if ProjectAuthority(authority).Some? {
      var a := AccountOf(authority);
      PasswordIsCut(authority, a.username, a.password.value, a.host);
    }
  }

  ghost predicate NoPassword(authority: string) {
    forall username, password, host | HasPassword(authority, username, password, host) :: password == ""
  }

  /** A nonempty password is replaced, the user name and the host stay; every other authority is kept as it
      was written. */
  lemma PasswordsAreReplaced(u: UrlLibrary, s: string, kind: Kind, username: string, password: string, host: string)
    requires Lawful(u) && Project(u, s, kind).Some?
    ensures Cut(Project(u, s, kind).value).Some?
    ensures var before, after := Cut(s).value.authority, Cut(Project(u, s, kind).value).value.authority;
      && (HasPassword(before, username, password, host) && password != "" ==>
            after == username + ":" + "credential-in-original-file" + "@" + host)
      && (NoPassword(before) ==> after == before)
  {
    OutputIsRecut(u, s, kind);
    var before := Cut(s).value.authority;
    if HasPassword(before, username, password, host) { PasswordIsReplaced(before, username, password, host); }
    if NoPassword(before) { OtherAuthoritiesAreKept(before); }
  }

  ghost predicate ShowsCredential(u: UrlLibrary, c: Uri, kind: Kind) {
    || (exists username, password, host :: HasPassword(c.authority, username, password, host) && password != "")
    || (exists n: nat :: TokenAt(u, c.path, kind, n))
    || (kind == Pushover && c.query.Some? && exists j ::
          0 <= j < |Split(c.query.value, '&')| && NamesCredential(u, Split(c.query.value, '&')[j]))
  }

  /** An address is projected exactly when it can be cut and has a nonempty password, a token or a
      credential parameter. */
  lemma ProjectedExactlyWithCredentials(u: UrlLibrary, s: string, kind: Kind)
    ensures Project(u, s, kind).Some? <==> (Cut(s).Some? && ShowsCredential(u, Cut(s).value, kind))
  {
    KeptUnlessCredential(u, s, kind);
    if Cut(s).Some? {
      PasswordExactly(Cut(s).value.authority);
      TokenExactly(u, Cut(s).value.path, kind);
      if Cut(s).value.query.Some? { ParameterExactly(u, Cut(s).value.query.value); }
    }
  }

  lemma PasswordExactly(authority: string)
    ensures (AccountOf(authority).password.Some? && AccountOf(authority).password.value != "") <==>
      exists username, password, host :: HasPassword(authority, username, password, host) && password != ""
  {
    var a := AccountOf(authority);
    if a.password.Some? { PasswordIsCut(authority, a.username, a.password.value, a.host); }
    forall username, password, host | HasPassword(authority, username, password, host)
      ensures a == Account(username, Some(password), host)
    {
      PasswordIsCut(authority, username, password, host);
    }
  }

  lemma TokenExactly(u: UrlLibrary, path: string, kind: Kind)
    ensures TokenSegment(u, Split(u.normalize(path), '/'), kind).Some? <==> exists n: nat :: TokenAt(u, path, kind, n)
  {
    var token := TokenSegment(u, Split(u.normalize(path), '/'), kind);
    if token.Some? { TokenIsFound(u, path, kind, token.value); }
    forall n: nat | TokenAt(u, path, kind, n) ensures token == Some(n) { TokenIsFound(u, path, kind, n); }
  }

  lemma ParameterExactly(u: UrlLibrary, query: string)
    ensures (exists pair | pair in Split(query, '&') :: CredentialPair(u, pair)) <==>
      exists j :: 0 <= j < |Split(query, '&')| && NamesCredential(u, Split(query, '&')[j])
  {
    var pairs := Split(query, '&');
    forall j | 0 <= j < |pairs| ensures CredentialPair(u, pairs[j]) <==> NamesCredential(u, pairs[j]) {
      CredentialPairsAreNamed(u, pairs[j]);
    }
    if pair :| pair in pairs && CredentialPair(u, pair) {
      var j :| 0 <= j < |pairs| && pairs[j] == pair;
    }
    if j :| 0 <= j < |pairs| && NamesCredential(u, pairs[j]) { assert pairs[j] in pairs; }
  }
}
