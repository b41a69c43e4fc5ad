/** Splitting, joining and lower-casing strings. */
module Strings {
  import opened Json

  /** ASCII lower case. */
  function Lower(c: char): char { if 'A' <= c <= 'Z' then (c as int + 32) as char else c }

  function LowerAll(s: string): string { seq(|s|, j requires 0 <= j < |s| => Lower(s[j])) }

  /** The same character, or the same ASCII letter in the other case. */
  predicate SameLetter(a: char, b: char) {
    a == b || ('A' <= a <= 'Z' && b as int == a as int + 32) || ('A' <= b <= 'Z' && a as int == b as int + 32)
  }

  predicate EqualIgnoringCase(a: string, b: string) {
    |a| == |b| && forall j | 0 <= j < |a| :: SameLetter(a[j], b[j])
  }

  lemma SameLower(a: string, b: string)
    ensures LowerAll(a) == LowerAll(b) <==> EqualIgnoringCase(a, b)
  {
    if LowerAll(a) == LowerAll(b) {
      assert |a| == |LowerAll(a)| && |b| == |LowerAll(b)|;
      forall j | 0 <= j < |a| ensures SameLetter(a[j], b[j]) {
        assert LowerAll(a)[j] == LowerAll(b)[j];
        SameLowerLetter(a[j], b[j]);
      }
    }
    if EqualIgnoringCase(a, b) {
      forall j | 0 <= j < |a| ensures LowerAll(a)[j] == LowerAll(b)[j] { SameLowerLetter(a[j], b[j]); }
    }
  }

  lemma SameLowerLetter(a: char, b: char)
    ensures Lower(a) == Lower(b) <==> SameLetter(a, b)
  {}

  /** The bytes of one character in UTF-8, and of a whole string. */
  function Utf8Width(c: char): nat {
    if c < '\U{80}' then 1 else if c < '\U{800}' then 2 else if c < '\U{10000}' then 3 else 4
  }

  /** A code point takes as many bytes as it needs with 7, 11, 16 or 21 bits. */
  lemma Utf8WidthFits(c: char)
    ensures Utf8Width(c) == 1 <==> c as int < 128
    ensures Utf8Width(c) == 2 <==> 128 <= c as int < 2048
    ensures Utf8Width(c) == 3 <==> 2048 <= c as int < 65536
    ensures Utf8Width(c) == 4 <==> 65536 <= c as int
  {}

  function Utf8Length(s: string): nat { if s == [] then 0 else Utf8Width(s[0]) + Utf8Length(s[1..]) }

  /** The index of the first character in `cs`, the length when there is none. */
  function First(s: string, cs: set<char>): (n: nat)
    ensures n <= |s| && (n < |s| ==> s[n] in cs)
    ensures forall j | 0 <= j < n :: s[j] !in cs
  {
    if s == [] || s[0] in cs then 0 else 1 + First(s[1..], cs)
  }

  /** The index of the last `c`, the length when there is none. */
  function Last(s: string, c: char): (n: nat)
    ensures n <= |s| && (n < |s| ==> s[n] == c)
    ensures forall j | 0 <= j < |s| && (n < j || n == |s|) :: s[j] != c
  {
    if s == [] then 0 else
    var front := s[..|s| - 1];
    if s[|s| - 1] == c then |s| - 1 else
    var n := Last(front, c);
    if n < |front| then n else |s|
  }

  predicate Free(s: string, cs: set<char>) { forall c | c in s :: c !in cs }

  lemma FirstIs(a: string, b: string, cs: set<char>)
    requires Free(a, cs) && (b != [] ==> b[0] in cs)
    ensures First(a + b, cs) == |a|
  {
    assert forall j | 0 <= j < |a| :: (a + b)[j] == a[j] && a[j] in a;
    assert b != [] ==> (a + b)[|a|] == b[0];
  }

  function SplitOnce(s: string, c: char): Option<(string, string)> {
    var n := First(s, {c});
    if n == |s| then None else Some((s[..n], s[n + 1..]))
  }

  lemma SplitOnceParts(s: string, c: char)
    requires SplitOnce(s, c).Some?
    ensures var (a, b) := SplitOnce(s, c).value; s == a + [c] + b && c !in a
  {}

  lemma SplitOnceIs(a: string, c: char, b: string)
    requires c !in a
    ensures SplitOnce(a + [c] + b, c) == Some((a, b))
  {
    assert a + [c] + b == a + ([c] + b);
    FirstIs(a, [c] + b, {c});
  }

  function SplitLast(s: string, c: char): Option<(string, string)> {
    var n := Last(s, c);
    if n == |s| then None else Some((s[..n], s[n + 1..]))
  }

  lemma SplitLastParts(s: string, c: char)
    requires SplitLast(s, c).Some?
    ensures var (a, b) := SplitLast(s, c).value; s == a + [c] + b && c !in b
  {}

  lemma SplitLastIs(a: string, c: char, b: string)
    requires c !in b
    ensures SplitLast(a + [c] + b, c) == Some((a, b))
  {
    var s := a + [c] + b;
    assert s[|a|] == c;
    assert forall j | |a| < j < |s| :: s[j] == b[j - |a| - 1];
    assert Last(s, c) == |a| && s[..|a|] == a && s[|a| + 1..] == b;
  }

  /** All the parts between the separators. */
  function Split(s: string, c: char): (parts: seq<string>)
    ensures |parts| > 0 && forall p | p in parts :: c !in p
    decreases |s|
  {
    var n := First(s, {c});
    assert forall d | d in s[..n] :: d != c;
    if n == |s| then [s] else [s[..n]] + Split(s[n + 1..], c)
  }

  function Join(parts: seq<string>, c: char): string
    requires |parts| > 0
  {
    if |parts| == 1 then parts[0] else parts[0] + [c] + Join(parts[1..], c)
  }

  lemma {:induction false} JoinSplit(s: string, c: char)
    ensures Join(Split(s, c), c) == s
    decreases |s|
  {
    var n := First(s, {c});
    if n < |s| {
      JoinSplit(s[n + 1..], c);
      JoinFirst(s[..n], Split(s[n + 1..], c), c);
      CutAt(s, n);
    }
  }

  lemma JoinFirst(part: string, rest: seq<string>, c: char)
    requires |rest| > 0
    ensures Join([part] + rest, c) == part + [c] + Join(rest, c)
  {
    assert ([part] + rest)[0] == part && ([part] + rest)[1..] == rest;
  }

  lemma CutAt(s: string, n: nat)
    requires n < |s|
    ensures s == s[..n] + [s[n]] + s[n + 1..]
  {}

  lemma {:induction false} SplitJoin(parts: seq<string>, c: char)
    requires |parts| > 0 && forall p | p in parts :: c !in p
    ensures Split(Join(parts, c), c) == parts
    decreases |parts|
  {
    if |parts| == 1 {
      assert parts[0] + [] == parts[0];
      FirstIs(parts[0], [], {c});
    } else {
      var rest := Join(parts[1..], c);
      assert Join(parts, c) == parts[0] + ([c] + rest);
      FirstIs(parts[0], [c] + rest, {c});
      SplitJoin(parts[1..], c);
      assert Join(parts, c)[|parts[0]| + 1..] == rest;
    }
  }

  lemma {:induction false} JoinFree(parts: seq<string>, c: char, cs: set<char>)
    requires |parts| > 0 && c !in cs && forall p | p in parts :: Free(p, cs)
    ensures Free(Join(parts, c), cs)
    decreases |parts|
  {
    assert Free(parts[0], cs);
    if |parts| > 1 { JoinFree(parts[1..], c, cs); }
  }

  lemma {:induction false} SplitFree(s: string, c: char, cs: set<char>)
    requires Free(s, cs)
    ensures forall p | p in Split(s, c) :: Free(p, cs)
    decreases |s|
  {
    var n := First(s, {c});
    assert Free(s[..n], cs);
    if n < |s| { SplitFree(s[n + 1..], c, cs); }
  }
}
