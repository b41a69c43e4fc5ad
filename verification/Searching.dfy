/** What a search finds, and in which order. */
module Searching {
  import opened Json
  import opened Sequences
  import opened Strings
  import opened Inventory
  import opened Paging

  /** Blanks are the white space of Unicode that is no control character. */
  lemma BlanksAreWhiteSpace(c: char)
    ensures IsWhite(c) <==>
      (c as int in {0x20, 0xA0, 0x1680, 0x2028, 0x2029, 0x202F, 0x205F, 0x3000} || 0x2000 <= c as int <= 0x200A)
  {}

  /** The words of a query are what is left of it without the blanks around it. */
  predicate Words(query: string, words: string) {
    exists a, b | 0 <= a <= b <= |query| :: query[a..b] == words
      && (forall c | c in query[..a] + query[b..] :: IsWhite(c))
      && (words != "" ==> !IsWhite(words[0]) && !IsWhite(words[|words| - 1]))
  }

  /** The blanks before the first place and after the second. */
  predicate Blank(query: string, a: nat, b: nat)
    requires a <= b <= |query|
  {
    (forall j | 0 <= j < a :: IsWhite(query[j])) && (forall j | b <= j < |query| :: IsWhite(query[j]))
  }

  lemma BlankExactly(query: string, a: nat, b: nat)
    requires a <= b <= |query|
    ensures Blank(query, a, b) <==> forall c | c in query[..a] + query[b..] :: IsWhite(c)
  {
    var around := query[..a] + query[b..];
    assert forall j | 0 <= j < a :: around[j] == query[j];
    assert forall j | b <= j < |query| :: around[a + (j - b)] == query[j];
    assert forall j | 0 <= j < |around| :: around[j] == if j < a then query[j] else query[j - a + b];
  }

  lemma SliceOfTail(s: string, c: nat, d: nat)
    requires s != "" && c <= d < |s|
    ensures s[c + 1..d + 1] == s[1..][c..d]
  {
    var x, y := s[c + 1..d + 1], s[1..][c..d];
    assert |x| == |y| && forall j | 0 <= j < |x| :: x[j] == s[c + 1 + j] && y[j] == s[1..][c + j];
  }

  lemma {:induction false} TrimmedPlaces(query: string) returns (a: nat, b: nat)
    ensures a <= b <= |query| && query[a..b] == Trim(query) && Blank(query, a, b)
    ensures Trim(query) != "" ==> !IsWhite(Trim(query)[0]) && !IsWhite(Trim(query)[|Trim(query)| - 1])
    decreases |query|
  {
    if query == "" {
      a, b := 0, 0;
    } else if IsWhite(query[0]) {
      var c, d := TrimmedPlaces(query[1..]);
      a, b := c + 1, d + 1;
      SliceOfTail(query, c, d);
      assert forall j | 1 <= j < |query| :: query[j] == query[1..][j - 1];
    } else if IsWhite(query[|query| - 1]) {
      a, b := TrimmedPlaces(query[..|query| - 1]);
      assert query[a..b] == query[..|query| - 1][a..b];
    } else {
      a, b := 0, |query|;
      assert query[a..b] == query;
    }
  }

  lemma TrimmedWords(query: string) returns (a: nat, b: nat)
    ensures a <= b <= |query| && query[a..b] == Trim(query)
    ensures forall c | c in query[..a] + query[b..] :: IsWhite(c)
    ensures Trim(query) != "" ==> !IsWhite(Trim(query)[0]) && !IsWhite(Trim(query)[|Trim(query)| - 1])
  {
    a, b := TrimmedPlaces(query);
    BlankExactly(query, a, b);
  }

  /** The words occur in the text, but for the case of letters. */
  ghost predicate Occurs(text: string, words: string) { exists a: nat :: OccursAt(text, words, a) }

  predicate OccursAt(text: string, words: string, a: nat) {
    a + |words| <= |text| && EqualIgnoringCase(text[a..a + |words|], words)
  }

  lemma LowerOfSlice(text: string, a: nat, b: nat)
    requires a <= b <= |text|
    ensures LowerAll(text)[a..b] == LowerAll(text[a..b])
  {}

  lemma ContainedIsThere(text: string, words: string) returns (a: nat)
    requires Contains(LowerAll(text), LowerAll(words))
    ensures OccursAt(text, words, a)
  {
    var t, w := LowerAll(text), LowerAll(words);
    a :| 0 <= a <= |t| && w <= t[a..];
    assert |t| == |text| && |w| == |words|;
    assert w == t[a..][..|w|] == t[a..a + |w|];
    LowerOfSlice(text, a, a + |w|);
    SameLower(text[a..a + |words|], words);
  }

  lemma ThereIsContained(text: string, words: string, a: nat)
    requires OccursAt(text, words, a)
    ensures Contains(LowerAll(text), LowerAll(words))
  {
    var t, w := LowerAll(text), LowerAll(words);
    assert |t| == |text| && |w| == |words|;
    SameLower(text[a..a + |words|], words);
    LowerOfSlice(text, a, a + |words|);
    assert t[a..][..|w|] == t[a..a + |w|] == w;
  }

  lemma OccursExactly(text: string, words: string)
    ensures Contains(LowerAll(text), LowerAll(words)) <==> Occurs(text, words)
  {
    if Contains(LowerAll(text), LowerAll(words)) { var a := ContainedIsThere(text, words); }
    if a: nat :| OccursAt(text, words, a) { ThereIsContained(text, words, a); }
  }

  /** An item is found without a query, by a blank query, or when the words of the query occur in its name or
      its id. */
  ghost predicate FoundBy(item: Item, query: Option<string>) {
    query.None? || exists words :: FoundByWords(item, query.value, words)
  }

  ghost predicate FoundByWords(item: Item, query: string, words: string) {
    Words(query, words) && (words == "" || Occurs(item.name, words) || Occurs(item.id, words))
  }

  lemma WordsAreTrimmed(query: string, words: string)
    ensures Words(query, words) <==> words == Trim(query)
  {
    var a, b := TrimmedWords(query);
    if Words(query, words) { SameWords(query, words, a, b); }
    if words == Trim(query) { assert query[a..b] == words; }
  }

  /** There is one way to take the blanks off. */
  lemma SameWords(query: string, words: string, a: nat, b: nat)
    requires a <= b <= |query| && Words(query, words)
    requires forall c | c in query[..a] + query[b..] :: IsWhite(c)
    requires a < b ==> !IsWhite(query[a]) && !IsWhite(query[b - 1])
    ensures words == query[a..b]
  {
    var c, d :| 0 <= c <= d <= |query| && query[c..d] == words
      && (forall x | x in query[..c] + query[d..] :: IsWhite(x))
      && (words != "" ==> !IsWhite(words[0]) && !IsWhite(words[|words| - 1]));
    assert forall j | 0 <= j < a :: query[j] in query[..a];
    assert forall j | b <= j < |query| :: query[j] in query[b..];
    assert forall j | 0 <= j < c :: query[j] in query[..c];
    assert forall j | d <= j < |query| :: query[j] in query[d..];
    if a < b && c < d {
      assert words[0] == query[c] && words[|words| - 1] == query[d - 1];
      assert a == c && b == d;
    }
  }

  lemma FoundExactly(item: Item, query: Option<string>)
    ensures Matches(item, Wanted(query)) <==> FoundBy(item, query)
  {
    if query.Some? {
      var words := Trim(query.value);
      forall other ensures Words(query.value, other) <==> other == words { WordsAreTrimmed(query.value, other); }
      OccursExactly(item.name, words);
      OccursExactly(item.id, words);
      assert FoundBy(item, query) <==> FoundByWords(item, query.value, words);
    }
  }

  /** A search is over exactly the listed items that the query finds. */
  lemma SearchesTheFound(items: seq<Item>, query: Option<string>, item: Item)
    ensures item in Arranged(items, Wanted(query)) <==> item in items && FoundBy(item, query)
  {
    FoundExactly(item, query);
    FilterMembers(items, Wants(Wanted(query)));
    SortedIsOrdered(Matching(items, Wanted(query)));
    var arranged, matching := Arranged(items, Wanted(query)), Matching(items, Wanted(query));
    assert item in arranged <==> item in multiset(arranged);
    assert item in matching <==> item in multiset(matching);
    assert item in matching <==> item in items && Wants(Wanted(query))(item);
  }

  /** In a dictionary `a` comes no later than `b`: it is a beginning of it, or is less where they part. */
  predicate NoLater(a: string, b: string) {
    exists n | 0 <= n <= |a| && n <= |b| :: a[..n] == b[..n] && (n == |a| || (n < |b| && a[n] < b[n]))
  }

  lemma {:induction false} LeqIsNoLater(a: string, b: string)
    ensures Leq(a, b) ==> NoLater(a, b)
    decreases |a|
  {
    if Leq(a, b) {
      if a == "" || a[0] < b[0] {
        assert a[..0] == b[..0];
      } else {
        LeqIsNoLater(a[1..], b[1..]);
        var n :| 0 <= n <= |a[1..]| && n <= |b[1..]| && a[1..][..n] == b[1..][..n]
          && (n == |a[1..]| || (n < |b[1..]| && a[1..][n] < b[1..][n]));
        assert a[..n + 1] == [a[0]] + a[1..][..n] && b[..n + 1] == [b[0]] + b[1..][..n];
      }
    }
  }

  /** A search goes through the found items by name, ignoring the case of letters, and by id under one name. */
  lemma SearchesInOrder(items: seq<Item>, query: Option<string>, j: nat, k: nat)
    requires j < k < |Arranged(items, Wanted(query))|
    ensures var a, b := Arranged(items, Wanted(query))[j], Arranged(items, Wanted(query))[k];
      if EqualIgnoringCase(a.name, b.name) then NoLater(a.id, b.id) else NoLater(LowerAll(a.name), LowerAll(b.name))
  {
    SortedIsOrdered(Matching(items, Wanted(query)));
    var a, b := Arranged(items, Wanted(query))[j], Arranged(items, Wanted(query))[k];
    assert Before(a, b);
    SameLower(a.name, b.name);
    LeqIsNoLater(a.id, b.id);
    LeqIsNoLater(LowerAll(a.name), LowerAll(b.name));
  }
}
