/** Search pages, operation pages and collection windows, and the traversals clients make of them. */
module Paging {
  import opened Json
  import opened Sequences
  import opened Strings
  import opened Inventory

  const MAX_OFFSET: nat := 10_000
  const MAX_COLLECTION_OFFSET: nat := 2_097_152
  const MAX_QUERY: nat := 128

  // ---- the query

  predicate IsWhite(c: char) {
    c == ' ' || c == '\U{A0}' || c == '\U{1680}' || '\U{2000}' <= c <= '\U{200A}'
    || c == '\U{2028}' || c == '\U{2029}' || c == '\U{202F}' || c == '\U{205F}' || c == '\U{3000}'
  }

  function Trim(s: string): string {
    if s == [] then []
    else if IsWhite(s[0]) then Trim(s[1..])
    else if IsWhite(s[|s| - 1]) then Trim(s[..|s| - 1])
    else s
  }

  predicate QueryAccepted(query: Option<string>) {
    query.None? || (Utf8Length(query.value) <= MAX_QUERY && forall c | c in query.value :: !IsControl(c))
  }

  /** No query, or one of at most 128 bytes without control characters. */
  predicate Askable(query: Option<string>) {
    query.Some? ==>
      Utf8Length(query.value) <= 128 && forall c | c in query.value :: '\U{20}' <= c && !('\U{7F}' <= c <= '\U{9F}')
  }

  /** What is looked for: nothing when the query is blank. */
  function Wanted(query: Option<string>): Option<string> {
    if query.None? || Trim(query.value) == [] then None else Some(LowerAll(Trim(query.value)))
  }

  predicate Contains(s: string, part: string) {
    exists j {:trigger s[j..]} :: 0 <= j <= |s| && part <= s[j..]
  }

  predicate Matches(item: Item, wanted: Option<string>) {
    wanted.None? || Contains(LowerAll(item.name), wanted.value) || Contains(LowerAll(item.id), wanted.value)
  }

  function Matching(items: seq<Item>, wanted: Option<string>): seq<Item> {
    Filter(items, Wants(wanted))
  }

  function Wants(wanted: Option<string>): Item -> bool { item => Matches(item, wanted) }

  // ---- the order

  /** Lexicographic order of code points, which is the byte order of the UTF-8 encodings. */
  predicate Leq(a: string, b: string) {
    a == [] || (b != [] && (a[0] < b[0] || (a[0] == b[0] && Leq(a[1..], b[1..]))))
  }

  /** By lower-case name, then by id. */
  predicate Before(a: Item, b: Item) {
    if LowerAll(a.name) != LowerAll(b.name) then Leq(LowerAll(a.name), LowerAll(b.name)) else Leq(a.id, b.id)
  }

  ghost predicate Ordered(items: seq<Item>) {
    forall j, k | 0 <= j < k < |items| :: Before(items[j], items[k])
  }

  function Insert(item: Item, items: seq<Item>): seq<Item> {
    if items == [] || Before(item, items[0]) then [item] + items else [items[0]] + Insert(item, items[1..])
  }

  function Sorted(items: seq<Item>): seq<Item> {
    if items == [] then [] else Insert(items[0], Sorted(items[1..]))
  }

  /** The sequence that search pages are cut from. */
  function Arranged(items: seq<Item>, wanted: Option<string>): seq<Item> { Sorted(Matching(items, wanted)) }

  lemma {:induction false} LeqIsTotal(a: string, b: string)
    ensures Leq(a, b) || Leq(b, a)
    ensures Leq(a, b) && Leq(b, a) ==> a == b
  {
    if a != [] && b != [] {
      LeqIsTotal(a[1..], b[1..]);
      assert a == [a[0]] + a[1..] && b == [b[0]] + b[1..];
    }
  }

  lemma {:induction false} LeqIsTransitive(a: string, b: string, c: string)
    requires Leq(a, b) && Leq(b, c)
    ensures Leq(a, c)
  {
    if a != [] && a[0] == b[0] == c[0] { LeqIsTransitive(a[1..], b[1..], c[1..]); }
  }

  lemma BeforeIsTotal(a: Item, b: Item)
    ensures Before(a, b) || Before(b, a)
    ensures Before(a, b) && Before(b, a) ==> a.id == b.id
  {
    LeqIsTotal(LowerAll(a.name), LowerAll(b.name));
    LeqIsTotal(a.id, b.id);
  }

  lemma BeforeIsTransitive(a: Item, b: Item, c: Item)
    requires Before(a, b) && Before(b, c)
    ensures Before(a, c)
  {
    var x, y, z := LowerAll(a.name), LowerAll(b.name), LowerAll(c.name);
    LeqIsTotal(x, y);
    LeqIsTotal(y, z);
    if x == y == z { LeqIsTransitive(a.id, b.id, c.id); }
    else {
      LeqIsTransitive(x, y, z);
      LeqIsTotal(x, z);
    }
  }

  lemma OrderedTail(items: seq<Item>)
    requires Ordered(items) && items != []
    ensures Ordered(items[1..])
  {
    var tail := items[1..];
    forall j, k | 0 <= j < k < |tail| ensures Before(tail[j], tail[k]) {
      assert tail[j] == items[j + 1] && tail[k] == items[k + 1];
    }
  }

  lemma {:induction false} InsertAdds(item: Item, items: seq<Item>)
    ensures multiset(Insert(item, items)) == multiset(items) + multiset{item}
  {
    if items != [] {
      assert items == [items[0]] + items[1..];
      if !Before(item, items[0]) { InsertAdds(item, items[1..]); }
    }
  }

  lemma FirstBeforeAll(first: Item, rest: seq<Item>)
    requires Ordered(rest) && forall other | other in multiset(rest) :: Before(first, other)
    ensures Ordered([first] + rest)
  {
    forall k | 0 <= k < |rest| ensures Before(first, rest[k]) { assert rest[k] in multiset(rest); }
  }

  lemma BeforeAll(item: Item, items: seq<Item>)
    requires Ordered(items) && items != [] && Before(item, items[0])
    ensures forall other | other in multiset(items) :: Before(item, other)
  {
    forall k | 0 <= k < |items| ensures Before(item, items[k]) {
      if k > 0 { BeforeIsTransitive(item, items[0], items[k]); }
    }
  }

  lemma FirstIsBefore(items: seq<Item>)
    requires Ordered(items) && items != []
    ensures forall other | other in multiset(items[1..]) :: Before(items[0], other)
  {
    assert forall k | 0 <= k < |items[1..]| :: items[1..][k] == items[k + 1];
  }

  lemma {:induction false} InsertKeepsOrder(item: Item, items: seq<Item>)
    requires Ordered(items)
    ensures Ordered(Insert(item, items))
  {
    if items == [] {
    } else if Before(item, items[0]) {
      BeforeAll(item, items);
      FirstBeforeAll(item, items);
    } else {
      OrderedTail(items);
      InsertKeepsOrder(item, items[1..]);
      InsertAdds(item, items[1..]);
      BeforeIsTotal(item, items[0]);
      FirstIsBefore(items);
      FirstBeforeAll(items[0], Insert(item, items[1..]));
    }
  }

  lemma {:induction false} SortedIsOrdered(items: seq<Item>)
    ensures Ordered(Sorted(items)) && multiset(Sorted(items)) == multiset(items)
  {
    if items != [] {
      SortedIsOrdered(items[1..]);
      InsertKeepsOrder(items[0], Sorted(items[1..]));
      InsertAdds(items[0], Sorted(items[1..]));
      assert items == [items[0]] + items[1..];
    }
  }

  ghost predicate IdsIdentify(items: multiset<Item>) {
    && (forall item | item in items :: items[item] == 1)
    && (forall a, b | a in items && b in items && a.id == b.id :: a == b)
  }

  lemma SameLength<T>(a: seq<T>, b: seq<T>)
    requires multiset(a) == multiset(b)
    ensures |a| == |b|
  {
    assert |multiset(a)| == |a| && |multiset(b)| == |b|;
  }

  lemma FirstIsLeast(items: seq<Item>, item: Item)
    requires Ordered(items) && item in multiset(items)
    ensures item == items[0] || Before(items[0], item)
  {
    assert item in items;
  }

  lemma SameFirst(a: seq<Item>, b: seq<Item>)
    requires Ordered(a) && Ordered(b) && multiset(a) == multiset(b) && IdsIdentify(multiset(a)) && a != [] && b != []
    ensures a[0] == b[0]
  {
    assert a[0] in multiset(a) && b[0] in multiset(b);
    FirstIsLeast(a, b[0]);
    FirstIsLeast(b, a[0]);
    BeforeIsTotal(a[0], b[0]);
  }

  lemma WithoutFirst<T>(a: seq<T>)
    requires a != []
    ensures multiset(a[1..]) == multiset(a) - multiset{a[0]}
  {
    assert a == [a[0]] + a[1..];
    assert multiset(a) == multiset{a[0]} + multiset(a[1..]);
  }

  lemma IdentifyFewer(items: multiset<Item>, fewer: multiset<Item>)
    requires IdsIdentify(items) && fewer <= items
    ensures IdsIdentify(fewer)
  {
    assert forall item | item in fewer :: item in items && 0 < fewer[item] <= items[item] == 1;
  }

  lemma TailsMatch(a: seq<Item>, b: seq<Item>)
    requires a != [] && b != [] && a[0] == b[0] && multiset(a) == multiset(b) && IdsIdentify(multiset(a))
    ensures multiset(a[1..]) == multiset(b[1..]) && IdsIdentify(multiset(a[1..]))
  {
    WithoutFirst(a);
    WithoutFirst(b);
    IdentifyFewer(multiset(a), multiset(a[1..]));
  }

  lemma SameTails<T>(a: seq<T>, b: seq<T>)
    requires a != [] && b != [] && a[0] == b[0] && a[1..] == b[1..]
    ensures a == b
  {
    assert a == [a[0]] + a[1..] && b == [b[0]] + b[1..];
  }

  /** With distinct ids there is only one ordered arrangement. */
  lemma {:induction false} OrderedIsUnique(a: seq<Item>, b: seq<Item>)
    requires Ordered(a) && Ordered(b) && multiset(a) == multiset(b) && IdsIdentify(multiset(a))
    ensures a == b
  {
    SameLength(a, b);
    if a != [] {
      SameFirst(a, b);
      TailsMatch(a, b);
      OrderedTail(a);
      OrderedTail(b);
      OrderedIsUnique(a[1..], b[1..]);
      SameTails(a, b);
    }
  }

  /** Whatever order upstream lists the inventory in, the arrangement is the same. */
  lemma ArrangedIsCanonical(a: seq<Item>, b: seq<Item>, wanted: Option<string>)
    requires multiset(a) == multiset(b) && IdsIdentify(multiset(a))
    ensures Arranged(a, wanted) == Arranged(b, wanted)
  {
    var x, y := Matching(a, wanted), Matching(b, wanted);
    forall item ensures multiset(x)[item] == multiset(y)[item] && multiset(x)[item] <= multiset(a)[item] {
      FilterCounts(a, Wants(wanted), item);
      FilterCounts(b, Wants(wanted), item);
    }
    assert multiset(x) == multiset(y);
    SortedIsOrdered(x);
    SortedIsOrdered(y);
    forall item | item in multiset(x) ensures item in multiset(a) && multiset(x)[item] == 1 {
      assert multiset(x)[item] <= multiset(a)[item];
    }
    OrderedIsUnique(Sorted(x), Sorted(y));
  }

  // ---- one page

  /** As many elements from `offset` on as there are, up to the limit. */
  function Slice<T>(s: seq<T>, offset: nat, limit: nat): (r: seq<T>)
    ensures |r| == if offset >= |s| then 0 else if |s| - offset < limit then |s| - offset else limit
    ensures forall j | 0 <= j < |r| :: r[j] == s[offset + j]
  {
    if offset >= |s| then [] else if offset + limit >= |s| then s[offset..] else s[offset..offset + limit]
  }

  lemma SliceExtends<T>(s: seq<T>, offset: nat, limit: nat)
    requires offset <= |s|
    ensures offset + |Slice(s, offset, limit)| <= |s|
    ensures s[..offset + |Slice(s, offset, limit)|] == s[..offset] + Slice(s, offset, limit)
  {}

  datatype Page = Page(items: seq<Item>, nextOffset: Option<nat>, truncated: bool)

  /** A page, its continuation when the validator would accept it, and the mark when it would not. */
  function Cut(s: seq<Item>, offset: nat, limit: nat): Page {
    var items := Slice(s, offset, limit);
    var consumed := offset + |items|;
    var next := if consumed < |s| && consumed <= MAX_OFFSET then Some(consumed) else None;
    Page(items, next, consumed < |s| && next.None?)
  }

  datatype Request = Request(query: Option<string>, offset: nat, limit: nat)

  predicate Accepted(request: Request) {
    request.limit > 0 && request.offset <= MAX_OFFSET && QueryAccepted(request.query)
  }

  method Retain(items: seq<Item>, wanted: Option<string>) returns (kept: seq<Item>)
    ensures kept == Matching(items, wanted)
  {
    kept := [];
    for n := 0 to |items|
      invariant kept == Matching(items[..n], wanted)
    {
      FilterOfNext(items, n, Wants(wanted));
      if Matches(items[n], wanted) { kept := kept + [items[n]]; }
    }
    assert items[..|items|] == items;
  }

  /** None stands for the rejection of invalid parameters. */
  method Search(items: seq<Item>, request: Request) returns (page: Option<Page>)
    ensures page == if Accepted(request)
      then Some(Cut(Arranged(items, Wanted(request.query)), request.offset, request.limit)) else None
    ensures page.Some? <==> (request.limit > 0 && request.offset <= 10_000 && Askable(request.query))
  {
    if request.limit == 0 || request.offset > MAX_OFFSET || !QueryAccepted(request.query) { return None; }
    var resources := Retain(items, Wanted(request.query));
    resources := Sorted(resources);
    var found := Slice(resources, request.offset, request.limit);
    var consumed := request.offset + |found|;
    var next: Option<nat> := None;
    if consumed < |resources| && consumed <= MAX_OFFSET { next := Some(consumed); }
    page := Some(Page(found, next, consumed < |resources| && next.None?));
  }

  // ---- traversals

  /** One request of a traversal: where it started, what it got and where it was told to go on. */
  datatype Turn<T> = Turn(offset: nat, limit: nat, items: seq<T>, next: Option<nat>)

  function Delivered<T>(turns: seq<Turn<T>>): seq<T> {
    if turns == [] then [] else Delivered(turns[..|turns| - 1]) + turns[|turns| - 1].items
  }

  ghost predicate Honest<T>(s: seq<T>, turn: Turn<T>) {
    && turn.limit > 0 && turn.items == Slice(s, turn.offset, turn.limit)
    && (turn.next.Some? ==> turn.next.value == turn.offset + |turn.items| < |s|)
  }

  /** From the first offset, each request goes on where the one before said. */
  ghost predicate Chained<T>(s: seq<T>, turns: seq<Turn<T>>) {
    && (turns != [] ==> turns[0].offset == 0)
    && (forall k | 0 <= k < |turns| :: Honest(s, turns[k]))
    && (forall k | 0 <= k < |turns| - 1 :: turns[k].next == Some(turns[k + 1].offset))
  }

  lemma Advances<T>(s: seq<T>, prior: Turn<T>, last: Turn<T>)
    requires Honest(s, prior) && Honest(s, last) && prior.next == Some(last.offset)
    ensures prior.offset < last.offset == prior.offset + |prior.items| && last.offset + |last.items| <= |s|
    ensures s[..last.offset + |last.items|] == s[..last.offset] + last.items
  {}

  lemma FrontChained<T>(s: seq<T>, turns: seq<Turn<T>>)
    requires turns != [] && Chained(s, turns)
    ensures Chained(s, turns[..|turns| - 1])
  {
    var front := turns[..|turns| - 1];
    assert forall k | 0 <= k < |front| :: front[k] == turns[k];
  }

  lemma FirstTurn<T>(s: seq<T>, turn: Turn<T>)
    requires Honest(s, turn) && turn.offset == 0
    ensures |turn.items| <= |s| && [] + turn.items == s[..|turn.items|]
  {}

  /** No gap and no repetition: what was delivered is exactly the part that was passed. */
  lemma {:induction false} ChainDelivers<T>(s: seq<T>, turns: seq<Turn<T>>)
    requires turns != [] && Chained(s, turns)
    ensures var last := turns[|turns| - 1];
      && |turns| - 1 <= last.offset <= |s|
      && last.offset + |last.items| <= |s|
      && Delivered(turns) == s[..last.offset + |last.items|]
  {
    var n := |turns| - 1;
    FrontChained(s, turns);
    if n == 0 {
      FirstTurn(s, turns[0]);
      assert Delivered(turns[..0]) == [];
    } else {
      ChainDelivers(s, turns[..n]);
      Advances(s, turns[n - 1], turns[n]);
    }
  }

  datatype Exchange = Exchange(listing: seq<Item>, request: Request, page: Option<Page>)

  function TurnOf(e: Exchange): Turn<Item> {
    var page := e.page.GetOr(Page([], None, false));
    Turn(e.request.offset, e.request.limit, page.items, page.nextOffset)
  }

  function Turns(run: seq<Exchange>): seq<Turn<Item>> { seq(|run|, k requires 0 <= k < |run| => TurnOf(run[k])) }

  predicate Continued(before: Exchange, after: Exchange) {
    before.page.Some? && before.page.value.nextOffset == Some(after.request.offset)
  }

  /** A client follows the offsets of one query with any positive limits, while upstream lists the
      same inventory in any order at each request. */
  ghost predicate Followed(inventory: multiset<Item>, query: Option<string>, run: seq<Exchange>) {
    && IdsIdentify(inventory) && QueryAccepted(query)
    && (run != [] ==> run[0].request.offset == 0)
    && (forall k | 0 <= k < |run| :: Answered(inventory, query, run[k]))
    && (forall k | 0 <= k < |run| - 1 :: Continued(run[k], run[k + 1]))
  }

  ghost predicate Answered(inventory: multiset<Item>, query: Option<string>, e: Exchange) {
    && multiset(e.listing) == inventory && e.request.query == query && e.request.limit > 0
    && e.page == if Accepted(e.request)
      then Some(Cut(Arranged(e.listing, Wanted(query)), e.request.offset, e.request.limit)) else None
  }

  /** The validator never rejects an offset that search advertised. */
  lemma AdvertisedOffsetsAreAccepted(inventory: multiset<Item>, query: Option<string>, run: seq<Exchange>, k: nat)
    requires Followed(inventory, query, run) && k < |run|
    ensures run[k].page.Some?
  {
    assert Answered(inventory, query, run[k]);
    if k > 0 { assert Answered(inventory, query, run[k - 1]) && Continued(run[k - 1], run[k - 1 + 1]); }
  }

  lemma FollowedIsChained(inventory: multiset<Item>, query: Option<string>, run: seq<Exchange>, items: seq<Item>)
    requires Followed(inventory, query, run) && multiset(items) == inventory
    ensures Chained(Arranged(items, Wanted(query)), Turns(run))
    ensures forall k | 0 <= k < |run| ::
      run[k].page == Some(Cut(Arranged(items, Wanted(query)), run[k].request.offset, run[k].request.limit))
  {
    var s, turns := Arranged(items, Wanted(query)), Turns(run);
    forall k | 0 <= k < |run|
      ensures run[k].page == Some(Cut(s, run[k].request.offset, run[k].request.limit)) && Honest(s, turns[k])
    {
      AdvertisedOffsetsAreAccepted(inventory, query, run, k);
      assert Answered(inventory, query, run[k]);
      ArrangedIsCanonical(items, run[k].listing, Wanted(query));
    }
    forall k | 0 <= k < |turns| - 1 ensures turns[k].next == Some(turns[k + 1].offset) {
      assert Continued(run[k], run[k + 1]);
    }
  }

  lemma CutMeans(s: seq<Item>, offset: nat, limit: nat)
    requires offset <= |s|
    ensures var page := Cut(s, offset, limit);
      var consumed := offset + |page.items|;
      && (page.nextOffset.None? ==> (consumed == |s| <==> !page.truncated))
      && (page.truncated ==> MAX_OFFSET < consumed < |s|)
  {
    SliceExtends(s, offset, limit);
  }

  /** A search traversal delivers the sorted matches once each and in order, takes at most one request
      for each of them (one when there is none), and stops early only when it says truncated. */
  lemma SearchCoversOnce(inventory: multiset<Item>, query: Option<string>, run: seq<Exchange>, items: seq<Item>)
    requires Followed(inventory, query, run) && run != [] && multiset(items) == inventory
    ensures var s, got := Arranged(items, Wanted(query)), Delivered(Turns(run));
      && got <= s && |run| <= |s| + 1
      && var last := run[|run| - 1].page;
      && last.Some?
      && (last.value.nextOffset.None? ==> (got == s <==> !last.value.truncated))
      && (last.value.truncated ==> 10_000 < |got| < |s|)
  {
    var s := Arranged(items, Wanted(query));
    FollowedIsChained(inventory, query, run, items);
    ChainDelivers(s, Turns(run));
    var last := run[|run| - 1];
    assert Turns(run)[|run| - 1] == TurnOf(last);
    CutMeans(s, last.request.offset, last.request.limit);
  }

  // ---- operations, over upstream pages

  datatype OperationPage = OperationPage(items: seq<Item>, nextPage: Option<nat>, nextOffset: Option<nat>,
                                         truncated: bool)

  /** Matches are continued inside an upstream page before the next page is offered. */
  function OperationsAt(pages: seq<seq<Item>>, wanted: Option<string>, page: nat, offset: nat,
                        limit: nat): OperationPage {
    var matches := Matching(if page < |pages| then pages[page] else [], wanted);
    var cut := Cut(matches, offset, limit);
    var upstream := if page + 1 < |pages| then Some(page + 1) else None;
    OperationPage(cut.items, if offset + |cut.items| < |matches| then None else upstream, cut.nextOffset, cut.truncated)
  }

  /** One request for operations; None stands for the rejection of invalid parameters. */
  datatype OperationTurn = OperationTurn(page: nat, request: Request, reply: Option<OperationPage>)

  function OperationItems(turn: OperationTurn): seq<Item> { if turn.reply.Some? then turn.reply.value.items else [] }

  function OperationsDelivered(run: seq<OperationTurn>): seq<Item> {
    if run == [] then [] else OperationsDelivered(run[..|run| - 1]) + OperationItems(run[|run| - 1])
  }

  predicate GoesOn(before: OperationTurn, after: OperationTurn) {
    before.reply.Some? &&
    var reply := before.reply.value;
    if reply.nextOffset.Some? then after.page == before.page && after.request.offset == reply.nextOffset.value
    else reply.nextPage == Some(after.page) && after.request.offset == 0
  }

  ghost predicate OperationsAnswered(pages: seq<seq<Item>>, query: Option<string>, turn: OperationTurn) {
    && turn.request.query == query && turn.request.limit > 0
    && turn.reply == if Accepted(turn.request)
      then Some(OperationsAt(pages, Wanted(query), turn.page, turn.request.offset, turn.request.limit)) else None
  }

  /** A client follows the offsets and pages of one query with any positive limits. */
  ghost predicate OperationsFollowed(pages: seq<seq<Item>>, query: Option<string>, run: seq<OperationTurn>) {
    && pages != [] && QueryAccepted(query)
    && (run != [] ==> run[0].page == 0 && run[0].request.offset == 0)
    && (forall k | 0 <= k < |run| :: OperationsAnswered(pages, query, run[k]))
    && (forall k | 0 <= k < |run| - 1 :: GoesOn(run[k], run[k + 1]))
  }

  /** All matches of all pages, page by page. */
  function AllMatching(pages: seq<seq<Item>>, wanted: Option<string>): seq<Item> {
    if pages == [] then []
    else AllMatching(pages[..|pages| - 1], wanted) + Matching(pages[|pages| - 1], wanted)
  }

  /** What has been passed when `upto` matches of a page have been delivered. */
  ghost predicate Passed(pages: seq<seq<Item>>, wanted: Option<string>, page: nat, upto: nat, got: seq<Item>) {
    && page < |pages| && upto <= |Matching(pages[page], wanted)|
    && got == AllMatching(pages[..page], wanted) + Matching(pages[page], wanted)[..upto]
  }

  /** Each request is accepted and starts where the ones before ended, and there are at most as many
      requests as pages and matches passed. */
  ghost predicate Reached(pages: seq<seq<Item>>, wanted: Option<string>, last: OperationTurn, got: seq<Item>,
                          requests: nat) {
    && last.reply.Some? && last.request.offset <= MAX_OFFSET
    && Passed(pages, wanted, last.page, last.request.offset + |OperationItems(last)|, got)
    && requests <= 1 + last.page + |AllMatching(pages[..last.page], wanted)| + last.request.offset
  }

  lemma OperationsAdvance(pages: seq<seq<Item>>, query: Option<string>, prior: OperationTurn, last: OperationTurn,
                          got: seq<Item>)
    requires OperationsAnswered(pages, query, prior) && GoesOn(prior, last)
    requires Passed(pages, Wanted(query), prior.page, prior.request.offset + |OperationItems(prior)|, got)
    ensures Passed(pages, Wanted(query), last.page, last.request.offset, got) && last.request.offset <= MAX_OFFSET
    ensures prior.page + |AllMatching(pages[..prior.page], Wanted(query))| + prior.request.offset
      < last.page + |AllMatching(pages[..last.page], Wanted(query))| + last.request.offset
  {
    if prior.reply.value.nextOffset.None? {
      assert pages[..last.page][..prior.page] == pages[..prior.page];
    }
  }

  lemma OperationsTaken(pages: seq<seq<Item>>, query: Option<string>, last: OperationTurn, got: seq<Item>)
    requires OperationsAnswered(pages, query, last) && QueryAccepted(query) && last.request.offset <= MAX_OFFSET
    requires Passed(pages, Wanted(query), last.page, last.request.offset, got)
    ensures last.reply.Some?
    ensures Passed(pages, Wanted(query), last.page, last.request.offset + |OperationItems(last)|,
                   got + OperationItems(last))
  {
    var matches := Matching(pages[last.page], Wanted(query));
    SliceExtends(matches, last.request.offset, last.request.limit);
    Regroup(AllMatching(pages[..last.page], Wanted(query)), matches[..last.request.offset], OperationItems(last));
  }

  lemma OperationsFront(pages: seq<seq<Item>>, query: Option<string>, run: seq<OperationTurn>)
    requires OperationsFollowed(pages, query, run) && run != []
    ensures OperationsFollowed(pages, query, run[..|run| - 1])
  {
    var front := run[..|run| - 1];
    assert forall k | 0 <= k < |front| :: front[k] == run[k];
  }

  lemma NothingPassed(pages: seq<seq<Item>>, wanted: Option<string>)
    requires pages != []
    ensures Passed(pages, wanted, 0, 0, [])
  {
    assert pages[..0] == [];
  }

  lemma ReachedNext(pages: seq<seq<Item>>, query: Option<string>, prior: OperationTurn, last: OperationTurn,
                    got: seq<Item>, requests: nat)
    requires Reached(pages, Wanted(query), prior, got, requests) && GoesOn(prior, last) && QueryAccepted(query)
    requires OperationsAnswered(pages, query, prior) && OperationsAnswered(pages, query, last)
    ensures Reached(pages, Wanted(query), last, got + OperationItems(last), requests + 1)
  {
    OperationsAdvance(pages, query, prior, last, got);
    OperationsTaken(pages, query, last, got);
  }

  lemma {:induction false} OperationsPrefix(pages: seq<seq<Item>>, query: Option<string>, run: seq<OperationTurn>)
    requires OperationsFollowed(pages, query, run) && run != []
    ensures Reached(pages, Wanted(query), run[|run| - 1], OperationsDelivered(run), |run|)
  {
    var n := |run| - 1;
    var front, last := run[..n], run[n];
    if n == 0 {
      NothingPassed(pages, Wanted(query));
      OperationsTaken(pages, query, last, []);
    } else {
      OperationsFront(pages, query, run);
      OperationsPrefix(pages, query, front);
      assert GoesOn(run[n - 1], run[n - 1 + 1]);
      ReachedNext(pages, query, run[n - 1], last, OperationsDelivered(front), n);
    }
  }

  /** No followed page or offset of operations is rejected. */
  lemma OperationOffsetsAreAccepted(pages: seq<seq<Item>>, query: Option<string>, run: seq<OperationTurn>, k: nat)
    requires OperationsFollowed(pages, query, run) && k < |run|
    ensures run[k].request.offset <= MAX_OFFSET && run[k].reply.Some? && run[k].page < |pages|
  {
    var upto := run[..k + 1];
    assert forall j | 0 <= j < |upto| :: upto[j] == run[j];
    OperationsPrefix(pages, query, upto);
  }

  /** Following next offsets and then next pages delivers every match of every page once and in order,
      is never rejected, takes at most one request for each page and each match, and stops early only
      when it says truncated. */
  lemma OperationsCoverOnce(pages: seq<seq<Item>>, query: Option<string>, run: seq<OperationTurn>)
    requires OperationsFollowed(pages, query, run) && run != []
    ensures forall k | 0 <= k < |run| :: run[k].request.offset <= 10_000 && run[k].reply.Some?
    ensures var got, all := OperationsDelivered(run), AllMatching(pages, Wanted(query));
      var last := run[|run| - 1].reply.value;
      && got <= all && |run| <= |pages| + |all|
      && (last.nextOffset.None? && last.nextPage.None? && !last.truncated ==> got == all)
      && (last.truncated ==> last.nextOffset.None? && last.nextPage.None? && got < all && 10_000 < |got|)
  {
    forall k | 0 <= k < |run| ensures run[k].request.offset <= MAX_OFFSET && run[k].reply.Some? {
      OperationOffsetsAreAccepted(pages, query, run, k);
    }
    OperationsPrefix(pages, query, run);
    var last := run[|run| - 1];
    assert OperationsAnswered(pages, query, last);
    AllMatchingSplits(pages, Wanted(query), last.page);
  }

  lemma {:induction false} AllMatchingSplits(pages: seq<seq<Item>>, wanted: Option<string>, page: nat)
    requires page < |pages|
    ensures AllMatching(pages[..page], wanted) + Matching(pages[page], wanted) <= AllMatching(pages, wanted)
    ensures page + 1 == |pages| ==>
      AllMatching(pages[..page], wanted) + Matching(pages[page], wanted) == AllMatching(pages, wanted)
  {
    if page + 1 < |pages| {
      var front := pages[..|pages| - 1];
      AllMatchingSplits(front, wanted, page);
      assert front[..page] == pages[..page];
    }
  }

  // ---- collection windows

  datatype CollectionPage = CollectionPage(available: bool, returned: nat, totalObserved: Option<nat>, truncated: bool,
    nextOffset: Option<nat>)

  predicate WindowAccepted(offset: nat, limit: nat) { offset <= MAX_COLLECTION_OFFSET && limit > 0 }

  function CollectionPageOf<T>(items: Option<seq<T>>, offset: nat, limit: nat): (seq<T>, CollectionPage) {
    var s := items.GetOr([]);
    var end := if offset + limit < |s| then offset + limit else |s|;
    var page := Slice(s, offset, limit);
    (page, CollectionPage(items.Some?, |page|, if items.Some? then Some(|s|) else None, |page| < |s|,
      if end < |s| then Some(end) else None))
  }

  ghost predicate WindowAnswered<T>(items: Option<seq<T>>, turn: Turn<T>) {
    turn.limit > 0
    && var (page, info) := CollectionPageOf(items, turn.offset, turn.limit);
    turn.items == page && turn.next == info.nextOffset
  }

  ghost predicate WindowsFollowed<T>(items: Option<seq<T>>, turns: seq<Turn<T>>) {
    && (turns != [] ==> turns[0].offset == 0)
    && (forall k | 0 <= k < |turns| :: WindowAnswered(items, turns[k]))
    && (forall k | 0 <= k < |turns| - 1 :: turns[k].next == Some(turns[k + 1].offset))
  }

  /** Following a collection's offsets delivers every record once and in order. */
  lemma CollectionCoversOnce<T>(items: Option<seq<T>>, turns: seq<Turn<T>>)
    requires WindowsFollowed(items, turns) && turns != []
    ensures var s, got, last := items.GetOr([]), Delivered(turns), turns[|turns| - 1];
      got <= s && |turns| <= |s| + 1 && (last.next.None? <==> got == s)
  {
    var s := items.GetOr([]);
    forall k | 0 <= k < |turns| ensures Honest(s, turns[k]) { WindowIsHonest(items, turns[k]); }
    ChainDelivers(s, turns);
    WindowIsHonest(items, turns[|turns| - 1]);
  }

  lemma WindowIsHonest<T>(items: Option<seq<T>>, turn: Turn<T>)
    requires WindowAnswered(items, turn)
    ensures var s := items.GetOr([]);
      Honest(s, turn) && (turn.next.None? <==> turn.offset + turn.limit >= |s|)
  {}

  /** One page of a collection: the records from the offset up to the limit, how many they are and how many
      there are in all, whether these are not all, and where to go on if there are later ones. */
  lemma CollectionPagesAreExact<T>(items: Option<seq<T>>, offset: nat, limit: nat)
    ensures var s := items.GetOr([]);
      var (page, info) := CollectionPageOf(items, offset, limit);
      && |page| == (if offset >= |s| then 0 else if |s| - offset < limit then |s| - offset else limit)
      && (forall j | 0 <= j < |page| :: page[j] == s[offset + j])
      && info.available == items.Some? && info.returned == |page|
      && info.totalObserved == (if items.Some? then Some(|s|) else None)
      && (info.truncated <==> |page| < |s|)
      && info.nextOffset == (if offset + limit < |s| then Some(offset + limit) else None)
  {}

  /** Its advertised offsets are all accepted exactly when the collection is at most one record
      longer than the largest offset. */
  lemma CollectionOffsetsAccepted<T>(items: seq<T>)
    ensures |items| <= 2_097_153 <==>
      forall offset: nat, limit: nat | WindowAccepted(offset, limit) ::
        var next := CollectionPageOf(Some(items), offset, limit).1.nextOffset;
        next.Some? ==> WindowAccepted(next.value, limit)
    ensures forall offset, limit :: WindowAccepted(offset, limit) <==> offset <= 2_097_152 && limit > 0
  {
    if |items| > MAX_COLLECTION_OFFSET + 1 {
      assert WindowAccepted(MAX_COLLECTION_OFFSET, 1);
      assert CollectionPageOf(Some(items), MAX_COLLECTION_OFFSET, 1).1.nextOffset == Some(MAX_COLLECTION_OFFSET + 1);
    }
  }

  /** The least bytes a JSON array with these records takes: brackets, a byte each, and commas. */
  function ArrayBytes(records: seq<nat>): nat {
    if records == [] then 2 else if |records| == 1 then 2 + records[0] else records[0] + 1 + ArrayBytes(records[1..])
  }

  lemma {:induction false} ArrayOutgrowsItsRecords(records: seq<nat>)
    requires forall k | 0 <= k < |records| :: records[k] > 0
    ensures |records| < ArrayBytes(records)
  {
    if |records| > 1 { ArrayOutgrowsItsRecords(records[1..]); }
  }

  /** Under the response limit every record of an array can be reached by accepted offsets. */
  lemma ResponseLimitSuffices(records: seq<nat>, offset: nat, limit: nat)
    requires forall k | 0 <= k < |records| :: records[k] > 0
    requires ArrayBytes(records) <= 2 * 1024 * 1024 && WindowAccepted(offset, limit)
    ensures var next := CollectionPageOf(Some(records), offset, limit).1.nextOffset;
      next.Some? ==> WindowAccepted(next.value, limit)
  {
    ArrayOutgrowsItsRecords(records);
    CollectionOffsetsAccepted(records);
  }
}
