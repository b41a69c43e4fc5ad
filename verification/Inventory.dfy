/** Resolving a resource selector through bounded inventory pages. */
module Inventory {
  import opened Json
  import opened Sequences
  import opened Strings

  const PAGE_SIZE: nat := 100
  const MAX_SELECTOR_PAGES: nat := 16

  datatype Item = Item(id: string, name: string)

  predicate SameName(item: Item, selector: string) { LowerAll(item.name) == LowerAll(selector) }

  predicate IsControl(c: char) { c < ' ' || '\U{7F}' <= c <= '\U{9F}' }

  /** At most 128 bytes and no controls. */
  predicate ValidSelector(selector: string) {
    0 < Utf8Length(selector) <= 128 && forall c | c in selector :: !IsControl(c)
  }

  /** Hexadecimal digits take one byte each, so 24 characters are 24 bytes. */
  predicate IsObjectId(s: string) {
    |s| == 24 && forall c | c in s :: '0' <= c <= '9' || 'a' <= Lower(c) <= 'f'
  }

  // ---- choosing among resources

  datatype Selection = InvalidSelector | Selected(item: Item) | Missing | Ambiguous

  /** The items with exactly the selector's name, in order. */
  function Exact(items: seq<Item>, selector: string): seq<Item> { Filter(items, Named(selector)) }

  function Named(selector: string): Item -> bool { item => SameName(item, selector) }

  function FirstId(items: seq<Item>, id: string): (n: nat)
    ensures n <= |items| && (n < |items| ==> items[n].id == id)
    ensures forall j | 0 <= j < n :: items[j].id != id
  {
    if items == [] || items[0].id == id then 0 else 1 + FirstId(items[1..], id)
  }

  /** An exact id wins; otherwise the name has to be unique. */
  function Select(items: seq<Item>, selector: string): Selection {
    if !ValidSelector(selector) then InvalidSelector else
    var n := FirstId(items, selector);
    if n < |items| then Selected(items[n]) else
    var named := Exact(items, selector);
    if named == [] then Missing else if |named| == 1 then Selected(named[0]) else Ambiguous
  }

  /** The item at `n` is the only one with the selector's name. */
  predicate OnlyNamed(items: seq<Item>, selector: string, n: int) {
    0 <= n < |items| && SameName(items[n], selector)
    && forall k | 0 <= k < |items| && k != n :: !SameName(items[k], selector)
  }

  lemma {:induction false} ExactCounts(items: seq<Item>, selector: string)
    ensures Exact(items, selector) == [] <==> forall n | 0 <= n < |items| :: !SameName(items[n], selector)
    ensures |Exact(items, selector)| == 1 <==> exists n :: OnlyNamed(items, selector, n)
    ensures forall n | OnlyNamed(items, selector, n) :: Exact(items, selector) == [items[n]]
  {
    if items != [] {
      var rest := items[1..];
      ExactCounts(rest, selector);
      assert forall n | 0 <= n < |rest| :: rest[n] == items[n + 1];
      assert forall n | OnlyNamed(items, selector, n) && n > 0 :: OnlyNamed(rest, selector, n - 1);
      if SameName(items[0], selector) {
        assert Exact(rest, selector) == [] <==> OnlyNamed(items, selector, 0);
      } else {
        assert forall n | OnlyNamed(rest, selector, n) :: OnlyNamed(items, selector, n + 1);
      }
    }
  }

  /** The item at `n` has the selector's name, but for the case of letters. */
  predicate NameAt(items: seq<Item>, selector: string, n: int) {
    0 <= n < |items| && EqualIgnoringCase(items[n].name, selector)
  }

  /** Two items have the selector's name. */
  predicate TwoNamed(items: seq<Item>, selector: string) {
    exists j, k | 0 <= j < k < |items| :: NameAt(items, selector, j) && NameAt(items, selector, k)
  }

  lemma NamesAreEqual(items: seq<Item>, selector: string)
    ensures forall n | 0 <= n < |items| :: SameName(items[n], selector) <==> NameAt(items, selector, n)
  {
    forall n | 0 <= n < |items| ensures SameName(items[n], selector) <==> NameAt(items, selector, n) {
      SameLower(items[n].name, selector);
    }
  }

  lemma FewerThanTwo(items: seq<Item>, selector: string)
    ensures |Exact(items, selector)| >= 2 <==> TwoNamed(items, selector)
  {
    ExactCounts(items, selector);
    NamesAreEqual(items, selector);
    if |Exact(items, selector)| >= 2 {
      var j :| 0 <= j < |items| && SameName(items[j], selector);
      assert !OnlyNamed(items, selector, j);
      var k :| 0 <= k < |items| && k != j && SameName(items[k], selector);
      assert NameAt(items, selector, j) && NameAt(items, selector, k);
    }
    if TwoNamed(items, selector) {
      var j, k :| 0 <= j < k < |items| && NameAt(items, selector, j) && NameAt(items, selector, k);
      assert SameName(items[j], selector) && SameName(items[k], selector);
      assert forall n :: !OnlyNamed(items, selector, n);
    }
  }

  /** From 1 to 128 bytes and no control characters. */
  predicate Sayable(selector: string) {
    1 <= Utf8Length(selector) <= 128
    && forall c | c in selector :: '\U{20}' <= c && !('\U{7F}' <= c <= '\U{9F}')
  }

  /** What selecting gives: nothing for an invalid selector; the item with that id if there is one; otherwise
      the item with that name, ignoring the case of letters, when it is the only one, none when there is
      none, and no decision when there are more. */
  lemma SelectsOnlyTheUnambiguous(items: seq<Item>, selector: string)
    ensures Select(items, selector) == InvalidSelector <==> !Sayable(selector)
    ensures Sayable(selector) ==>
      var known := exists n :: 0 <= n < |items| && items[n].id == selector;
      var r := Select(items, selector);
      && (known ==> r.Selected? && r.item.id == selector && r.item in items)
      && (!known ==> forall n | NameAt(items, selector, n) && !TwoNamed(items, selector) :: r == Selected(items[n]))
      && (!known ==> (r == Missing <==> forall n | 0 <= n < |items| :: !NameAt(items, selector, n)))
      && (!known ==> (r == Ambiguous <==> TwoNamed(items, selector)))
  {
    ExactCounts(items, selector);
    NamesAreEqual(items, selector);
    FewerThanTwo(items, selector);
    forall n | NameAt(items, selector, n) && !TwoNamed(items, selector) ensures OnlyNamed(items, selector, n) {
      assert forall k | 0 <= k < |items| && k != n :: !NameAt(items, selector, k);
    }
  }

  // ---- what Core answers

  /** One Core release: the whole inventory, the items it lists for the selector as an exact id, and
      the items whose names match the selector as a term, which pages cut into slices. */
  datatype Core = Core(paginates: bool, all: seq<Item>, byId: seq<Item>, byTerm: seq<Item>)

  /** Consistent answers. Ids are distinct 24-digit hexadecimal strings; the id listing comes from the
      inventory and has the item with that id; the term listing comes from the inventory and keeps
      every item with exactly that name. */
  ghost predicate Consistent(core: Core, selector: string) {
    && (forall item | item in core.all :: IsObjectId(item.id))
    && (forall a, b | a in core.all && b in core.all && a.id == b.id :: a == b)
    && (forall item | item in core.byId :: item in core.all)
    && (forall item | item in core.all && item.id == selector :: item in core.byId)
    && (forall item | item in core.byTerm :: item in core.all)
    && multiset(Exact(core.byTerm, selector)) == multiset(Exact(core.all, selector))
  }

  function PageOf(items: seq<Item>, page: nat): seq<Item> {
    var from := page * PAGE_SIZE;
    if from >= |items| then [] else if from + PAGE_SIZE >= |items| then items[from..] else items[from..from + PAGE_SIZE]
  }

  // ---- the search

  datatype Resolution = Items(items: seq<Item>) | InvalidRequest | TooBroad

  /** Every page up to the bound was read without finding two exact names, and more may follow. */
  predicate Exhausted(core: Core, selector: string) {
    |core.byTerm| >= MAX_SELECTOR_PAGES * PAGE_SIZE
    && |Exact(core.byTerm[..MAX_SELECTOR_PAGES * PAGE_SIZE], selector)| < 2
  }

  predicate IdListed(core: Core, selector: string) {
    IsObjectId(selector) && exists item :: item in core.byId && item.id == selector
  }

  /** What the search returns, from the term listing: everything exact, or the first two. */
  predicate Searched(core: Core, selector: string, found: seq<Item>) {
    var exact := Exact(core.byTerm, selector);
    found == exact || (|found| == 2 && found <= exact)
  }

  lemma ExactOfPage(listing: seq<Item>, page: nat, selector: string)
    requires page * PAGE_SIZE <= |listing|
    ensures var items := PageOf(listing, page);
      var upto := page * PAGE_SIZE + |items|;
      && upto <= |listing| && (|items| == PAGE_SIZE || upto == |listing|) && |items| <= PAGE_SIZE
      && Exact(listing[..upto], selector) == Exact(listing[..page * PAGE_SIZE], selector) + Exact(items, selector)
  {
    var items, done := PageOf(listing, page), page * PAGE_SIZE;
    assert listing[..done + |items|] == listing[..done] + items;
    FilterOfSum(listing[..done], items, Named(selector));
  }

  /** The exact names of the first items of a page, after those of earlier pages. */
  lemma ExactOfOneMore(before: seq<Item>, page: seq<Item>, n: nat, selector: string)
    requires n < |page|
    ensures before + Exact(page[..n + 1], selector) ==
      before + Exact(page[..n], selector) + if SameName(page[n], selector) then [page[n]] else []
    ensures before + Exact(page[..n + 1], selector) <= before + Exact(page, selector)
  {
    FilterOfNext(page, n, Named(selector));
    Regroup(before, Exact(page[..n], selector), if SameName(page[n], selector) then [page[n]] else []);
    FilterOfPrefix(page, n + 1, Named(selector));
  }

  /** Append the exact names of one page, stopping at the second in all. */
  method CollectExact(matches: seq<Item>, page: seq<Item>, selector: string) returns (found: seq<Item>)
    requires |matches| < 2
    ensures (found == matches + Exact(page, selector) && |found| < 2)
      || (|found| == 2 && found <= matches + Exact(page, selector))
  {
    found := matches;
    for n := 0 to |page|
      invariant found == matches + Exact(page[..n], selector) && |found| < 2
    {
      ExactOfOneMore(matches, page, n, selector);
      if SameName(page[n], selector) {
        found := found + [page[n]];
        if |found| == 2 { return; }
      }
    }
    assert page[..|page|] == page;
  }

  method SearchPages(core: Core, selector: string) returns (r: Resolution)
    ensures r.TooBroad? <==> Exhausted(core, selector)
    ensures r.TooBroad? || (r.Items? && Searched(core, selector, r.items))
  {
    var listing := core.byTerm;
    var matches: seq<Item> := [];
    for page := 0 to MAX_SELECTOR_PAGES
      invariant page * PAGE_SIZE <= |listing|
      invariant matches == Exact(listing[..page * PAGE_SIZE], selector) && |matches| < 2
    {
      var items := PageOf(listing, page);
      ghost var upto := page * PAGE_SIZE + |items|;
      ExactOfPage(listing, page, selector);
      FilterOfPrefix(listing, upto, Named(selector));
      var found := CollectExact(matches, items, selector);
      if |found| >= 2 {
        TwoFoundEarly(listing, upto, selector);
        return Items(found);
      }
      matches := found;
      if |items| != PAGE_SIZE {
        assert listing[..upto] == listing;
        return Items(matches);
      }
    }
    r := TooBroad;
  }

  /** Two exact names before the bound rule out exhaustion. */
  lemma TwoFoundEarly(listing: seq<Item>, upto: nat, selector: string)
    requires upto <= |listing| && upto <= MAX_SELECTOR_PAGES * PAGE_SIZE && |Exact(listing[..upto], selector)| >= 2
    ensures |listing| >= MAX_SELECTOR_PAGES * PAGE_SIZE ==>
      |Exact(listing[..MAX_SELECTOR_PAGES * PAGE_SIZE], selector)| >= 2
  {
    var bound := MAX_SELECTOR_PAGES * PAGE_SIZE;
    if |listing| >= bound {
      assert listing[..bound] == listing[..upto] + listing[upto..bound];
      FilterOfSum(listing[..upto], listing[upto..bound], Named(selector));
    }
  }

  // ---- agreement with the whole inventory

  lemma SameSingleton(a: seq<Item>, b: seq<Item>)
    requires multiset(a) == multiset(b)
    ensures |a| == |b| && (|a| == 1 ==> a == b)
  {
    assert |multiset(a)| == |a| && |multiset(b)| == |b|;
    if |a| == 1 { assert a[0] in multiset(a); assert b[0] in multiset(b); }
  }

  lemma IdSelected(items: seq<Item>, selector: string, item: Item)
    requires ValidSelector(selector) && item in items && item.id == selector
    requires forall other | other in items && other.id == selector :: other == item
    ensures Select(items, selector) == Selected(item)
  {
    var n := FirstId(items, selector);
    assert n < |items| && items[n] in items;
  }

  lemma NameSelected(items: seq<Item>, selector: string)
    requires forall item | item in items :: item.id != selector
    ensures FirstId(items, selector) == |items|
  {
    assert forall j | 0 <= j < |items| :: items[j] in items;
  }

  lemma IdAnywhere(core: Core, selector: string)
    requires Consistent(core, selector)
    ensures IdListed(core, selector) <==> exists item :: item in core.all && item.id == selector
  {}

  /** Selecting among what the term search found is selecting among the whole inventory. */
  lemma SearchedAgrees(core: Core, selector: string, found: seq<Item>)
    requires Consistent(core, selector) && ValidSelector(selector) && !IdListed(core, selector)
    requires Searched(core, selector, found)
    ensures Select(found, selector) == Select(core.all, selector)
  {
    var listed, whole := Exact(core.byTerm, selector), Exact(core.all, selector);
    SameSingleton(listed, whole);
    FilterMembers(core.byTerm, Named(selector));
    assert forall item | item in found :: item in listed;
    FilterKeepsAll(found, Named(selector));
    IdAnywhere(core, selector);
    NameSelected(found, selector);
    NameSelected(core.all, selector);
  }

  /** What each branch of the resolution answers with. */
  predicate Answers(core: Core, selector: string, items: seq<Item>) {
    if IdListed(core, selector) then items == core.byId
    else if !core.paginates then items == core.all
    else Searched(core, selector, items)
  }

  predicate Undecided(core: Core, selector: string) {
    ValidSelector(selector) && !IdListed(core, selector) && core.paginates && Exhausted(core, selector)
  }

  method Resolve(core: Core, selector: string, timesOut: bool) returns (r: Resolution)
    ensures r.InvalidRequest? <==> !timesOut && !ValidSelector(selector)
    ensures r.TooBroad? <==> timesOut || Undecided(core, selector)
    ensures r.Items? ==> Answers(core, selector, r.items)
  {
    if timesOut { return TooBroad; }
    if !ValidSelector(selector) { return InvalidRequest; }
    if IsObjectId(selector) {
      var n := FirstId(core.byId, selector);
      if n < |core.byId| {
        assert core.byId[n] in core.byId;
        return Items(core.byId);
      }
    }
    if !core.paginates { return Items(core.all); }
    r := SearchPages(core, selector);
  }

  /** Whatever the resolution answers with, selecting from it is selecting from the whole inventory. */
  lemma AnswersAgree(core: Core, selector: string, items: seq<Item>)
    requires Consistent(core, selector) && ValidSelector(selector) && Answers(core, selector, items)
    ensures Select(items, selector) == Select(core.all, selector)
  {
    if IdListed(core, selector) {
      var item :| item in core.byId && item.id == selector;
      IdSelected(core.byId, selector, item);
      IdSelected(core.all, selector, item);
    } else if core.paginates {
      SearchedAgrees(core, selector, items);
    }
  }

  /** 24 hexadecimal digits. */
  predicate Hexadecimal(s: string) {
    |s| == 24 && forall c | c in s :: '0' <= c <= '9' || 'a' <= c <= 'f' || 'A' <= c <= 'F'
  }

  /** The pages do not settle the name exactly when 1600 items are listed for it without two of that name
      among the first 1600, on a release with pages, for a valid selector that is no listed id. */
  lemma UndecidedExactly(core: Core, selector: string)
    ensures Undecided(core, selector) <==>
      (Sayable(selector) && !(Hexadecimal(selector) && exists item :: item in core.byId && item.id == selector)
       && core.paginates && |core.byTerm| >= 1600 && !TwoNamed(core.byTerm[..1600], selector))
  {
    if |core.byTerm| >= 1600 { FewerThanTwo(core.byTerm[..1600], selector); }
  }

  /** Resolve and then select. Whenever the bounded resolution answers, the selection from its answer is
      the selection from the whole inventory: unique, missing or ambiguous, with an exact id winning. It
      answers unless the selector is invalid, the time is over, or the pages do not settle the name. */
  method ResolveAndSelect(core: Core, selector: string, timesOut: bool) returns (r: Resolution, s: Option<Selection>)
    requires Consistent(core, selector)
    ensures r.InvalidRequest? <==> !timesOut && !ValidSelector(selector)
    ensures r.TooBroad? <==> timesOut || Undecided(core, selector)
    ensures r.Items? ==> Answers(core, selector, r.items)
    ensures s.Some? <==> r.Items?
    ensures r.Items? ==> s.value == Select(r.items, selector) == Select(core.all, selector)
  {
    r := Resolve(core, selector, timesOut);
    s := None;
    if r.Items? {
      s := Some(Select(r.items, selector));
      AnswersAgree(core, selector, r.items);
    }
  }
}
