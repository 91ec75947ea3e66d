/**
 * The search page: a conjunctive filter over the loaded listings, a sort by
 * the chosen mode, and pagination six listings to a page with a cursor the
 * Previous/Next buttons keep in range.
 */
module Search {
  import opened Wrappers
  import opened Text
  import opened Seqs
  import opened Sorting

  /** A published listing as the page holds it, with category, condition and seller already joined. */
  datatype Listing = Listing(
    id: string,
    title: string,
    description: string,
    price: int,
    location: string,
    categoryName: string,
    conditionName: string,
    createdAt: int)

  /** The filter panel's selections. */
  datatype Filters = Filters(
    query: string,
    categories: seq<string>,
    conditions: seq<string>,
    location: string,
    minPrice: int,
    maxPrice: int)

  const AllCountries := "All Countries"
  const PageSize := 6
  const DefaultMinPrice := 0
  const DefaultMaxPrice := 100000

  /** A blank query matches everything; otherwise the lower-cased query must occur in the title or description. */
  predicate MatchesQuery(query: string, l: Listing) {
    IsBlank(query) ||
    Includes(ToLower(l.title), ToLower(query)) ||
    Includes(ToLower(l.description), ToLower(query))
  }

  predicate MatchesCategory(categories: seq<string>, l: Listing) {
    |categories| == 0 || l.categoryName in categories
  }

  predicate MatchesCondition(conditions: seq<string>, l: Listing) {
    |conditions| == 0 || l.conditionName in conditions
  }

  predicate MatchesLocation(location: string, l: Listing) {
    location == AllCountries || Includes(l.location, location)
  }

  /** Both price bounds are inclusive. */
  predicate MatchesPrice(minPrice: int, maxPrice: int, l: Listing) {
    minPrice <= l.price <= maxPrice
  }

  predicate Matches(f: Filters, l: Listing) {
    MatchesQuery(f.query, l) && MatchesCategory(f.categories, l) &&
    MatchesCondition(f.conditions, l) && MatchesLocation(f.location, l) &&
    MatchesPrice(f.minPrice, f.maxPrice, l)
  }

  function MatchesFn(f: Filters): Listing -> bool {
    l => Matches(f, l)
  }

  /** The listings that satisfy every filter, in their loaded order. */
  function FilterListings(listings: seq<Listing>, f: Filters): (r: seq<Listing>)
    ensures |r| <= |listings|
    ensures forall i :: 0 <= i < |r| ==> r[i] in listings && Matches(f, r[i])
    ensures forall i :: 0 <= i < |listings| && Matches(f, listings[i]) ==> listings[i] in r
  {
    Filter(listings, MatchesFn(f))
  }

  /** The filter keeps every copy of a matching listing and drops every copy of one that fails. */
  lemma FilterListingsCounts(listings: seq<Listing>, f: Filters, l: Listing)
    ensures multiset(FilterListings(listings, f))[l] ==
            if Matches(f, l) then multiset(listings)[l] else 0
  {
    FilterMultiset(listings, MatchesFn(f), l);
  }

  /** The filter keeps input order: filtering a concatenation concatenates the filtered parts. */
  lemma FilterListingsKeepsOrder(a: seq<Listing>, b: seq<Listing>, f: Filters)
    ensures FilterListings(a + b, f) == FilterListings(a, f) + FilterListings(b, f)
  {
    FilterConcat(a, b, MatchesFn(f));
  }

  /** The panel's initial selections (a non-empty `q` URL parameter replaces the query). */
  function InitialFilters(urlQuery: Option<string>): Filters {
    var q := if urlQuery.Some? && urlQuery.value != [] then urlQuery.value else [];
    Filters(q, [], [], AllCountries, DefaultMinPrice, DefaultMaxPrice)
  }

  /**
   * A blank query, no category, no condition and "All Countries" constrain nothing:
   * only the price range can then drop a listing.
   */
  lemma NeutralFiltersKeepEverything(listings: seq<Listing>, f: Filters)
    requires IsBlank(f.query) && f.categories == [] && f.conditions == [] && f.location == AllCountries
    requires forall i :: 0 <= i < |listings| ==> f.minPrice <= listings[i].price <= f.maxPrice
    ensures FilterListings(listings, f) == listings
  {
    FilterAllPass(listings, MatchesFn(f));
  }

  // ---------------------------------------------------------------- sorting

  datatype SortMode = Relevance | PriceAsc | PriceDesc | Newest

  /** The sort selector's value; anything unrecognised takes the comparator's `default` branch. */
  function ParseSortMode(s: string): SortMode {
    if s == "price-asc" then PriceAsc
    else if s == "price-desc" then PriceDesc
    else if s == "newest" then Newest
    else Relevance
  }

  /** The key whose ascending order the comparator of each mode describes. */
  function SortKey(mode: SortMode): Listing -> int {
    match mode
    case Relevance => (l: Listing) => 0
    case PriceAsc => (l: Listing) => l.price
    case PriceDesc => (l: Listing) => -l.price
    case Newest => (l: Listing) => -l.createdAt
  }

  /** The stable sort of the filtered listings by the chosen mode. */
  function SortListings(listings: seq<Listing>, mode: SortMode): (r: seq<Listing>)
    ensures multiset(r) == multiset(listings)
    ensures |r| == |listings|
    ensures mode == PriceAsc ==> forall i, j :: 0 <= i < j < |r| ==> r[i].price <= r[j].price
    ensures mode == PriceDesc ==> forall i, j :: 0 <= i < j < |r| ==> r[i].price >= r[j].price
    ensures mode == Newest ==> forall i, j :: 0 <= i < j < |r| ==> r[i].createdAt >= r[j].createdAt
  {
    var r := SortBy(listings, SortKey(mode));
    assert SortedBy(r, SortKey(mode));
    r
  }

  /** Sorting by relevance keeps the filtered order. */
  lemma RelevanceKeepsOrder(listings: seq<Listing>)
    ensures SortListings(listings, Relevance) == listings
  {
    ConstantKeyKeepsOrder(listings, SortKey(Relevance));
  }

  /** Listings with the same sort key keep their relative order. */
  lemma SortListingsStable(listings: seq<Listing>, mode: SortMode, k: int)
    ensures KeyClass(SortListings(listings, mode), SortKey(mode), k) == KeyClass(listings, SortKey(mode), k)
  {
    SortByStable(listings, SortKey(mode), k);
  }

  /** The list the results grid pages through. */
  function Results(listings: seq<Listing>, f: Filters, sort: string): seq<Listing> {
    SortListings(FilterListings(listings, f), ParseSortMode(sort))
  }

  // ---------------------------------------------------------------- paging

  /** `Math.max(1, Math.ceil(n / 6))`. */
  function TotalPages(n: nat): (t: nat)
    ensures t >= 1
    ensures n <= t * PageSize
    ensures t == 1 || (t - 1) * PageSize < n
    ensures n == 0 ==> t == 1
  {
    if n == 0 then 1 else (n + PageSize - 1) / PageSize
  }

  /** `results.slice((page - 1) * 6, page * 6)`. */
  function Page<T>(results: seq<T>, page: int): (r: seq<T>)
    ensures |r| <= PageSize
    ensures page >= 1 ==> forall k :: 0 <= k < |r| ==>
              (page - 1) * PageSize + k < |results| && r[k] == results[(page - 1) * PageSize + k]
    ensures page >= 1 && page * PageSize <= |results| ==> |r| == PageSize
  {
    Slice(results, (page - 1) * PageSize, page * PageSize)
  }

  /** Pages `first` to `last`, one after another. */
  function PagesFrom<T>(results: seq<T>, first: int, last: int): seq<T>
    decreases last + 1 - first
  {
    if first > last then [] else Page(results, first) + PagesFrom(results, first + 1, last)
  }

  /** Pages `first..last` together hold exactly the items from `(first - 1) * 6` up to `last * 6`. */
  lemma {:induction false} PagesFromIsSlice<T>(results: seq<T>, first: int, last: int)
    requires 1 <= first && 0 <= last
    ensures PagesFrom(results, first, last) == Slice(results, (first - 1) * PageSize, last * PageSize)
    decreases last + 1 - first
  {
    if first <= last {
      PagesFromIsSlice(results, first + 1, last);
      SliceConcat(results, (first - 1) * PageSize, first * PageSize, last * PageSize);
    } else {
      SliceEmpty(results, (first - 1) * PageSize, last * PageSize);
    }
  }

  /** Concatenating pages 1 to `TotalPages` reproduces the result list. */
  lemma PagesReassemble<T>(results: seq<T>)
    ensures PagesFrom(results, 1, TotalPages(|results|)) == results
  {
    PagesFromIsSlice(results, 1, TotalPages(|results|));
    assert results[0..|results|] == results;
  }

  /** The Previous button: `Math.max(1, page - 1)`. */
  function PreviousPage(page: int): (r: int)
    ensures r >= 1
    ensures 1 <= page ==> r <= page
    ensures page > 1 ==> r == page - 1
  {
    if page - 1 < 1 then 1 else page - 1
  }

  /** The Next button: `Math.min(totalPages, page + 1)`. */
  function NextPage(page: int, totalPages: int): (r: int)
    ensures r <= totalPages
    ensures page <= totalPages ==> page <= r
    ensures page < totalPages ==> r == page + 1
  {
    if page + 1 < totalPages then page + 1 else totalPages
  }

  // ---------------------------------------------------------------- page state

  /** A category or condition checkbox: checking appends the name, unchecking drops every copy of it. */
  function ToggleSelection(selected: seq<string>, name: string, checked: bool): (r: seq<string>)
    ensures checked ==> r == selected + [name]
    ensures !checked ==> name !in r
    ensures !checked ==> forall i :: 0 <= i < |selected| && selected[i] != name ==> selected[i] in r
    ensures !checked ==> forall i :: 0 <= i < |r| ==> r[i] in selected
  {
    if checked then selected + [name] else Filter(selected, c => c != name)
  }

  /** Clicking a box flips its displayed state, which is whether its name is selected. */
  function ClickBox(selected: seq<string>, name: string): (r: seq<string>)
    ensures name in r <==> name !in selected
    ensures forall c :: c != name ==> (c in r <==> c in selected)
  {
    ToggleSelection(selected, name, name !in selected)
  }

  /** Clicking an unchecked box twice restores the selection exactly. */
  lemma ClickTwiceRestores(selected: seq<string>, name: string)
    requires name !in selected
    ensures ClickBox(ClickBox(selected, name), name) == selected
  {
    var p := (c: string) => c != name;
    FilterConcat(selected, [name], p);
    FilterAllPass(selected, p);
  }

  /** The min price input: `parseInt(v) || 0`. */
  function MinPriceInput(parsed: Option<int>): (r: int)
    ensures (parsed.None? || parsed == Some(0)) ==> r == DefaultMinPrice
    ensures parsed.Some? ==> r == parsed.value
  {
    match parsed
    case Some(n) => n
    case None => DefaultMinPrice
  }

  /** The max price input: `parseInt(v) || 100000`, so an entered 0 also reads as 100000. */
  function MaxPriceInput(parsed: Option<int>): (r: int)
    ensures r != 0
    ensures parsed.Some? && parsed.value != 0 ==> r == parsed.value
    ensures parsed.None? || parsed == Some(0) ==> r == DefaultMaxPrice
  {
    match parsed
    case Some(n) => if n != 0 then n else DefaultMaxPrice
    case None => DefaultMaxPrice
  }

  datatype SearchState = SearchState(filters: Filters, sort: string, page: int)

  /** The user's actions on the page; price events carry `parseInt`'s result. */
  datatype SearchEvent =
    | QueryTyped(query: string)
    | CategoryClicked(category: string)
    | ConditionClicked(condition: string)
    | MinPriceEntered(minInput: Option<int>)
    | MaxPriceEntered(maxInput: Option<int>)
    | LocationChosen(location: string)
    | SortChosen(sort: string)
    | PreviousClicked
    | NextClicked
    | PageClicked(n: int)

  /** The state on arrival: the URL's query, no other filter, relevance order, page 1. */
  function InitialState(urlQuery: Option<string>): SearchState {
    SearchState(InitialFilters(urlQuery), "relevance", 1)
  }

  /** Arriving without a query shows every loaded listing priced within the default range, in loaded order. */
  lemma InitialStateShowsAll(listings: seq<Listing>)
    requires forall i :: 0 <= i < |listings| ==> DefaultMinPrice <= listings[i].price <= DefaultMaxPrice
    ensures var st := InitialState(None);
            Results(listings, st.filters, st.sort) == listings && st.page == 1
  {
    var f := InitialState(None).filters;
    NeutralFiltersKeepEverything(listings, f);
    RelevanceKeepsOrder(listings);
  }

  /** The page count for the list currently on screen. */
  function PageCount(listings: seq<Listing>, st: SearchState): (n: nat)
    ensures n == TotalPages(|Results(listings, st.filters, st.sort)|)
  {
    // sorting keeps the length, so the filtered list alone fixes the count
    TotalPages(|FilterListings(listings, st.filters)|)
  }

  /**
   * The state after one event, including the effect that returns to page 1
   * whenever a filter or the sort changes. Text values only re-trigger the effect
   * when they differ; the checkbox lists and the price range are fresh arrays on
   * every update, so they always do.
   */
  function Handle(listings: seq<Listing>, st: SearchState, ev: SearchEvent): (r: SearchState)
    ensures ev.QueryTyped? ==>
              r.filters == st.filters.(query := ev.query) && r.sort == st.sort &&
              r.page == (if ev.query == st.filters.query then st.page else 1)
    ensures ev.CategoryClicked? ==>
              r.filters.(categories := st.filters.categories) == st.filters && r.sort == st.sort && r.page == 1 &&
              (ev.category in r.filters.categories <==> ev.category !in st.filters.categories)
    ensures ev.ConditionClicked? ==>
              r.filters.(conditions := st.filters.conditions) == st.filters && r.sort == st.sort && r.page == 1 &&
              (ev.condition in r.filters.conditions <==> ev.condition !in st.filters.conditions)
    ensures ev.MinPriceEntered? ==>
              r.filters.(minPrice := st.filters.minPrice) == st.filters && r.sort == st.sort && r.page == 1
    ensures ev.MaxPriceEntered? ==>
              r.filters.(maxPrice := st.filters.maxPrice) == st.filters && r.sort == st.sort && r.page == 1 &&
              r.filters.maxPrice != 0
    ensures ev.LocationChosen? ==>
              r.filters == st.filters.(location := ev.location) && r.sort == st.sort &&
              r.page == (if ev.location == st.filters.location then st.page else 1)
    ensures ev.SortChosen? ==>
              r.filters == st.filters && r.sort == ev.sort && r.page == (if ev.sort == st.sort then st.page else 1)
    ensures ev.PreviousClicked? || ev.NextClicked? || ev.PageClicked? ==>
              r.filters == st.filters && r.sort == st.sort
    ensures ev.PageClicked? ==> r.page == ev.n
    ensures ev.CategoryClicked? ==> r.filters.categories == ClickBox(st.filters.categories, ev.category)
    ensures ev.ConditionClicked? ==> r.filters.conditions == ClickBox(st.filters.conditions, ev.condition)
    ensures ev.MinPriceEntered? ==> r.filters.minPrice == MinPriceInput(ev.minInput)
    ensures ev.MaxPriceEntered? ==> r.filters.maxPrice == MaxPriceInput(ev.maxInput)
    ensures ev.PreviousClicked? ==> r.page == PreviousPage(st.page)
    ensures ev.NextClicked? ==> r.page == NextPage(st.page, PageCount(listings, st))
  {
    var f := st.filters;
    match ev
    case QueryTyped(q) =>
      SearchState(f.(query := q), st.sort, if q != f.query then 1 else st.page)
    case CategoryClicked(c) =>
      SearchState(f.(categories := ClickBox(f.categories, c)), st.sort, 1)
    case ConditionClicked(c) =>
      SearchState(f.(conditions := ClickBox(f.conditions, c)), st.sort, 1)
    case MinPriceEntered(v) =>
      SearchState(f.(minPrice := MinPriceInput(v)), st.sort, 1)
    case MaxPriceEntered(v) =>
      SearchState(f.(maxPrice := MaxPriceInput(v)), st.sort, 1)
    case LocationChosen(loc) =>
      SearchState(f.(location := loc), st.sort, if loc != f.location then 1 else st.page)
    case SortChosen(s) =>
      SearchState(f, s, if s != st.sort then 1 else st.page)
    case PreviousClicked =>
      st.(page := PreviousPage(st.page))
    case NextClicked =>
      st.(page := NextPage(st.page, PageCount(listings, st)))
    case PageClicked(n) =>
      st.(page := n)
  }

  /** Page buttons exist only for 1 to the page count. */
  predicate Offered(listings: seq<Listing>, st: SearchState, ev: SearchEvent) {
    ev.PageClicked? ==> 1 <= ev.n <= PageCount(listings, st)
  }

  /** A filter or sort that changes sends the cursor back to page 1; paging leaves the filters alone. */
  lemma HandleResetsOrPreserves(listings: seq<Listing>, st: SearchState, ev: SearchEvent)
    ensures var r := Handle(listings, st, ev);
            (r.filters != st.filters || r.sort != st.sort ==> r.page == 1) &&
            (ev.PreviousClicked? || ev.NextClicked? || ev.PageClicked? ==>
               r.filters == st.filters && r.sort == st.sort)
  {
  }

  /** Over a fixed set of loaded listings, every event keeps the cursor within `[1, PageCount]`. */
  lemma HandleKeepsPageInRange(listings: seq<Listing>, st: SearchState, ev: SearchEvent)
    requires 1 <= st.page <= PageCount(listings, st)
    requires Offered(listings, st, ev)
    ensures var r := Handle(listings, st, ev);
            1 <= r.page <= PageCount(listings, r)
  {
  }
}
