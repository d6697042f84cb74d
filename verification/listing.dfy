/** The listing state of `useProducts`: the `(page, pageSize, searchTerm,
    categoryFilter)` record, the page of products it shows, the `total`
    count, and the three handlers the page components call. */
module ProductListing {
  import opened Products
  import opened ProductQuery

  datatype ListingState = ListingState(
    page: int,
    pageSize: int,
    searchTerm: string,
    categoryFilter: string)

  /** Page 1 of 20, no search term, no category. */
  const InitialState: ListingState := ListingState(1, 20, "", "")

  /** The catalog filtered by the state's search term and category. */
  function Filtered(all: seq<Product>, st: ListingState): seq<Product>
  {
    FilterProducts(all, st.searchTerm, st.categoryFilter)
  }

  /** `products`: the current page of the filtered catalog. */
  function Visible(all: seq<Product>, st: ListingState): (r: seq<Product>)
    ensures st.page >= 1 && st.pageSize >= 0 ==> |r| <= st.pageSize
  {
    var r := Paginate(Filtered(all, st), st.page, st.pageSize);
    assert st.page >= 1 && st.pageSize >= 0 ==> |r| <= st.pageSize by {
      if st.page >= 1 && st.pageSize >= 0 {
        PageIsWindow(Filtered(all, st), st.page, st.pageSize);
      }
    }
    r
  }

  /** The `total` memo: how many products match, whatever the page. */
  function Total(all: seq<Product>, st: ListingState): (n: nat)
    ensures n <= |all|
  {
    |Filtered(all, st)|
  }

  /** `handlePageChange(newPage, newPageSize)`: the requested page and page
      size, with the query left alone. */
  function HandlePageChange(st: ListingState, page: int, pageSize: int): (r: ListingState)
    ensures r.page == page && r.pageSize == pageSize
    ensures r.searchTerm == st.searchTerm && r.categoryFilter == st.categoryFilter
  {
    st.(page := page, pageSize := pageSize)
  }

  /** `handleSearch(term)`: a new term always goes back to page 1; the page
      size and the category are kept. */
  function HandleSearch(st: ListingState, term: string): (r: ListingState)
    ensures r.searchTerm == term && r.page == 1
    ensures r.pageSize == st.pageSize && r.categoryFilter == st.categoryFilter
  {
    st.(searchTerm := term, page := 1)
  }

  /** `handleCategoryFilter(category)`: a new category, or the same one
      again, always goes back to page 1; the page size and the term are
      kept. */
  function HandleCategoryFilter(st: ListingState, category: string): (r: ListingState)
    ensures r.categoryFilter == category && r.page == 1
    ensures r.pageSize == st.pageSize && r.searchTerm == st.searchTerm
  {
    st.(categoryFilter := category, page := 1)
  }

  /** Every product shown matches the query; nothing outside the catalog is
      shown. */
  lemma VisibleMatch(all: seq<Product>, st: ListingState, p: Product)
    requires p in Visible(all, st)
    ensures p in all && Matches(p, st.searchTerm, st.categoryFilter)
  {
    var f := Filtered(all, st);
    var from := RelativeIndex(PageStart(st.page, st.pageSize), |f|);
    var to := RelativeIndex(PageStart(st.page, st.pageSize) + st.pageSize, |f|);
    assert p in f[from..to];
    FilterMembers(all, st.searchTerm, st.categoryFilter, p);
  }

  /** `total` is the length of the filtered list and depends on the search
      term and category only, never on the page or the page size. */
  lemma TotalDependsOnlyOnQuery(all: seq<Product>, st: ListingState, st': ListingState)
    requires st.searchTerm == st'.searchTerm && st.categoryFilter == st'.categoryFilter
    ensures Total(all, st) == Total(all, st') == |FilterProducts(all, st.searchTerm, st.categoryFilter)|
  {
  }

  /** Changing page or page size keeps the query, so `total` stays, and shows
      the requested window of the same filtered list. */
  lemma PageChangeKeepsQuery(all: seq<Product>, st: ListingState, page: int, pageSize: int)
    ensures var st' := HandlePageChange(st, page, pageSize);
      && st'.page == page && st'.pageSize == pageSize
      && Total(all, st') == Total(all, st)
      && Visible(all, st') == Paginate(Filtered(all, st), page, pageSize)
  {
  }

  /** A search shows the first `pageSize` matches of the new term in the
      current category, keeps the page size, and sets `total` to the number
      of those matches. */
  lemma SearchShowsFirstPage(all: seq<Product>, st: ListingState, term: string)
    requires st.pageSize >= 0
    ensures var st' := HandleSearch(st, term);
      var f := FilterProducts(all, term, st.categoryFilter);
      && st'.page == 1 && st'.pageSize == st.pageSize
      && Visible(all, st') == f[..Min(st.pageSize, |f|)]
      && Total(all, st') == |f|
  {
    var f := FilterProducts(all, term, st.categoryFilter);
    PageIsWindow(f, 1, st.pageSize);
  }

  /** A category change shows the first `pageSize` matches of the current
      term in the new category, keeps the page size, and sets `total` to the
      number of those matches. */
  lemma CategoryShowsFirstPage(all: seq<Product>, st: ListingState, category: string)
    requires st.pageSize >= 0
    ensures var st' := HandleCategoryFilter(st, category);
      var f := FilterProducts(all, st.searchTerm, category);
      && st'.page == 1 && st'.pageSize == st.pageSize
      && Visible(all, st') == f[..Min(st.pageSize, |f|)]
      && Total(all, st') == |f|
  {
    var f := FilterProducts(all, st.searchTerm, category);
    PageIsWindow(f, 1, st.pageSize);
  }

  /** Before any interaction the listing shows the first 20 products of the
      catalog, and `total` counts the whole catalog. */
  lemma InitialShowsFirstTwenty(all: seq<Product>)
    ensures Visible(all, InitialState) == all[..Min(20, |all|)]
    ensures Total(all, InitialState) == |all|
  {
    EmptyQueryIsIdentity(all);
    PageIsWindow(all, 1, 20);
  }

  /** With a positive page size, stepping through pages `1..PageCount` shows
      every match exactly once, in order, and the page lengths add up to
      `total`. */
  lemma PagesSumToTotal(all: seq<Product>, st: ListingState)
    requires st.pageSize >= 1
    ensures var n := PageCount(Total(all, st), st.pageSize);
      && ConcatPages(Filtered(all, st), st.pageSize, n) == Filtered(all, st)
      && PageLengths(Filtered(all, st), st.pageSize, n) == Total(all, st)
  {
    PagesPartition(Filtered(all, st), st.pageSize);
  }
}
