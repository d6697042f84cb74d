/** The catalog query of `useProducts`: the filter predicate, JavaScript's
    `Array.prototype.slice`, and the page a `(page, pageSize)` pair selects. */
module ProductQuery {
  import opened Products
  import opened Seqs
  import opened Text

  // ---------------------------------------------------------------------------
  // The filter

  /** The lower-cased term occurs in the lower-cased name or description.
      The empty term occurs everywhere, so it admits every product. */
  predicate MatchesSearch(p: Product, term: string)
    ensures term == "" ==> MatchesSearch(p, term)
  {
    IncludesEmpty(Lower(p.name));
    Includes(Lower(p.name), Lower(term)) || Includes(Lower(p.description), Lower(term))
  }

  /** An empty category filter (falsy in JavaScript) admits every product;
      otherwise the category must be equal, character for character. */
  function MatchesCategory(p: Product, category: string): (b: bool)
    ensures category == "" ==> b
    ensures category == p.category ==> b
  {
    category == "" || p.category == category
  }

  /** Both parts of the filter hold; with an empty term only the category
      decides. */
  predicate Matches(p: Product, term: string, category: string)
    ensures term == "" ==> (Matches(p, term, category) <==> MatchesCategory(p, category))
  {
    MatchesSearch(p, term) && MatchesCategory(p, category)
  }

  function Matcher(term: string, category: string): Product -> bool
  {
    (p: Product) => Matches(p, term, category)
  }

  /** `allProducts.filter(...)`: the matching products in catalog order. */
  function FilterProducts(all: seq<Product>, term: string, category: string): (r: seq<Product>)
    ensures |r| <= |all|
    ensures forall k :: 0 <= k < |r| ==> r[k] in all && Matches(r[k], term, category)
  {
    var r := Keep(all, Matcher(term, category));
    assert forall k :: 0 <= k < |r| ==> r[k] in all && Matches(r[k], term, category) by {
      forall k | 0 <= k < |r|
        ensures r[k] in all && Matches(r[k], term, category)
      {
        KeepMembers(all, Matcher(term, category), r[k]);
      }
    }
    r
  }

  /** The filtered list is `all` read at a strictly ascending list of
      indices, and an index is listed iff its product matches: the filter
      keeps every match, nothing else, and the catalog order. */
  lemma FilterIsOrderedSubsequence(all: seq<Product>, term: string, category: string)
    ensures var r := FilterProducts(all, term, category);
      var idx := Positions(all, Matcher(term, category));
      && |r| == |idx|
      && (forall k :: 0 <= k < |idx| ==> idx[k] < |all| && r[k] == all[idx[k]])
      && (forall k, l :: 0 <= k < l < |idx| ==> idx[k] < idx[l])
      && (forall i :: 0 <= i < |all| ==> (i in idx <==> Matches(all[i], term, category)))
  {
    KeepIsOrderedSubsequence(all, Matcher(term, category));
    forall i | 0 <= i < |all|
      ensures i in Positions(all, Matcher(term, category)) <==> Matches(all[i], term, category)
    {
      PositionsExact(all, Matcher(term, category), i);
    }
  }

  /** A product is listed iff it is in the catalog and matches. */
  lemma FilterMembers(all: seq<Product>, term: string, category: string, p: Product)
    ensures p in FilterProducts(all, term, category) <==> p in all && Matches(p, term, category)
  {
    KeepMembers(all, Matcher(term, category), p);
  }

  /** With an empty term and no category every product matches, so the
      filter returns the whole catalog. */
  lemma EmptyQueryIsIdentity(all: seq<Product>)
    ensures FilterProducts(all, "", "") == all
  {
    forall i | 0 <= i < |all|
      ensures Matcher("", "")(all[i])
    {
      assert Lower("") == "";
      IncludesEmpty(Lower(all[i].name));
    }
    KeepAll(all, Matcher("", ""));
  }

  /** Matching ignores the case of ASCII letters, in the term and in the
      product's name and description alike. */
  lemma MatchIsCaseInsensitive(p: Product, term: string, category: string)
    ensures Matches(p, Lower(term), category) == Matches(p, term, category)
    ensures Matches(p.(name := Lower(p.name), description := Lower(p.description)), term, category)
         == Matches(p, term, category)
  {
    LowerIdempotent(term);
    LowerIdempotent(p.name);
    LowerIdempotent(p.description);
  }

  /** Searching for a term gives the same list as searching for it in lower
      case. */
  lemma SearchIsCaseInsensitive(all: seq<Product>, term: string, category: string)
    ensures FilterProducts(all, Lower(term), category) == FilterProducts(all, term, category)
  {
    forall i | 0 <= i < |all|
      ensures Matcher(Lower(term), category)(all[i]) == Matcher(term, category)(all[i])
    {
      MatchIsCaseInsensitive(all[i], term, category);
    }
    KeepAgreeing(all, Matcher(Lower(term), category), Matcher(term, category));
  }

  /** Choosing a category only narrows the list: whatever it shows is shown
      with no category, and it shows no more products. */
  lemma CategoryNarrows(all: seq<Product>, term: string, category: string, p: Product)
    ensures p in FilterProducts(all, term, category) ==> p in FilterProducts(all, term, "")
    ensures |FilterProducts(all, term, category)| <= |FilterProducts(all, term, "")|
  {
    FilterMembers(all, term, category, p);
    FilterMembers(all, term, "", p);
    KeepMonotone(all, Matcher(term, category), Matcher(term, ""));
  }

  /** A search term is found case-insensitively in the name. */
  lemma SearchFindsMixedCase()
    ensures Matches(Product(7, "Blue Mug", "Ceramic", 12.5, "", "Home", 4, 9), "mUG", "Home")
    ensures !Matches(Product(7, "Blue Mug", "Ceramic", 12.5, "", "Home", 4, 9), "mug", "Books")
  {
    var p := Product(7, "Blue Mug", "Ceramic", 12.5, "", "Home", 4, 9);
    assert Lower("mUG") == "mug";
    assert Lower(p.name) == "blue mug";
    assert OccursAt(Lower(p.name), Lower("mUG"), 5);
  }

  // ---------------------------------------------------------------------------
  // Slicing and pages

  function Min(a: int, b: int): int
  {
    if a <= b then a else b
  }

  /** The index `slice` derives from an argument: a negative index counts
      back from the end, and the result is clamped to `[0, len]`. */
  function RelativeIndex(i: int, len: nat): (k: nat)
    ensures k <= len
  {
    if i < 0 then (if len + i < 0 then 0 else len + i)
    else if i > len then len
    else i
  }

  /** `s.slice(start, end)` as ECMAScript defines it for integer arguments. */
  function Slice<T>(s: seq<T>, start: int, end: int): (r: seq<T>)
    ensures |r| <= |s|
    ensures 0 <= start <= end <= |s| ==> r == s[start..end]
    ensures |s| <= start ==> r == []
    ensures end <= start && (0 <= end || start < 0) ==> r == []
  {
    var from := RelativeIndex(start, |s|);
    var to := RelativeIndex(end, |s|);
    if from < to then s[from..to] else []
  }

  /** For non-negative arguments `slice` is the window between them, cut off
      at the end of the sequence, and empty when `end <= start`. */
  lemma SliceNonNegative<T>(s: seq<T>, start: int, end: int)
    requires 0 <= start && 0 <= end
    ensures start < end ==> Slice(s, start, end) == s[Min(start, |s|)..Min(end, |s|)]
    ensures end <= start ==> Slice(s, start, end) == []
    ensures |Slice(s, start, end)| == if start < end then Min(end, |s|) - Min(start, |s|) else 0
  {
  }

  /** The first index of page `page`. */
  function PageStart(page: int, pageSize: int): int
  {
    (page - 1) * pageSize
  }

  /** `filtered.slice(startIndex, startIndex + pageSize)` with
      `startIndex = (page - 1) * pageSize`. */
  function Paginate<T>(s: seq<T>, page: int, pageSize: int): (r: seq<T>)
    ensures |r| <= |s|
    ensures page >= 1 && pageSize >= 0 ==> |r| <= pageSize
  {
    var start := PageStart(page, pageSize);
    assert page >= 1 && pageSize >= 0 ==> |Slice(s, start, start + pageSize)| <= pageSize by {
      if page >= 1 && pageSize >= 0 {
        PageStartNonNegative(page, pageSize);
        SliceNonNegative(s, start, start + pageSize);
      }
    }
    Slice(s, start, start + pageSize)
  }

  lemma PageStartNonNegative(page: int, pageSize: int)
    requires page >= 1 && pageSize >= 0
    ensures PageStart(page, pageSize) >= 0
  {
  }

  /** Page `page >= 1` is the window of `pageSize` items from its start
      index, clamped to the list: never longer than `pageSize`, and empty
      once the start index reaches the end. */
  lemma PageIsWindow<T>(s: seq<T>, page: int, pageSize: int)
    requires page >= 1 && pageSize >= 0
    ensures var st := PageStart(page, pageSize);
      && Paginate(s, page, pageSize) == s[Min(st, |s|)..Min(st + pageSize, |s|)]
      && |Paginate(s, page, pageSize)| <= pageSize
      && (st >= |s| ==> Paginate(s, page, pageSize) == [])
  {
    PageStartNonNegative(page, pageSize);
    var st := PageStart(page, pageSize);
    SliceNonNegative(s, st, st + pageSize);
  }

  /** A page number below 1 is not rejected: `slice` reads the negative start
      index from the end of the list, so page 0 is empty and page -1 shows
      the window two pages back from the end. */
  lemma NonPositivePages()
    ensures Paginate([10, 20, 30, 40, 50], 0, 2) == []
    ensures Paginate([10, 20, 30, 40, 50], -1, 2) == [20, 30]
  {
    assert PageStart(0, 2) == -2;
    assert PageStart(-1, 2) == -4;
  }

  /** Page 0 starts `pageSize` items before index 0 and ends at index 0, so
      it is empty for every list and every page size. */
  lemma PageZeroEmpty<T>(s: seq<T>, pageSize: int)
    ensures Paginate(s, 0, pageSize) == []
  {
  }

  /** Pages `1..k` concatenated in order. */
  function ConcatPages<T>(s: seq<T>, pageSize: int, k: nat): seq<T>
  {
    if k == 0 then [] else ConcatPages(s, pageSize, k - 1) + Paginate(s, k, pageSize)
  }

  /** The lengths of pages `1..k` summed. */
  function PageLengths<T>(s: seq<T>, pageSize: int, k: nat): int
  {
    if k == 0 then 0 else PageLengths(s, pageSize, k - 1) + |Paginate(s, k, pageSize)|
  }

  /** The number of pages of `n` items: `n / pageSize` rounded up. */
  function PageCount(n: nat, pageSize: int): nat
    requires pageSize >= 1
  {
    (n + pageSize - 1) / pageSize
  }

  /** Page `k + 1` starts where page `k` ends. */
  lemma PageStartStep(k: int, pageSize: int)
    ensures PageStart(k, pageSize) == (k - 1) * pageSize
    ensures PageStart(k, pageSize) + pageSize == k * pageSize
  {
    assert (k - 1) * pageSize + pageSize == k * pageSize;
  }

  /** Pages `1..k` concatenated are the first `k * pageSize` items, and their
      lengths add up to the length of that prefix. */
  lemma {:induction false} PagesCoverPrefix<T>(s: seq<T>, pageSize: int, k: nat)
    requires pageSize >= 1
    ensures ConcatPages(s, pageSize, k) == s[..Min(k * pageSize, |s|)]
    ensures PageLengths(s, pageSize, k) == Min(k * pageSize, |s|)
  {
    if k > 0 {
      PagesCoverPrefix(s, pageSize, k - 1);
      var st := PageStart(k, pageSize);
      PageStartStep(k, pageSize);
      PageStartNonNegative(k, pageSize);
      PageIsWindow(s, k, pageSize);
      var a := Min(st, |s|);
      var b := Min(st + pageSize, |s|);
      assert a == Min((k - 1) * pageSize, |s|) && b == Min(k * pageSize, |s|);
      PrefixThenWindow(s, a, b);
    }
  }

  lemma PrefixThenWindow<T>(s: seq<T>, a: int, b: int)
    requires 0 <= a <= b <= |s|
    ensures s[..a] + s[a..b] == s[..b]
  {
  }

  /** `PageCount` pages hold every item, and no fewer pages do. */
  lemma PageCountBounds(n: nat, pageSize: int)
    requires pageSize >= 1
    ensures PageCount(n, pageSize) * pageSize >= n
    ensures PageCount(n, pageSize) > 0 ==> (PageCount(n, pageSize) - 1) * pageSize < n
  {
    var q := PageCount(n, pageSize);
    var r := (n + pageSize - 1) % pageSize;
    assert q * pageSize + r == n + pageSize - 1;
    assert (q - 1) * pageSize == q * pageSize - pageSize;
  }

  lemma MulMonotone(a: int, b: int, c: int)
    requires a <= b && c >= 0
    ensures a * c <= b * c
  {
    assert b * c - a * c == (b - a) * c;
  }

  /** Pages up to `PageCount` start inside the list; later pages start at
      or after its end. */
  lemma PageStartAgainstCount(len: nat, pageSize: int, page: int)
    requires pageSize >= 1 && page >= 1
    ensures page <= PageCount(len, pageSize) ==> PageStart(page, pageSize) < len
    ensures page > PageCount(len, pageSize) ==> PageStart(page, pageSize) >= len
  {
    var n := PageCount(len, pageSize);
    PageCountBounds(len, pageSize);
    if page <= n {
      MulMonotone(page - 1, n - 1, pageSize);
    } else {
      MulMonotone(n, page - 1, pageSize);
    }
  }

  /** Every page up to `PageCount` holds at least one item. */
  lemma PageWithinCountNonEmpty<T>(s: seq<T>, pageSize: int, page: int)
    requires pageSize >= 1 && 1 <= page <= PageCount(|s|, pageSize)
    ensures Paginate(s, page, pageSize) != []
  {
    PageStartAgainstCount(|s|, pageSize, page);
    PageIsWindow(s, page, pageSize);
  }

  /** Every page after `PageCount` is empty. */
  lemma PageBeyondCountEmpty<T>(s: seq<T>, pageSize: int, page: int)
    requires pageSize >= 1 && page > PageCount(|s|, pageSize)
    ensures Paginate(s, page, pageSize) == []
  {
    PageStartAgainstCount(|s|, pageSize, page);
    PageIsWindow(s, page, pageSize);
  }

  /** The pages partition the list: pages `1..PageCount` concatenated give
      back the list, their lengths add up to its length, each of them holds
      at least one item and every later page is empty. */
  lemma PagesPartition<T>(s: seq<T>, pageSize: int)
    requires pageSize >= 1
    ensures ConcatPages(s, pageSize, PageCount(|s|, pageSize)) == s
    ensures PageLengths(s, pageSize, PageCount(|s|, pageSize)) == |s|
    ensures forall page :: 1 <= page <= PageCount(|s|, pageSize) ==> Paginate(s, page, pageSize) != []
    ensures forall page :: page > PageCount(|s|, pageSize) ==> Paginate(s, page, pageSize) == []
  {
    var n := PageCount(|s|, pageSize);
    PageCountBounds(|s|, pageSize);
    PagesCoverPrefix(s, pageSize, n);
    assert Min(n * pageSize, |s|) == |s|;
    assert s[..|s|] == s;
    forall page | 1 <= page <= n
      ensures Paginate(s, page, pageSize) != []
    {
      PageWithinCountNonEmpty(s, pageSize, page);
    }
    forall page | page > n
      ensures Paginate(s, page, pageSize) == []
    {
      PageBeyondCountEmpty(s, pageSize, page);
    }
  }
}
