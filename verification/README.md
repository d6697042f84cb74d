# Shopping cart and catalog query: a Dafny model

This project models the two pieces of sequential logic inside the store
front's React hooks:

- **the cart state machine of `useCart`.** The cart is an ordered sequence
  of lines. Each line is a snapshot of a product, plus a quantity and an
  `addedAt` stamp. `addToCart`, `removeFromCart`, `updateQuantity`,
  `incrementQuantity`, `decrementQuantity` and `clearCart` are modelled as
  the pure `prevCart -> newCart` functions the hook hands to `setCart`. The
  derived values are `totalItems`, `totalPrice`, `uniqueItems`, `isInCart`,
  `getCartItem` and the checkout summary of `getCartSummary`.
- **the catalog query of `useProducts`.** This covers the filter predicate
  (a case-insensitive substring search of name or description, and an exact
  category match) and pagination by `Array.prototype.slice`. It also covers
  the `total` count and the `(page, pageSize, searchTerm, categoryFilter)`
  record, with the three handlers that change it.

Files:

- `products.dfy`: the `Product` record and `Option`.
- `seqs.dfy`: `Keep`, which is `Array.prototype.filter`. It is
  characterised as an order-preserving subsequence of exactly the matching
  elements.
- `text.dfy`: `toLowerCase` and `includes`.
- `cart.dfy`: the cart lines, the observers and the six transitions.
- `cart_laws.dfy`: the exact effect of each transition and the rejection
  rules, and which invariants the transitions keep. Every transition keeps
  one line per id, with no further premise. Every transition on one id,
  that is all but `clearCart`, also leaves the lines of every other id in
  place. The quantity bound
  `1 <= quantity <= stock` is kept under premises: `addToCart` needs a
  positive quantity and a product stock no larger than the one recorded in
  the line it merges into.
- `cart_totals.dfy`: the totals, how each transition moves them, and
  `getCartSummary`.
- `product_query.dfy`: the filter, `slice`, pages, and proof that the pages
  partition the filtered list.
- `listing.dfy`: the listing state, the handlers, and the page and total
  they produce.

Each cart transition returns a `Step`: the new cart and an advisory
`Notice`. The notice stands for the toast notification the hook shows and
never decides the new cart. Money is exact `real` arithmetic. Quantities,
ids, stock, page and page size are integers. A missing product is `None`. A
falsy id is the id `0`.

Facts about the code that the model follows:

- `handleCategoryFilter` resets the page to 1 even when the category is
  unchanged (src/hooks/useProducts.js:55-58).
- `handleSearch` sets the term at once (src/hooks/useProducts.js:50-53).
  src/hooks/useDebounce.js defines a debounce hook, but `useProducts` does
  not use it, and src/pages/HomePage.jsx:32 calls `handleSearch` on every keystroke. The
  only delay is the 300 ms timer of src/hooks/useProducts.js:18-33, which
  each change restarts.
- A page number below 1 is not rejected: page 0 is always empty
  (`ProductQuery.PageZeroEmpty`), and page -1 reads a window counted back
  from the end of the list, because `slice` reads a negative index from the
  end (src/hooks/useProducts.js:26-27, `ProductQuery.NonPositivePages`).
- `useProducts` does no sorting, counts no categories and suggests no
  search terms. src/components/Product/ProductFilters.jsx:24-33 has sort
  plumbing, but nothing in `useProducts` reads it.

## Model

| member | source | states |
|---|---|---|
| `Text.Lower` | src/hooks/useProducts.js:20-21 | `toLowerCase` keeps the length and lower-cases each character in place; no capital A-Z survives and lower-case letters are kept |
| `Text.LowerIdempotent` | src/hooks/useProducts.js:20-21 | lower-casing an already lower-cased string changes nothing |
| `Text.Includes` | src/hooks/useProducts.js:20-21 | `includes` is true exactly when the needle occurs at some index of the haystack |
| `Text.IncludesEmpty` | src/hooks/useProducts.js:20-21 | every string includes the empty search term |
| `Cart.IsInCart` | src/hooks/useCart.jsx:36-38 | `isInCart(id)` holds iff some line carries that id (`some`) |
| `Cart.FirstIndex` | src/hooks/useCart.jsx:41-43 | the position `find` stops at: a line of the id with no earlier line of it, or the end when none exists |
| `Cart.GetCartItem` | src/hooks/useCart.jsx:41-43 | `getCartItem(id)` returns a line iff the id is in the cart; that line carries the id and is the first such line, the one `find` stops at |
| `Cart.MapId` | src/hooks/useCart.jsx:82-86 | `cart.map(...)` keeps the number of lines |
| `Cart.MapIdPointwise` | src/hooks/useCart.jsx:82-86 | `cart.map(item => item.id === id ? f(item) : item)` rewrites exactly the lines of the id, each in its place, and copies every other line |
| `Cart.AddToCart` | src/hooks/useCart.jsx:46-113 | a rejection leaves the cart unchanged; the invalid-product outcome happens iff the product is missing or its id is falsy; `Added` means the id was absent and exactly one line was appended; `Updated` means the id was present and the length is unchanged |
| `Cart.RemoveFromCart` | src/hooks/useCart.jsx:116-131 | no line of the id survives and every surviving line came from the cart; the removal notice is shown iff a line of the id existed; an absent id leaves the cart as it was |
| `Cart.UpdateQuantity` | src/hooks/useCart.jsx:134-156 | never lengthens the cart, keeps its length for quantities of at least 1, and is a no-op for an absent id |
| `Cart.IncrementQuantity` | src/hooks/useCart.jsx:169-174 | an absent id changes nothing and shows nothing |
| `Cart.DecrementQuantity` | src/hooks/useCart.jsx:177-182 | an absent id changes nothing and shows nothing; the cart never grows |
| `Cart.ClearCart` | src/hooks/useCart.jsx:159-166 | the result is the empty cart, with the cleared notice |
| `CartLaws.FindUnique` | src/hooks/useCart.jsx:41-43 | with unique ids, `find` on the id of the line at `k` returns that very line |
| `CartLaws.MapIdSplice` | src/hooks/useCart.jsx:82-86 | with unique ids, mapping over one id's lines replaces just the line at its position |
| `CartLaws.KeepSplice` | src/hooks/useCart.jsx:119 | with unique ids, `filter(item => item.id !== id)` deletes exactly the line at the id's position |
| `CartLaws.AddRejectsInvalidProduct` | src/hooks/useCart.jsx:47-54 | a missing product, or one with a falsy id, leaves the cart unchanged and reports invalid data, whatever the quantity |
| `CartLaws.AddRejectsOverStock` | src/hooks/useCart.jsx:56-63 | a quantity above the product's stock leaves the cart unchanged, whether or not the id is already in the cart |
| `CartLaws.AddMergeRejectedInFull` | src/hooks/useCart.jsx:70-80 | when the existing quantity plus the request exceeds the product's stock, the whole request is refused and nothing is clamped |
| `CartLaws.AddMergeMaps` | src/hooks/useCart.jsx:68-95 | a merge within stock maps the summed quantity over the id's lines, with the update notice |
| `CartLaws.AddMergeSumsQuantity` | src/hooks/useCart.jsx:68-95 | a merge within stock sets only that line's quantity to the sum; every other line, the order and the line's own snapshot are kept |
| `CartLaws.AddAppendsNewLine` | src/hooks/useCart.jsx:97-101 | a new id appends one line at the end with the requested quantity and the product's stock, and the old lines form the prefix |
| `CartLaws.AddMergePreservesValid` | src/hooks/useCart.jsx:68-95 | a merge keeps one line per id and every quantity within its recorded stock, when the product's stock is no more than the line's |
| `CartLaws.AddAppendPreservesValid` | src/hooks/useCart.jsx:97-101 | appending a new id with a quantity from 1 to its stock keeps the cart valid |
| `CartLaws.AddPreservesValid` | src/hooks/useCart.jsx:46-113 | `addToCart` with a positive quantity preserves the cart invariants, given that the product's stock does not exceed the stock recorded for its id |
| `CartLaws.AddStaleSnapshotExceedsStock` | src/hooks/useCart.jsx:68-86 | the merge checks the incoming product's stock but keeps the line's old snapshot, so a line can end above its recorded stock |
| `CartLaws.AddAcceptsZeroQuantity` | src/hooks/useCart.jsx:56-101 | only `stock < quantity` is checked, so a quantity of 0 appends a line holding no units |
| `CartLaws.RemoveDeletesLine` | src/hooks/useCart.jsx:116-131 | with unique ids, removing the id at `k` deletes exactly that line, keeps the others in order, and reports the removal |
| `CartLaws.RemovePreservesValid` | src/hooks/useCart.jsx:116-131 | removal preserves one line per id and quantities within stock |
| `CartLaws.UpdateBelowOneRemoves` | src/hooks/useCart.jsx:135-138 | a quantity below 1 is exactly `removeFromCart(id)` |
| `CartLaws.UpdateOverStockUnchanged` | src/hooks/useCart.jsx:141-150 | a quantity above the line's own recorded stock leaves the cart unchanged and warns |
| `CartLaws.UpdateSetsQuantity` | src/hooks/useCart.jsx:140-155 | a quantity from 1 to the line's stock becomes that line's quantity, and nothing else changes |
| `CartLaws.UpdatePreservesValid` | src/hooks/useCart.jsx:134-156 | `updateQuantity` with any quantity preserves the cart invariants |
| `CartLaws.IncrementIsUpdate` | src/hooks/useCart.jsx:169-174 | incrementing the line at `k` is `updateQuantity` with its quantity plus one |
| `CartLaws.DecrementIsUpdate` | src/hooks/useCart.jsx:177-182 | decrementing the line at `k` is `updateQuantity` with its quantity minus one |
| `CartLaws.DecrementOfOneRemoves` | src/hooks/useCart.jsx:177-182 | decrementing a line of quantity 1 deletes it and reports a removal |
| `CartLaws.IncrementPreservesValid` | src/hooks/useCart.jsx:169-174 | incrementing preserves the cart invariants |
| `CartLaws.DecrementPreservesValid` | src/hooks/useCart.jsx:177-182 | decrementing preserves the cart invariants |
| `CartLaws.MapIdKeepsIds` | src/hooks/useCart.jsx:82-86 | mapping over one id's lines keeps the id of every line in its place |
| `CartLaws.AddPreservesUniqueIds` | src/hooks/useCart.jsx:46-113 | `addToCart`, with any product and quantity, keeps one line per id |
| `CartLaws.RemovePreservesUniqueIds` | src/hooks/useCart.jsx:116-131 | removal keeps one line per id |
| `CartLaws.UpdatePreservesUniqueIds` | src/hooks/useCart.jsx:134-156 | `updateQuantity`, with any quantity, keeps one line per id |
| `CartLaws.IncrementPreservesUniqueIds` | src/hooks/useCart.jsx:169-174 | incrementing keeps one line per id |
| `CartLaws.DecrementPreservesUniqueIds` | src/hooks/useCart.jsx:177-182 | decrementing keeps one line per id |
| `CartLaws.MapIdKeepsOthers` | src/hooks/useCart.jsx:82-86 | mapping over one id's lines leaves the lines of every other id in the same order |
| `CartLaws.RemoveKeepsOtherLines` | src/hooks/useCart.jsx:119 | removing an id leaves every other id's lines, and their order, as they were |
| `CartLaws.UpdateKeepsOtherLines` | src/hooks/useCart.jsx:134-156 | updating an id, to any quantity, leaves every other id's lines as they were |
| `CartLaws.IncrementKeepsOtherLines` | src/hooks/useCart.jsx:169-174 | incrementing an id leaves every other id's lines as they were |
| `CartLaws.DecrementKeepsOtherLines` | src/hooks/useCart.jsx:177-182 | decrementing an id leaves every other id's lines as they were |
| `CartLaws.AddKeepsOtherLines` | src/hooks/useCart.jsx:67-110 | adding a product, whatever the outcome, leaves every other id's lines as they were |
| `CartTotals.TotalItems` | src/hooks/useCart.jsx:24 | `totalItems`, the sum of the quantities; no contract of its own, `CartTotals.TotalsAreReductions` ties it to the `reduce` |
| `CartTotals.TotalPrice` | src/hooks/useCart.jsx:25 | `totalPrice`, the sum of unit price times quantity; no contract of its own, `CartTotals.TotalsAreReductions` ties it to the `reduce` |
| `CartTotals.TotalsAreReductions` | src/hooks/useCart.jsx:24-25 | the two `reduce` calls, folding from the first line to the last, compute `TotalItems` and `TotalPrice` |
| `CartTotals.TotalItemsAtLeastLines` | src/hooks/useCart.jsx:23-33 | when every quantity is at least 1, `totalItems` is at least `uniqueItems` |
| `CartTotals.TotalPriceNonNegative` | src/hooks/useCart.jsx:25 | non-negative prices and quantities give a non-negative `totalPrice` |
| `CartTotals.LinePriceDifference` | src/hooks/useCart.jsx:25 | changing a line's quantity changes its price term by unit price times the change |
| `CartTotals.SpliceDelta` | src/hooks/useCart.jsx:24-25 | changing one line's quantity by `d` moves `totalItems` by `d` and `totalPrice` by `d` units at that line's price |
| `CartTotals.TotalsConcat` | src/hooks/useCart.jsx:24-25 | both `reduce` sums are additive over concatenation |
| `CartTotals.TotalsOfSplice` | src/hooks/useCart.jsx:24-25 | replacing one line moves both sums by the difference between the new and old line |
| `CartTotals.TotalsOfDelete` | src/hooks/useCart.jsx:24-25 | deleting one line subtracts its quantity and its price term |
| `CartTotals.AddNewLineTotals` | src/hooks/useCart.jsx:97-101 | appending a new id raises `totalItems` by the quantity and `totalPrice` by that many units of the product |
| `CartTotals.AddMergeTotals` | src/hooks/useCart.jsx:82-86 | a merge raises `totalItems` by the requested quantity, and `totalPrice` by that many units at the line's snapshot unit price, not the incoming product's |
| `CartTotals.RemoveChangesTotals` | src/hooks/useCart.jsx:116-131 | removing a line takes exactly its quantity and price out of the totals |
| `CartTotals.UpdateChangesTotals` | src/hooks/useCart.jsx:140-155 | setting a quantity within stock moves the totals by the change in that line alone |
| `CartTotals.GetCartSummary` | src/hooks/useCart.jsx:185-197 | the summary lists the cart and its totals; `isEmpty` iff there are no lines; shipping is free iff the subtotal is strictly above 50, and otherwise 5.99; tax is a tenth of the subtotal; the total is subtotal plus tax plus shipping |
| `CartTotals.EmptyIffNoItems` | src/hooks/useCart.jsx:185-197 | when every quantity is at least 1, the summary is empty iff it holds no items |
| `CartTotals.ClearedSummary` | src/hooks/useCart.jsx:159-197 | after `clearCart` the summary is empty, with zero subtotal and tax, but shipping is still charged, so the total is 5.99 |
| `CartTotals.ShippingBoundary` | src/hooks/useCart.jsx:194-195 | a subtotal of exactly 50.00 pays shipping and 50.01 does not, so the cheaper cart costs more in total |
| `Seqs.Keep` | src/hooks/useProducts.js:19-24 | `filter` never returns more elements than it is given |
| `Seqs.PositionsExact` | src/hooks/useProducts.js:19-24 | an index is among the positions `filter` reads iff it is in range and its element satisfies the predicate |
| `Seqs.KeepIsOrderedSubsequence` | src/hooks/useProducts.js:19-24 | `filter` returns the input read at an ascending list of positions, which are exactly the matching ones |
| `Seqs.KeepMembers` | src/hooks/useProducts.js:19-24 | an element survives `filter` iff it is in the input and satisfies the predicate |
| `ProductQuery.MatchesSearch` | src/hooks/useProducts.js:20-21 | the empty search term matches every product |
| `ProductQuery.MatchesCategory` | src/hooks/useProducts.js:22 | the empty category admits every product, and every product passes its own category |
| `ProductQuery.Matches` | src/hooks/useProducts.js:19-24 | with an empty search term, a product matches iff it is in the category |
| `ProductQuery.FilterProducts` | src/hooks/useProducts.js:19-24 | the filtered list is no longer than the catalog, and each listed product is in the catalog and matches |
| `ProductQuery.FilterIsOrderedSubsequence` | src/hooks/useProducts.js:19-24 | the filtered catalog is the catalog read at strictly ascending indices, and an index is read iff its product matches |
| `ProductQuery.FilterMembers` | src/hooks/useProducts.js:19-24 | a product is listed iff it is in the catalog and matches the term and the category |
| `ProductQuery.EmptyQueryIsIdentity` | src/hooks/useProducts.js:19-24 | with an empty term and an empty category, the filter returns the whole catalog |
| `ProductQuery.MatchIsCaseInsensitive` | src/hooks/useProducts.js:20-21 | matching gives the same answer when the term, or the product's name and description, are lower-cased first |
| `ProductQuery.SearchIsCaseInsensitive` | src/hooks/useProducts.js:19-24 | searching for a term and for its lower-cased form give the same list |
| `ProductQuery.CategoryNarrows` | src/hooks/useProducts.js:22 | choosing a category only removes products from the no-category result |
| `ProductQuery.SearchFindsMixedCase` | src/hooks/useProducts.js:20-23 | "mUG" finds "Blue Mug" in its category, and not in another category |
| `ProductQuery.Slice` | src/hooks/useProducts.js:27 | `slice` is no longer than its input; for `0 <= start <= end <= length` it is exactly that window; it is empty from a start at or past the end, and when `end <= start` with both indices of the same sign |
| `ProductQuery.Paginate` | src/hooks/useProducts.js:26-27 | a page is never longer than the list, and for a page of at least 1 and a non-negative page size never longer than the page size |
| `ProductQuery.SliceNonNegative` | src/hooks/useProducts.js:27 | for non-negative arguments, `slice` is the window between them cut off at the end, and empty when `end <= start` |
| `ProductQuery.PageIsWindow` | src/hooks/useProducts.js:26-27 | page `page >= 1` is the `pageSize` items from `(page - 1) * pageSize`, clamped to the list; it is never longer than `pageSize`, and empty once the start passes the end |
| `ProductQuery.NonPositivePages` | src/hooks/useProducts.js:26-27 | page 0 is empty, while page -1 reads a window from the end of the list |
| `ProductQuery.PageZeroEmpty` | src/hooks/useProducts.js:26-27 | page 0 is empty for every list and every page size |
| `ProductQuery.PagesCoverPrefix` | src/hooks/useProducts.js:26-27 | pages `1..k` concatenated are the first `k * pageSize` items, and their lengths add up accordingly |
| `ProductQuery.PageCountBounds` | src/hooks/useProducts.js:26-27 | `ceil(n / pageSize)` pages hold all `n` items, and one page fewer does not |
| `ProductQuery.PageWithinCountNonEmpty` | src/hooks/useProducts.js:26-27 | each page from 1 to the page count holds at least one item |
| `ProductQuery.PageBeyondCountEmpty` | src/hooks/useProducts.js:26-27 | each page after the page count is empty |
| `ProductQuery.PagesPartition` | src/hooks/useProducts.js:26-27 | the pages partition the list: pages `1..PageCount` concatenated give it back, their lengths sum to its length, each is non-empty and later pages are empty |
| `ProductListing.HandlePageChange` | src/hooks/useProducts.js:45-48 | sets the page and the page size and keeps the search term and category |
| `ProductListing.HandleSearch` | src/hooks/useProducts.js:50-53 | sets the search term and page 1, and keeps the page size and the category |
| `ProductListing.HandleCategoryFilter` | src/hooks/useProducts.js:55-58 | sets the category and page 1, even for the current category, and keeps the page size and the search term |
| `ProductListing.Visible` | src/hooks/useProducts.js:26-29 | for a page of at least 1, the products shown never exceed the page size |
| `ProductListing.Total` | src/hooks/useProducts.js:36-43 | `total` never exceeds the catalog size |
| `ProductListing.VisibleMatch` | src/hooks/useProducts.js:19-29 | every product shown is in the catalog and matches the state's term and category |
| `ProductListing.TotalDependsOnlyOnQuery` | src/hooks/useProducts.js:36-43 | `total` is the length of the filtered list and depends on the term and category only, never on page or page size |
| `ProductListing.PageChangeKeepsQuery` | src/hooks/useProducts.js:45-48 | `handlePageChange` sets page and page size, keeps `total`, and shows the requested window of the same filtered list |
| `ProductListing.SearchShowsFirstPage` | src/hooks/useProducts.js:50-53 | `handleSearch` returns to page 1 and keeps the page size, showing the first `pageSize` matches of the new term; `total` counts those matches |
| `ProductListing.CategoryShowsFirstPage` | src/hooks/useProducts.js:55-58 | `handleCategoryFilter` returns to page 1 and keeps the page size, showing the first `pageSize` matches in the new category |
| `ProductListing.InitialShowsFirstTwenty` | src/hooks/useProducts.js:8-11 | the initial state shows the first 20 products of the catalog, and `total` counts all of them |
| `ProductListing.PagesSumToTotal` | src/hooks/useProducts.js:26-43 | with a positive page size, the pages from 1 to the page count show every match exactly once, in order, and their lengths sum to `total` |

## Left out

- Persistence to `localStorage` and JSON (de)serialisation of the cart
  (src/hooks/useCart.jsx:11-20). This is browser I/O through helpers that are
  not part of this model.
- The React plumbing: context and provider, `useState`/`useMemo`/
  `useCallback`, and the `isLoading` flags. The model has one cart value and
  pure transitions. `incrementQuantity` and `decrementQuantity` read the
  quantity from the rendered cart and update `prevCart`. The model uses one
  cart for both, so no update is assumed to happen in between.
- The text of the antd notifications. It is reduced to the `Notice` tag.
  `removeFromCart`'s `showNotification` flag only suppresses the toast, so it
  is not modelled.
- `addToCart`'s default `quantity = 1`. The model always takes the quantity
  explicitly.
- The `addedAt` timestamp (`new Date().toISOString()`). It is an opaque
  string parameter.
- The 300 ms simulated latency and its timer (src/hooks/useProducts.js:14-34),
  which each change of the query restarts. The model computes the page at
  once. The `products` list
  is also empty before the first timer fires; that is not modelled.
- The product generator, which uses random data and a fixed size of 10 000.
  The catalog is any sequence of products.
- IEEE-754 rounding. Money is exact `real` arithmetic, so
  `CartTotals.ShippingBoundary` reads the boundary exactly.
- JavaScript values outside the model's types: fractional or `NaN`
  quantities, pages or stock, and ids other than integers.
- Text.Lower: models `toLowerCase` for the ASCII letters A-Z only. Other
  letters and locale-specific mappings are left unchanged.
- CartLaws.AddPreservesValid: assumes a positive quantity and a product
  whose stock is no more than the stock recorded in its existing line. The
  source enforces neither. `CartLaws.AddAcceptsZeroQuantity` and
  `CartLaws.AddStaleSnapshotExceedsStock` show the invariant failing without
  these assumptions.
- ProductQuery.PageIsWindow: states the window for page numbers of at least
  1 only. Smaller page numbers are covered by the concrete cases of
  `ProductQuery.NonPositivePages`.
- ProductListing.PagesSumToTotal: holds for a positive page size only. With
  a page size of 0 every page is empty.
