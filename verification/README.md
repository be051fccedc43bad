# Motorbike shop: cart and catalogue logic in Dafny

This project models the client-side logic of a small online motorbike shop. The
logic is plain list and string manipulation that sits inside React components.
The Dafny modules are:

- **Cart** (`cart.dfy`). This is the cart kept by `CartContext.js`: a sequence
  of lines `{id, brand, model, price, image_url, quantity}` with four
  transitions (`addToCart`, `removeFromCart`, `updateQuantity`, `clearCart`)
  and two aggregates (`calculateTotal`, and the `cartCount` reduction). Each
  transition is a pure function from the previous cart to the next. The model
  proves the following:
  - the invariant (distinct ids, every quantity at least 1) survives any
    sequence of transitions;
  - each transition leaves the other lines alone;
  - each transition changes the total and the count by the expected amount;
  - the two reductions compute Σ price×quantity and Σ quantity.
- **BrandList, Filters, Pagination, Catalogue** (`catalogue.dfy`). These cover
  the catalogue page `MotorbikeList.js`:
  - the sorted, de-duplicated brand list;
  - the search, brand and price-range filter pipeline, including how the
    price-option strings are split and read with `Number`;
  - nine-per-page slicing and the page count;
  - the effect that recomputes the list and goes back to page 1.
- **Featured** (`home.dfy`). This is the home page's choice of one motorbike
  per brand from a fixed list of six brands (`Home.js`).
- **OrderStatus** (`orders.dfy`). This is `getStatusColor` of the order
  history page (`OrderHistory.js`).
- **Wrappers, Bikes, Seqs, Text** (`seqs.dfy`, `text.dfy`) are the building blocks:
  - `Option` for `null`, and the motorbike record the catalogue endpoint returns;
  - `Array.prototype.filter` and `map`, with order-preserving subsequences;
  - ASCII `toLowerCase`, `includes` and `split`;
  - the code-unit order that `sort()` uses when no comparator is given.

Prices and quantities are integers. JavaScript `null`/`undefined` become
`Option`. Where a JavaScript quirk affects the result, it is written out:
- `slice` with negative indices;
- `Number("")` being 0;
- 0, `NaN` and `undefined` being falsy.

The order handler in `backend/src/server.js` stores the client's
`total_amount` and per-line `price` and runs `stock = stock - quantity`
unconditionally; its atomicity comes entirely from PostgreSQL
`BEGIN`/`COMMIT`/`ROLLBACK`. That handler is left out (see below), and no stock
or total guarantee is claimed for it.

## Model

| member | source | states |
|---|---|---|
| `Cart.FindIndex` | frontend/src/context/CartContext.js:28 | Returns the first position whose id matches, and -1 exactly when no line has the id. |
| `Cart.AddToCart` | frontend/src/context/CartContext.js:25-46 | Suppose the id is new. Then exactly one line is appended, copying id, brand, model, price and image and with quantity 1, and every earlier line is unchanged. Suppose instead the id is present. Then the first line with that id gains 1 in quantity and nothing else changes, including the length. |
| `Cart.RemoveFromCart` | frontend/src/context/CartContext.js:49-51 | No line with the id remains. A line is kept iff it was in the cart with another id. The result is an order-preserving subsequence. Removing an absent id changes nothing. |
| `Cart.UpdateQuantity` | frontend/src/context/CartContext.js:53-61 | The length and every id are kept, and non-matching lines are unchanged. A matching line changes only in quantity, which becomes max(1, quantity + change). |
| `Cart.ClearCart` | frontend/src/context/CartContext.js:63-65 | The cart becomes empty. It is valid, with total 0 and count 0. |
| `Cart.CalculateTotal` | frontend/src/context/CartContext.js:67-72 | The left-to-right `reduce` returns Σ price × quantity over the lines. |
| `Cart.CartCount` | frontend/src/context/CartContext.js:20-23 | The `reduce` that sets `cartCount` returns Σ quantity over the lines. |
| `Cart.AddToCartValid` | frontend/src/context/CartContext.js:28-44 | `addToCart` keeps ids distinct and quantities at least 1. |
| `Cart.RemoveFromCartValid` | frontend/src/context/CartContext.js:49-51 | `removeFromCart` keeps ids distinct and quantities at least 1. |
| `Cart.UpdateQuantityValid` | frontend/src/context/CartContext.js:53-61 | `updateQuantity` keeps ids distinct and quantities at least 1. |
| `Cart.ApplyAllValid` | frontend/src/context/CartContext.js:25-65 | From a valid cart, any sequence of the four transitions yields a valid cart. |
| `Cart.AddToCartAggregates` | frontend/src/context/CartContext.js:25-46 | Adding raises the count by 1. It raises the total by the price of the increased line, or by the motorbike's price for a new line. |
| `Cart.RemoveFromCartOne` | frontend/src/context/CartContext.js:49-51 | When ids are distinct, removing the id of line k removes exactly line k. |
| `Cart.RemoveFromCartAggregates` | frontend/src/context/CartContext.js:49-51 | When ids are distinct, removal shortens the cart by one. It lowers the total by that line's price × quantity and the count by its quantity. |
| `Cart.UpdateQuantityAggregates` | frontend/src/context/CartContext.js:53-61 | When ids are distinct, the count moves from q to max(1, q + change), and the total moves by the price times the same difference. |
| `Cart.UpdateQuantityAbsent` | frontend/src/context/CartContext.js:53-61 | Updating an id the cart does not hold changes nothing. |
| `Cart.RemoveUndoesAdd` | frontend/src/context/CartContext.js:35-51 | Removing a motorbike that was just added as a new line restores the original cart. |
| `Cart.AddToCartIsIncrement` | frontend/src/context/CartContext.js:28-61 | In a valid cart that holds the motorbike, `addToCart` equals `updateQuantity(id, 1)`. |
| `Text.Lower` | frontend/src/pages/MotorbikeList.js:92-93 | Lower-casing keeps the length, maps each character by ASCII lower-casing, and leaves no upper-case ASCII letter. |
| `Text.IncludesIsOccurs` | frontend/src/pages/MotorbikeList.js:92-93 | `includes` answers true exactly when the term occurs as a contiguous block. |
| `Text.LessTransitive` | frontend/src/pages/MotorbikeList.js:63 | The default `sort` order on strings is transitive. |
| `Text.LessTotal` | frontend/src/pages/MotorbikeList.js:63 | The default `sort` order puts any two different strings one before the other. |
| `Text.Split` | frontend/src/pages/MotorbikeList.js:104 | `split('-')` yields at least one piece, and no piece contains the separator. |
| `Text.JoinSplit` | frontend/src/pages/MotorbikeList.js:104 | Joining the pieces of `split` with the separator gives back the string. |
| `Text.SplitTwo` | frontend/src/pages/MotorbikeList.js:104 | Splitting `a-b`, where neither part has a dash, yields exactly `[a, b]`. |
| `BrandList.Dedup` | frontend/src/pages/MotorbikeList.js:63 | `[...new Set(s)]` has no repetitions and the same elements as `s`. |
| `BrandList.Insert` | frontend/src/pages/MotorbikeList.js:63 | Inserting a new string into a strictly ascending list keeps it strictly ascending and adds exactly that string. |
| `BrandList.Sort` | frontend/src/pages/MotorbikeList.js:63 | Sorting distinct strings gives a strictly ascending permutation. |
| `BrandList.SortedUnique` | frontend/src/pages/MotorbikeList.js:63 | Two strictly ascending lists with the same elements are equal, so every correct sort yields the same brand list. |
| `BrandList.UniqueBrands` | frontend/src/pages/MotorbikeList.js:63 | The brand list is strictly ascending, so it has no duplicates. It holds exactly the brands that occur in the data. |
| `BrandList.UniqueBrandsCharacterised` | frontend/src/pages/MotorbikeList.js:63 | The brand list is the unique strictly ascending list of the data's brands. |
| `Filters.MatchesSearchMeaning` | frontend/src/pages/MotorbikeList.js:90-94 | A motorbike matches iff the lower-cased term occurs in its lower-cased brand or lower-cased model. |
| `Filters.SearchFilterSpec` | frontend/src/pages/MotorbikeList.js:89-95 | With a non-empty term, a motorbike is kept iff it matches. An empty term keeps the list as it is. |
| `Filters.BrandFilterSpec` | frontend/src/pages/MotorbikeList.js:98-100 | An empty selection keeps the list as it is. Otherwise, a motorbike is kept iff its brand is selected. |
| `Filters.BoundedRange` | frontend/src/pages/MotorbikeList.js:103-107 | For an option `"min-max"` of digit strings with max ≠ 0, a price is kept iff min ≤ price ≤ max. |
| `Filters.OpenRange` | frontend/src/pages/MotorbikeList.js:103-107 | For an option `"min-"`, the empty upper part reads as the falsy 0, so a price is kept iff min ≤ price. |
| `Filters.PriceRangesMeaning` | frontend/src/pages/MotorbikeList.js:32-40 | States what each of the seven menu options keeps. `all` keeps everything. `0-5000` … `20000-30000` keep closed intervals. `30000-` keeps every price from 30000 up. |
| `Filters.PriceFilterSpec` | frontend/src/pages/MotorbikeList.js:103-108 | A motorbike is kept iff the option keeps its price. `"all"` keeps the list as it is. |
| `Filters.ApplyFiltersIsFilter` | frontend/src/pages/MotorbikeList.js:86-108 | Search, then brands, then price equals one filter by the conjunction of the three conditions. |
| `Filters.ApplyFiltersSpec` | frontend/src/pages/MotorbikeList.js:86-110 | The filtered list is an order-preserving subsequence of the full list. It holds exactly the motorbikes that pass all three conditions, each as often as in the full list. |
| `Pagination.SliceMeaning` | frontend/src/pages/MotorbikeList.js:117 | For bounds 0 ≤ start ≤ end, `slice` gives the elements between them clipped to the length, and nothing when end ≤ start. A start of -k, with 0 < k ≤ length and the end at the length, gives the last k elements; a start before the front starts at the front. |
| `Pagination.CurrentPage` | frontend/src/pages/MotorbikeList.js:115-117 | No page shows more than 9 motorbikes. For page p ≥ 1, the page is elements [(p-1)·9, p·9) clipped to the length. |
| `Pagination.PageCount` | frontend/src/pages/MotorbikeList.js:118 | The page count is the least k with 9k ≥ n, that is, ceil(n/9). |
| `Pagination.PagesNonEmpty` | frontend/src/pages/MotorbikeList.js:114-118 | For p ≥ 1, page p is non-empty iff p ≤ pageCount. |
| `Pagination.PagesUpToPrefix` | frontend/src/pages/MotorbikeList.js:115-117 | Pages 1..k concatenated give the first min(9k, n) motorbikes. |
| `Pagination.PagesCover` | frontend/src/pages/MotorbikeList.js:114-118 | Pages 1..pageCount concatenated reproduce the filtered list. |
| `Catalogue.Refilter` | frontend/src/pages/MotorbikeList.js:85-112 | Changing a control recomputes the list and resets the page to 1. The recomputed list is an order-preserving subsequence of the motorbikes, keeping exactly those that pass the filters, each as often as in the motorbikes. The first page then shows its first min(9, n) motorbikes. |
| `Catalogue.LoadedIsRefiltered` | frontend/src/pages/MotorbikeList.js:72-73 | With the controls at their defaults, the filter effect leaves the fetched list and page 1 as the fetch set them. |
| `Catalogue.SetSearchTerm` | frontend/src/pages/MotorbikeList.js:162 | Typing a search term sets that term, keeps the other controls, goes back to page 1, and recomputes the list as an order-preserving subsequence of the motorbikes holding exactly those that pass the filters, each as often as in the motorbikes, with the new term. |
| `Catalogue.SetSelectedBrands` | frontend/src/pages/MotorbikeList.js:185 | Setting the brand selection (the clear button sets it to none) keeps the other controls, goes back to page 1, and recomputes the list as an order-preserving subsequence of the motorbikes holding exactly those that pass the filters, each as often as in the motorbikes, with the new selection. |
| `Catalogue.BrandChange` | frontend/src/pages/MotorbikeList.js:125-132 | A list value becomes the selection as it is. A string value becomes its comma-separated pieces, none holding a comma, that join back to the string. In both cases the motorbikes, the search term and the price option are kept, and the list is refiltered for the new selection with the page back to 1. |
| `Catalogue.BrandChangeSingle` | frontend/src/pages/MotorbikeList.js:130 | A string naming one brand, without a comma, selects exactly that brand. |
| `Catalogue.SetPriceRange` | frontend/src/pages/MotorbikeList.js:218 | Choosing a price option sets it, keeps the other controls, goes back to page 1, and recomputes the list as an order-preserving subsequence of the motorbikes holding exactly those that pass the filters, each as often as in the motorbikes, with the new option. |
| `Catalogue.ChangePage` | frontend/src/pages/MotorbikeList.js:120-123 | Changing the page keeps the filtered list and every control, and the page becomes p. For page p ≥ 1 the page then shows elements [(p-1)·9, p·9) of the filtered list, clipped to its length. |
| `Catalogue.ControlChangeForgetsPage` | frontend/src/pages/MotorbikeList.js:111 | After any control change, the page the user had moved to makes no difference: the state is the same as if they had not paged. |
| `Catalogue.ControlChangeIdempotent` | frontend/src/pages/MotorbikeList.js:85-112 | Setting the search term twice to the same value gives the same state as setting it once. |
| `Featured.FirstOfBrand` | frontend/src/pages/Home.js:31-32 | Returns nothing iff the data has no motorbike of the brand. Otherwise it returns the first motorbike of that brand in the data. |
| `Featured.FeaturedFor` | frontend/src/pages/Home.js:30-33 | Returns no more motorbikes than there are list entries. Each is from the data, has a listed brand, and is the first motorbike of its brand in the data. |
| `Featured.FeaturedOrder` | frontend/src/pages/Home.js:29-33 | The featured motorbikes' brands follow the order of the brand list. |
| `Featured.FeaturedCoversBrands` | frontend/src/pages/Home.js:30-33 | A listed brand is featured iff the data has a motorbike of that brand. |
| `Featured.FeaturedHasBrand` | frontend/src/pages/Home.js:31-32 | Every featured motorbike's brand occurs in the data. |
| `Featured.FeaturedDistinctBrands` | frontend/src/pages/Home.js:29-33 | With distinct listed brands, no brand is featured twice. |
| `Featured.FeaturedBrandsDistinct` | frontend/src/pages/Home.js:29 | The six listed brands are distinct. |
| `Featured.FeaturedBikesShape` | frontend/src/pages/Home.js:29-33 | The home page shows at most 6 motorbikes and at most one per brand. They come in the order Honda, Yamaha, Kawasaki, Ducati, BMW, Harley Davidson, and each is from the data with a listed brand. |
| `Featured.FeaturedBikesCover` | frontend/src/pages/Home.js:29-33 | Each listed brand with a motorbike is shown by its first motorbike in the data. A listed brand without one contributes nothing. |
| `OrderStatus.StatusColor` | frontend/src/pages/OrderHistory.js:74-85 | The colour is `warning` iff the lower-cased status is "pending", `success` iff "completed", `error` iff "cancelled", and `default` otherwise, so the function is total. |
| `OrderStatus.StatusColorIgnoresCase` | frontend/src/pages/OrderHistory.js:75 | Statuses that differ only in case get the same colour. |
| `OrderStatus.StatusColorOfLower` | frontend/src/pages/OrderHistory.js:75 | A status and its lower-case form get the same colour. |
| `OrderStatus.PendingIsWarning` | frontend/src/pages/OrderHistory.js:75-77 | "pending" and "PENDING" both map to "warning". |
| `OrderStatus.CompletedAndCancelled` | frontend/src/pages/OrderHistory.js:78-81 | "completed" maps to "success" and "cancelled" maps to "error". |
| `OrderStatus.OtherStatus` | frontend/src/pages/OrderHistory.js:82-83 | Any other status maps to "default". |

## Left out

- backend/src/server.js is left out. The order handler and the catalogue and order-history endpoints are Express routes over `pg` queries. Their atomicity is PostgreSQL's. The handler trusts the client's total and prices and decrements stock unconditionally, so the code promises neither non-negative stock nor a server-computed total.
- backend/src/docs-server.js and backend/src/swagger.js are left out because they only configure the API documentation.
- App.js, Navbar.js, MotorbikeDetail.js and Cart.js are left out because they do rendering, routing and `fetch` calls. The cart logic they use is in `CartContext.js`.
- Persisting the cart in `localStorage` and the JSON parse and stringify (CartContext.js lines 10-23, OrderHistory.js lines 61-62) are left out because they are browser I/O. The model starts from the empty cart that `useState([])` gives.
- `addToCart` increments the quantity on an object shared with the previous state (CartContext.js line 33). The model is pure, so that aliasing is not reproduced, and neither is a double run of the updater in React's development mode.
- Prices and quantities are integers in the model. Floating-point prices, `toLocaleString` formatting and the `parseInt`/`NaN` path of the quantity field in Cart.js are not modelled.
- Lower-casing covers ASCII letters only. `toLowerCase` on other scripts (Unicode case folding) is not modelled.
- Strings are compared by Dafny characters. This matches `sort`'s UTF-16 code-unit order except for characters outside the Basic Multilingual Plane.
- `Number` is modelled for strings of decimal digits only, with the empty string giving 0. Every other string gives `NaN`. The option values are fixed literals of that form, so whitespace, signs, decimals, exponents and hexadecimal are not modelled.
- Rewriting image URLs to the backend host (MotorbikeList.js lines 66-70) is left out because it is string concatenation with an environment setting. The model's motorbikes carry the image as fetched.
- Loading and error flags, scrolling to the top, and the `fetch` calls themselves are left out as UI state and network I/O.
- `Featured.FeaturedFor`'s own contract says only what each featured motorbike is. Three further facts are stated by separate lemmas. That a brand with motorbikes is always featured is stated by `Featured.FeaturedCoversBrands`. The order, and at most one motorbike per list entry, are stated by the subsequence in `Featured.FeaturedOrder`. At most one per brand holds only for a list without repeated brands (`Featured.FeaturedDistinctBrands`); a list that repeats a brand shows that brand's motorbike once per entry.
