# Cart store of the embroidered-card storefront

This project models the shopping cart of a single-page storefront for
handmade embroidered greeting cards, and proves properties of it in Dafny.
The page keeps the cart in one session state cell. The cart is an ordered
list of line items. A line item is a catalog product (id, name, price,
image, description) plus a quantity. Three transitions build a new cart
from the old one: add a product, remove a product id, and change a row's
quantity by a signed delta. Two folds derive the total price and the item
count. The checkout confirmation empties the cart, and the page offers it
only while the cart has rows.

Layout:

- `wrappers.dfy`, module `Wrappers`: the `Option` that `find` returns.
- `items.dfy`, module `Items`: `Product`, `CartItem` (the product's fields spread into a new record, plus `quantity`), and the cart invariant `ValidCart` (distinct ids, every quantity at least 1).
- `totals.dfy`, module `Totals`: `reduce` as a left fold `Reduce`, a reference sum `Sum`, the lemma connecting them, and `TotalPrice` and `CartCount`.
- `transitions.dfy`, module `Transitions`: `AddToCart`, `RemoveFromCart` and `UpdateQuantity`. Each is written with the `find`, `map` and `filter` steps of the source, and the lemmas about them sit beside them.
- `catalog.dfy`, module `Catalog`: the six catalog products (ids 1 to 6, integer prices 850 and 950).
- `storefront.dfy`, module `Storefront`: the render guards (checkout panel, badge, empty-cart text), the class `CartState` whose `items` field plays the source's state cell and is reassigned by each method, and a sample session.

`updateQuantity` does not remove a row whose quantity would reach 0 or
less. In that case the code (src/pages/Index.tsx:117-118) returns the row
unchanged. The `filter(item => item.quantity > 0)` that follows (line 121)
therefore only drops rows whose quantity was already at most 0, and under
the cart invariant there are none. The filter suggests that removal may have
been the intent, but this model follows the code: pressing minus on a
quantity-1 row changes nothing (`Transitions.UpdateToZeroIsNoOp`,
`Storefront.SampleSession`). `Transitions.KeepPositiveKeepsAll` proves that
the filter keeps every row of a valid cart.

`addToCart` selects its branch with `find`. Its `map` then increments every
row with the product's id, not only the first one. `Transitions.AddToCart`
states this general behaviour for any cart. `Transitions.AddExisting` states
the one-row behaviour, which needs distinct ids.

## Model

| member | source | states |
|---|---|---|
| `Items.WithQuantity` | src/pages/Index.tsx:103 | `{...product, quantity: q}`: the new row keeps every product field and has quantity `q` |
| `Items.ItemRoundTrip` | src/pages/Index.tsx:21-23 | a line item is exactly its product fields plus its quantity |
| `Totals.Reduce` | src/pages/Index.tsx:125-126 | `reduce` with an initial value: a left fold that feeds the rows, first to last, into the step; what it computes is stated by `Totals.ReduceIsSum` |
| `Totals.ReduceIsSum` | src/pages/Index.tsx:125-126 | a `reduce` whose step adds `term(row)` to the running sum, started from `acc`, gives `acc` plus the sum of `term` over the rows |
| `Totals.PriceStep` | src/pages/Index.tsx:125 | the reducer of `totalPrice`: adds the row's `price * quantity` to the running sum; what folding it computes is stated by `Totals.ReduceIsSum` with `Totals.LineTotal` |
| `Totals.CountStep` | src/pages/Index.tsx:126 | the reducer of `cartCount`: adds the row's quantity to the running sum; what folding it computes is stated by `Totals.ReduceIsSum` with `Totals.LineQuantity` |
| `Totals.TotalPrice` | src/pages/Index.tsx:125 | `totalPrice` equals the sum of `price * quantity` over the rows |
| `Totals.CartCount` | src/pages/Index.tsx:126 | `cartCount` equals the sum of the quantities over the rows |
| `Totals.EmptyTotals` | src/pages/Index.tsx:125-126 | both totals of the empty cart are 0 |
| `Totals.TotalsAppend` | src/pages/Index.tsx:125-126 | appending a row adds that row's price times quantity to the total price and its quantity to the count |
| `Totals.TotalsWithout` | src/pages/Index.tsx:125-126 | deleting row `k` subtracts that row's share from both totals |
| `Totals.TotalsReplace` | src/pages/Index.tsx:125-126 | replacing row `k` changes both totals by the difference of the old and new row's shares |
| `Totals.CountAtLeastRows` | src/pages/Index.tsx:126 | with every quantity at least 1, `cartCount` is at least the number of rows |
| `Totals.CountZeroIffEmpty` | src/pages/Index.tsx:126 | with every quantity at least 1, `cartCount` is 0 exactly when the cart is empty, and positive exactly when it is not |
| `Totals.TotalPriceNonNegative` | src/pages/Index.tsx:125 | with non-negative prices and positive quantities, `totalPrice` is never negative |
| `Transitions.Find` | src/pages/Index.tsx:95 | `find` returns nothing exactly when no row has the id; otherwise it returns the first row with that id |
| `Transitions.Incremented` | src/pages/Index.tsx:98-100 | the `map` callback: a row carrying the id gets quantity + 1, any other row keeps its quantity; the product fields never change |
| `Transitions.IncrementMatching` | src/pages/Index.tsx:97-101 | the `map` keeps the length and raises by one the quantity of every row with the id; every other row is returned as it was |
| `Transitions.AddToCart` | src/pages/Index.tsx:93-104 | when the id is present, every row with it gains one and nothing else changes; when it is absent, the result is the old cart with `{...product, quantity: 1}` appended |
| `Transitions.AddExisting` | src/pages/Index.tsx:95-101 | with distinct ids, re-adding the product of row `k` replaces only row `k`, by itself with quantity + 1; length, order and every other row stay the same |
| `Transitions.AddAbsent` | src/pages/Index.tsx:103 | adding a product whose id is absent appends `{...product, quantity: 1}` at the end |
| `Transitions.AddExistingTotals` | src/pages/Index.tsx:95-101 | re-adding the product of row `k` raises `cartCount` by 1 and `totalPrice` by that row's price |
| `Transitions.AddAbsentTotals` | src/pages/Index.tsx:103 | adding an absent product raises `cartCount` by 1 and `totalPrice` by the product's price |
| `Transitions.AddPreservesInvariant` | src/pages/Index.tsx:93-104 | `addToCart` keeps ids distinct and quantities at least 1, and raises `cartCount` by exactly 1 |
| `Transitions.RemoveFromCart` | src/pages/Index.tsx:109 | every row left by the `filter` comes from the old cart and carries a different id; the result is never longer |
| `Transitions.RemoveKeepsOthers` | src/pages/Index.tsx:109 | every row of the old cart with a different id survives the removal |
| `Transitions.RemoveAbsent` | src/pages/Index.tsx:109 | removing an id that is not in the cart leaves the cart unchanged |
| `Transitions.RemoveRow` | src/pages/Index.tsx:109 | with distinct ids, removing the id of row `k` gives exactly the rows before `k` followed by the rows after it, in their old order |
| `Transitions.RemoveIdempotent` | src/pages/Index.tsx:109 | removing an id twice gives the same cart as removing it once |
| `Transitions.RemovePreservesInvariant` | src/pages/Index.tsx:109 | removal keeps the cart invariant and lowers `cartCount` and `totalPrice` by the removed row's share |
| `Transitions.Adjusted` | src/pages/Index.tsx:115-120 | the `map` callback: a row carrying the id takes `quantity + delta` when that is positive, and in every other case the row is returned unchanged; product fields never change, and a positive quantity stays positive |
| `Transitions.AdjustMatching` | src/pages/Index.tsx:114-120 | the `map` keeps the length, and each row becomes the callback's result for it |
| `Transitions.KeepPositive` | src/pages/Index.tsx:121 | every row the `filter` keeps comes from its input and has a positive quantity |
| `Transitions.KeepPositiveKeepsPositive` | src/pages/Index.tsx:121 | every input row with a positive quantity survives the `filter` |
| `Transitions.AdjustedFilterKeepsAll` | src/pages/Index.tsx:114-121 | from a cart whose quantities are all at least 1, the `map` keeps them so and the `filter` returns the `map`'s result unchanged |
| `Transitions.KeepPositiveKeepsAll` | src/pages/Index.tsx:121 | when every quantity is at least 1, the `filter` returns its input unchanged |
| `Transitions.UpdateQuantity` | src/pages/Index.tsx:113-123 | the `map` with the line-118 callback, then the line-121 `filter`; no row of the result has a quantity below 1, and from a cart whose quantities are all at least 1 no row is dropped; its row-by-row behaviour is stated by `Transitions.UpdateRows` |
| `Transitions.UpdateRows` | src/pages/Index.tsx:113-123 | with quantities at least 1, `updateQuantity` keeps length and order; a row with the id takes `quantity + delta` exactly when that is positive and otherwise stays as it was; other rows are untouched |
| `Transitions.UpdateReplacesRow` | src/pages/Index.tsx:115-121 | under the invariant, a change to row `k` that stays positive replaces row `k` only, by itself with quantity + delta |
| `Transitions.UpdatePreservesInvariant` | src/pages/Index.tsx:113-123 | `updateQuantity` keeps ids distinct and quantities at least 1 |
| `Transitions.UpdateTotals` | src/pages/Index.tsx:113-126 | a change that stays positive moves `cartCount` by `delta` and `totalPrice` by `price * delta` |
| `Transitions.UpdateAbsent` | src/pages/Index.tsx:113-123 | with quantities at least 1, an id not in the cart leaves the cart unchanged |
| `Transitions.UpdateToZeroIsNoOp` | src/pages/Index.tsx:117-118 | with quantities at least 1, a delta that would take the row to 0 or below leaves the whole cart unchanged; the row is neither removed nor clamped |
| `Catalog.CatalogShape` | src/pages/Index.tsx:25-68 | the catalog has six products, with ids 1 to 6 in order and non-negative prices |
| `Catalog.CatalogIdDetermines` | src/pages/Index.tsx:25-68 | two catalog products with the same id are the same product |
| `Storefront.CheckoutOffered` | src/pages/Index.tsx:209 | the checkout panel and its confirm button are rendered exactly when the cart has rows; related to the other guards by `Storefront.GuardsAgree` |
| `Storefront.BadgeShown` | src/pages/Index.tsx:155 | the count badge is rendered exactly when `cartCount > 0` |
| `Storefront.EmptyMessageShown` | src/pages/Index.tsx:166 | the empty-cart text is shown exactly when `cartCount === 0` |
| `Storefront.GuardsAgree` | src/pages/Index.tsx:155-209 | with quantities at least 1, the empty-cart text shows exactly when checkout is not offered, and the badge exactly when it is |
| `Storefront.AddCatalogProductPrice` | src/pages/Index.tsx:93-104 | for a cart of catalog rows, adding a catalog product raises `totalPrice` by that product's price, in both branches |
| `Storefront.AddKeepsCatalogRows` | src/pages/Index.tsx:292 | adding a catalog product keeps every row a catalog product |
| `Storefront.RemoveKeepsCatalogRows` | src/pages/Index.tsx:109 | removal keeps every row a catalog product |
| `Storefront.UpdateKeepsCatalogRows` | src/pages/Index.tsx:114-121 | a quantity change keeps every row a catalog product |
| `Storefront.CartState.constructor` | src/pages/Index.tsx:90 | the session starts with the empty cart, which satisfies the invariant |
| `Storefront.CartState.AddToCart` | src/pages/Index.tsx:93-106 | the new cart is `addToCart` of the old one; the invariant holds; `cartCount` rises by 1 and `totalPrice` by the product's price |
| `Storefront.CartState.RemoveFromCart` | src/pages/Index.tsx:108-111 | the new cart is `removeFromCart` of the old one; the invariant holds; no row carries the id |
| `Storefront.CartState.UpdateQuantity` | src/pages/Index.tsx:113-123 | the new cart is `updateQuantity` of the old one; the invariant holds; length and the id of every position are unchanged |
| `Storefront.CartState.ConfirmOrder` | src/pages/Index.tsx:209-222 | offered only for a cart with rows; afterwards the cart is empty and both totals are 0 |
| `Storefront.CartState.TotalPrice` | src/pages/Index.tsx:125 | returns the sum of `price * quantity` over the current rows, which is never negative |
| `Storefront.CartState.CartCount` | src/pages/Index.tsx:126 | returns the sum of the quantities; it is 0 exactly when the cart is empty and is at least the number of rows |
| `Storefront.SampleSession` | src/pages/Index.tsx:93-123 | for the catalog's products 1 and 2: adding products 1, 1, 2 gives `[{1, qty 2}, {2, qty 1}]` with total 2650 and count 3; minus on product 1 gives quantity 1 and total 1800; a second minus leaves the cart unchanged |
| `Storefront.SampleCheckout` | src/pages/Index.tsx:209-222 | the sample session driven through `CartState`: the total before checkout is 1800, and after the confirm button it is 0 |

## Left out

- Rendering, layout, styling, icons and images (src/pages/Index.tsx:134-433): presentational only. The three render guards the cart drives (lines 155, 166, 209) are modelled as predicates.
- The `toast` notifications (lines 105, 110, 130, 219): a fire-and-forget call into the `sonner` library that has no effect on the cart.
- `handleCustomOrder` and the custom-order form (lines 128-132, 320-334): DOM event handling and a form reset. The browser enforces the required fields, not this code.
- The `isCartOpen` sheet toggle (lines 91, 151, 221) and smooth scrolling: UI state that the cart does not depend on.
- The FAQ entries (lines 70-87): static text.
- JavaScript `number` semantics: prices, quantities, ids and deltas are mathematical integers here. Floating-point rounding and non-integer deltas are not modelled.
- `Storefront.CartState.AddToCart` requires a catalog product, because the page calls `addToCart` only from the catalog cards (line 292); the pure `Transitions.AddToCart` accepts any product.
- `Storefront.CartState.ConfirmOrder` requires a cart with rows, because its button is rendered only then (line 209). The click handler itself clears the cart unconditionally.
- Atomicity of `setCart` updates under React's batching is not modelled; each transition is applied to the current cart as one step.
