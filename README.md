# Food-delivery storefront: restaurant helpers, listing, checkout and order tracking

This project models the logic of a browser-based food-delivery storefront in
Dafny and proves properties of that model:

- the helper library `src/lib/utils/restaurantUtils.ts`:
  - filtering, sorting and searching restaurants;
  - a restaurant's menu and its grouping by category;
  - the popular-cuisines ranking;
  - the delivery-time caption, the spice and veg badges;
  - the cart total, the 5% GST and the order total;
- the restaurant listing page, as a class holding its state (search query,
  sort option, selected cuisines) with one method per event handler and the
  search, then filter, then sort pipeline that computes the list it shows;
- the checkout page: its fixed cart, the SPICE20 promo code (20% off the
  subtotal, any letter case) and the order summary;
- the order tracker card: the four delivery stages, the stage an order has
  reached, how each stage is drawn, the cancelled panel and when the estimated
  delivery time appears.

Modules, one per file:

| file | contents |
|---|---|
| `Types.dfy` | the records of the app: restaurant, menu item, order, filter options, sort option |
| `Seqs.dfy` | `Array.prototype.filter`, subsequences, first-seen de-duplication |
| `Sorting.dfy` | the stable sort `Array.prototype.sort` performs (as a function, and in place on an array) |
| `Text.dfy` | ASCII case mapping, `trim`, `includes`, decimal rendering of whole numbers |
| `RestaurantQueries.dfy` | `filterRestaurants`, `sortRestaurants`, `getMenuItemsByRestaurant`, `searchRestaurants`, `isRestaurantOpen` |
| `MenuGrouping.dfy` | `groupMenuItemsByCategory` |
| `CuisineRanking.dfy` | `getPopularCuisines` |
| `OrderTotals.dfy` | `calculateCartTotal`, `calculateTax`, `calculateOrderTotal` |
| `DisplayFormat.dfy` | `formatDeliveryTime`, `getSpiceLevelEmoji`, `getVegIndicator` |
| `RestaurantsPage.dfy` | the restaurant listing page |
| `Checkout.dfy` | the checkout page's promo code and totals |
| `OrderTracker.dfy` | the order tracker card |

Representation choices:

- Ratings are whole tenths of a star (4.5 stars is 45), so the relevance score
  `rating * 10 - deliveryTime / 10` is kept multiplied by 10, as
  `10 * ratingTenths - deliveryTime`, and compared exactly. The source
  compares binary floating-point approximations of the score instead. Two
  restaurants whose exact scores are equal can then get unequal doubles, and
  the source may swap them where the model keeps their input order (see
  "## Left out").
- Every comparator of `sortRestaurants` has the form `(a, b) => key(a) - key(b)`.
  The sort is modelled as a stable sort ascending by that key. Stability is
  what ECMA-262 (10th edition onwards, section 22.1.3.27) requires of
  `Array.prototype.sort`.
- Money is whole rupees, computed exactly:
  - `Math.round(subtotal * 0.05)` is the nearest whole number to
    subtotal / 20, rounding halves up: `(subtotal + 10) / 20`;
  - `Math.floor(subtotal * 0.2)` is `subtotal / 5`.
  The double nearest to 0.05 and the one nearest to 0.2 both lie slightly
  above the decimal value. So for amounts of ordinary size, the floating-point
  products round and floor as the exact ones do.
- The object `groupMenuItemsByCategory` builds is modelled as its key order
  plus a map from each key to its group. The `Map` counted by
  `getPopularCuisines` is modelled the same way.

## Model

| member | source | states |
|---|---|---|
| RestaurantQueries.FilterRestaurants | src/lib/utils/restaurantUtils.ts:10-48 | the five successive filter passes, each run only when its criterion is present and truthy, return the one-pass filter by all criteria in force |
| RestaurantQueries.StageStep | src/lib/utils/restaurantUtils.ts:14-45 | filtering the result of the first k-1 passes by criterion k gives the filter by the first k criteria |
| RestaurantQueries.StageSkip | src/lib/utils/restaurantUtils.ts:17-45 | a pass whose criterion is absent or falsy changes nothing |
| RestaurantQueries.ApplyStage | src/lib/utils/restaurantUtils.ts:17-45 | one pass, run when its criterion is present and truthy and skipped otherwise, takes the list the earlier passes left to the filter by the criteria up to and including its own |
| RestaurantQueries.AllStages | src/lib/utils/restaurantUtils.ts:14-47 | meeting all five criteria in turn is the same as meeting the combined criteria |
| RestaurantQueries.FilterRestaurantsSpec | src/lib/utils/restaurantUtils.ts:10-48 | the result is an in-order subsequence of the input; every element meets every criterion in force; every input element that meets them is kept as often as it occurs |
| RestaurantQueries.FilterWithoutCriteria | src/lib/utils/restaurantUtils.ts:14-47 | with no criterion present and truthy, the result equals the input |
| RestaurantQueries.FilterByRating | src/lib/utils/restaurantUtils.ts:24-26 | a rating-only filter keeps only restaurants rated at or above the threshold, and is non-empty exactly when such a restaurant exists |
| RestaurantQueries.SortRestaurants | src/lib/utils/restaurantUtils.ts:53-81 | sorting a fresh copy of the list in place gives the stable sort by the option's key |
| RestaurantQueries.SortRestaurantsSpec | src/lib/utils/restaurantUtils.ts:59-79 | the result is a permutation of the input; restaurants with equal keys keep their input order; rating and cost-high-to-low are non-increasing; delivery time and cost-low-to-high are non-decreasing; relevance score is non-increasing |
| RestaurantQueries.SortRestaurantsIdempotent | src/lib/utils/restaurantUtils.ts:53-81 | sorting a sorted list again by the same option changes nothing |
| RestaurantQueries.MenuItemsByRestaurant | src/lib/utils/restaurantUtils.ts:86-91 | the result keeps menu order and holds only items whose restaurant id is the one asked for |
| RestaurantQueries.MenuItemsByRestaurantSpec | src/lib/utils/restaurantUtils.ts:86-91 | the menu of a restaurant is the in-order subsequence of exactly the items with its id, each kept as often as it occurs |
| RestaurantQueries.SearchRestaurants | src/lib/utils/restaurantUtils.ts:212-228 | the result keeps the input order; for a query that is not blank after trimming, every restaurant in it matches the normalised query |
| RestaurantQueries.SearchRestaurantsSpec | src/lib/utils/restaurantUtils.ts:212-228 | a query that is blank after trimming returns the input itself; otherwise the result is the in-order subsequence of exactly the restaurants whose lower-cased name, some cuisine or area contains the normalised query, empty exactly when none does |
| RestaurantQueries.SearchIgnoresCase | src/lib/utils/restaurantUtils.ts:216 | upper-casing or lower-casing the query does not change the result |
| Sorting.SortInPlace | src/lib/utils/restaurantUtils.ts:57-79 | the in-place sort leaves the array holding the stable insertion sort of its old contents |
| Sorting.InsertAt | src/lib/utils/restaurantUtils.ts:57-79 | one insertion step places element i after the sorted prefix elements whose key is not greater |
| Sorting.SortPermutes | src/lib/utils/restaurantUtils.ts:57-79 | the sorted list holds the same elements, each as often |
| Sorting.SortSorts | src/lib/utils/restaurantUtils.ts:57-79 | keys are non-decreasing in the sorted list |
| Sorting.SortKeepsTieOrder | src/lib/utils/restaurantUtils.ts:57-79 | for every key, the elements with that key appear in the sorted list in the same order as in the input |
| Sorting.SortedIsUnique | src/lib/utils/restaurantUtils.ts:57-79 | any list that is a sorted permutation keeping tie order equals the insertion sort, so every stable sort gives the same result |
| Sorting.SortIdempotent | src/lib/utils/restaurantUtils.ts:57-79 | sorting a sorted list again leaves it unchanged |
| Sorting.SortKeepsInputOrderOfTies | src/lib/utils/restaurantUtils.ts:242-243 | in the sorted list of a duplicate-free input, two elements with equal keys appear in the order of their positions in the input |
| MenuGrouping.GroupMenuItemsByCategory | src/lib/utils/restaurantUtils.ts:96-106 | the reduce that opens a group on a category's first item and appends every item to its group produces the key order and groups of `GroupedByCategory` |
| MenuGrouping.GroupStep | src/lib/utils/restaurantUtils.ts:99-104 | grouping a menu with one more item is one reduce step on the grouping of the shorter menu |
| MenuGrouping.AddToGroup | src/lib/utils/restaurantUtils.ts:99-104 | the reduce callback opens an empty group at the end of the key order for a new category and appends the item to its category's group, which is one `AddItem` step |
| MenuGrouping.GroupKeys | src/lib/utils/restaurantUtils.ts:96-106 | the keys are exactly the categories on the menu, each once, in the order of each category's first item; an empty menu gives no keys |
| MenuGrouping.GroupContents | src/lib/utils/restaurantUtils.ts:100-103 | every group is non-empty, holds only items of its category in menu order, and holds every item of that category as often as the menu does |
| MenuGrouping.GroupSizesSum | src/lib/utils/restaurantUtils.ts:99-105 | the group sizes add up to the number of menu items: no item is lost or counted twice |
| MenuGrouping.GroupOnPlainObject | src/lib/utils/restaurantUtils.ts:99-105 | the reduce over a `{}` accumulator throws only when some item's category names a property every object inherits |
| MenuGrouping.GroupOnPlainObjectSpec | src/lib/utils/restaurantUtils.ts:99-105 | with the `{}` accumulator as written, the reduce throws exactly when some category names a property every object inherits, and otherwise returns the intended grouping |
| MenuGrouping.ConstructorCategoryThrows | src/lib/utils/restaurantUtils.ts:100-103 | a menu whose single item has category "constructor" throws as written, where the intended grouping maps "constructor" to that item |
| CuisineRanking.CountTag | src/lib/utils/restaurantUtils.ts:238 | one `set(c, (get(c) or 0) + 1)` adds one occurrence of c to the counts, appending c to the key order when it is new |
| CuisineRanking.CountTags | src/lib/utils/restaurantUtils.ts:237-239 | counting a restaurant's tags extends the counts and the key order by those tags |
| CuisineRanking.CountCuisines | src/lib/utils/restaurantUtils.ts:234-240 | after both loops, the key order is the tags in first-seen order and each count is the tag's number of occurrences |
| CuisineRanking.TallyStep | src/lib/utils/restaurantUtils.ts:238 | counting one more tag raises its count by one and leaves the other counts alone |
| CuisineRanking.GetPopularCuisines | src/lib/utils/restaurantUtils.ts:233-246 | the counting loops, the stable sort by descending count, the first ten, and the names give `PopularCuisines` |
| CuisineRanking.TagCountsSpec | src/lib/utils/restaurantUtils.ts:242 | the map entries list each distinct tag once, with its true count |
| CuisineRanking.RankedShape | src/lib/utils/restaurantUtils.ts:242-243 | the sorted entries list each distinct tag once, with counts non-increasing |
| CuisineRanking.RankedComplete | src/lib/utils/restaurantUtils.ts:242-243 | every tag that occurs has an entry in the sorted list |
| CuisineRanking.TopTagsSpec | src/lib/utils/restaurantUtils.ts:242-245 | the result lists min(10, number of distinct tags) tags, without repeats, all occurring, by non-increasing count; a tag left out occurs no more often than any tag shown |
| CuisineRanking.PopularCuisines | src/lib/utils/restaurantUtils.ts:233-246 | at most ten cuisines are returned, each the tag of some restaurant |
| CuisineRanking.PopularCuisinesSpec | src/lib/utils/restaurantUtils.ts:233-246 | the same for the cuisine tags of a restaurant list, with at most ten cuisines returned |
| CuisineRanking.PopularCuisinesTies | src/lib/utils/restaurantUtils.ts:236-243 | cuisines with equal counts appear in the order in which the scan first met them |
| CuisineRanking.RankedTiePair | src/lib/utils/restaurantUtils.ts:242-243 | two sorted entries with equal counts keep the order in which their tags were first met |
| CuisineRanking.PopularCuisinesExample | src/lib/utils/restaurantUtils.ts:233-246 | cuisines [A, B], [A], [C] rank as A, B, C |
| OrderTotals.CartTotalAppend | src/lib/utils/restaurantUtils.ts:149-151 | the total of two carts joined is the sum of their totals |
| OrderTotals.CartTotal | src/lib/utils/restaurantUtils.ts:149-151 | no line costs more than the cart; the cart totals 0 exactly when every line does, so an empty cart totals 0 |
| OrderTotals.CalculateTax | src/lib/utils/restaurantUtils.ts:156-158 | the tax is the whole number nearest to 5% of the subtotal, halves rounded up |
| OrderTotals.TaxMonotone | src/lib/utils/restaurantUtils.ts:156-158 | a larger subtotal never carries a smaller tax, and the tax never exceeds the subtotal |
| OrderTotals.CalculateOrderTotal | src/lib/utils/restaurantUtils.ts:163-184 | the inputs are echoed and the tax is added; the total is never below subtotal + fee + tax − discount, and equals it whenever it is positive |
| OrderTotals.OrderTotalSpec | src/lib/utils/restaurantUtils.ts:174-182 | the total is 0 exactly when the discount covers subtotal, fee and tax, and is what remains otherwise; a larger discount never raises it; no discount means all three are paid |
| OrderTotals.OrderTotalExample | src/lib/utils/restaurantUtils.ts:156-184 | a subtotal of 747 carries a tax of 37; 747 with fee 30 and discount 149 comes to 665; a discount above the gross amount gives 0 |
| DisplayFormat.FormatDeliveryTime | src/lib/utils/restaurantUtils.ts:120-127 | the caption starts with a digit; it ends in "s" (" mins") exactly under an hour, in "h" exactly for whole hours, in "m" exactly for hours and minutes |
| DisplayFormat.FormatDeliveryTimeRoundTrip | src/lib/utils/restaurantUtils.ts:120-127 | reading a caption back gives the number of minutes it was made from |
| DisplayFormat.ParseDeliveryTimeCanonical | src/lib/utils/restaurantUtils.ts:120-127 | a string that reads back as m minutes is exactly the caption made from m, so the caption's digits are the hours m / 60 and the minutes m % 60 (or m itself under an hour) |
| DisplayFormat.ParseDeliveryTimeIff | src/lib/utils/restaurantUtils.ts:120-127 | a string reads as m minutes exactly when it is the caption of m: the reader is the formatter's inverse in both directions |
| DisplayFormat.FormatDeliveryTimeInjective | src/lib/utils/restaurantUtils.ts:120-127 | different delivery times never share a caption |
| DisplayFormat.SpiceLevelEmoji | src/lib/utils/restaurantUtils.ts:280-293 | the string holds one chili per step of heat (mild 1 to extra-hot 4), and nothing for an absent or unknown level |
| DisplayFormat.SpiceLevelEmojiOrder | src/lib/utils/restaurantUtils.ts:280-293 | a hotter level shows strictly more chilies, and two levels share a string exactly when they are equally hot |
| DisplayFormat.GetVegIndicator | src/lib/utils/restaurantUtils.ts:298-306 | the symbol is always the dot; the colour is green exactly for veg and red exactly for non-veg; the label is "Veg" or "Non-Veg" |
| DisplayFormat.GetVegIndicatorDistinguishes | src/lib/utils/restaurantUtils.ts:298-306 | two badges are equal exactly when both are veg or both non-veg; a veg and a non-veg badge differ in colour and in label |
| Text.TrimLowerEmptyIff | src/lib/utils/restaurantUtils.ts:216-220 | a query is blank after lower-casing and trimming exactly when it is blank after trimming |
| Text.TrimEmptyIff | src/lib/utils/restaurantUtils.ts:216-218 | trimming leaves nothing exactly when the string is all whitespace |
| Text.ParseNatToString | src/lib/utils/restaurantUtils.ts:122-126 | the decimal rendering of a whole number reads back as that number |
| Text.ContainsIff | src/lib/utils/restaurantUtils.ts:224-226 | `includes` holds exactly when the query occurs at some position of the string |
| OrderTracker.FindStep | src/components/restaurant/OrderTracker.tsx:22 | `findIndex` returns the first position whose key is the status, or −1 exactly when no step has that key |
| OrderTracker.CurrentStepIndex | src/components/restaurant/OrderTracker.tsx:22 | the index is −1 or a stage whose key is the status, and it is −1 exactly for a pending or cancelled order |
| OrderTracker.CurrentStepIndexIff | src/components/restaurant/OrderTracker.tsx:14-22 | the current stage is stage i exactly when stage i's key is the order's status |
| OrderTracker.CurrentStepIndexValues | src/components/restaurant/OrderTracker.tsx:14-22 | confirmed, preparing, out for delivery and delivered are stages 0 to 3; pending and cancelled are −1 |
| OrderTracker.StepState | src/components/restaurant/OrderTracker.tsx:57-90 | a stage keeps its label; it is current exactly when the status names it; it shows "Completed" exactly when it comes before the current stage; it is drawn completed when either holds |
| OrderTracker.Track | src/components/restaurant/OrderTracker.tsx:21-101 | the cancelled panel appears exactly for a cancelled order, with no stages and no delivery estimate; otherwise all four stages appear, with the estimate exactly when the order has one |
| OrderTracker.StepStatesSpec | src/components/restaurant/OrderTracker.tsx:56-91 | the completed stages form a prefix; at most one stage is current, and it is the one named by the status; the "Completed" caption marks exactly the stages before the current one |
| OrderTracker.TrackEnds | src/components/restaurant/OrderTracker.tsx:56-58 | a pending order shows no stage reached or current; a delivered one shows all four completed and only the last current |
| RestaurantsPage.Toggled | src/app/restaurants/page.tsx:26-32 | the toggled cuisine's membership flips and no other cuisine's membership changes |
| RestaurantsPage.ToggledSpec | src/app/restaurants/page.tsx:26-32 | toggling flips the cuisine's membership: a selected cuisine is removed and the others kept in order, an unselected one appended |
| RestaurantsPage.ToggleTwice | src/app/restaurants/page.tsx:26-32 | toggling an unselected cuisine twice restores the selection |
| RestaurantsPage.ToggleKeepsNoDuplicates | src/app/restaurants/page.tsx:26-32 | a selection without repeats stays without repeats after a toggle |
| RestaurantsPage.SearchedCounts | src/app/restaurants/page.tsx:38-40 | after the search step each restaurant occurs as often as in the catalogue when the query is blank or the restaurant matches it, and not at all otherwise |
| RestaurantsPage.CuisineFilteredCounts | src/app/restaurants/page.tsx:43-45 | after the cuisine step each restaurant occurs as often as before when no cuisine is selected or it serves a selected one, and not at all otherwise |
| RestaurantsPage.Pipeline | src/app/restaurants/page.tsx:34-51 | the list shown is no longer than the catalogue and holds only restaurants the query and the selected cuisines let through |
| RestaurantsPage.KeptInCatalogueOrder | src/app/restaurants/page.tsx:38-45 | the search and cuisine steps only delete restaurants, so what remains is in catalogue order |
| RestaurantsPage.PipelineSpec | src/app/restaurants/page.tsx:34-51 | the list shown holds exactly the restaurants matched by a non-blank query and serving a selected cuisine, each as often as in the catalogue, ordered by the sort option, with restaurants of equal key in catalogue order |
| RestaurantsPage.PipelineWithoutCriteria | src/app/restaurants/page.tsx:34-51 | with a blank query and no cuisine selected, the whole catalogue is shown, sorted |
| RestaurantsPage.RestaurantsPage.constructor | src/app/restaurants/page.tsx:20-22 | the page starts with an empty query, relevance order and no cuisine selected |
| RestaurantsPage.RestaurantsPage.HandleCuisineToggle | src/app/restaurants/page.tsx:26-32 | the selection becomes its toggle, the rest of the state is unchanged, and the selection stays free of repeats |
| RestaurantsPage.RestaurantsPage.SetSearchQuery | src/app/restaurants/page.tsx:73 | only the query changes |
| RestaurantsPage.RestaurantsPage.SetSortBy | src/app/restaurants/page.tsx:74 | only the sort option changes |
| RestaurantsPage.RestaurantsPage.TopRated | src/app/restaurants/page.tsx:94-97 | the sort option becomes rating exactly when some restaurant is rated 4.5 or more; nothing else changes |
| RestaurantsPage.RestaurantsPage.FastDelivery | src/app/restaurants/page.tsx:104 | the sort option becomes delivery time |
| RestaurantsPage.RestaurantsPage.PureVeg | src/app/restaurants/page.tsx:111-116 | the selection is cleared exactly when some restaurant is pure veg; nothing else changes |
| RestaurantsPage.RestaurantsPage.ClearAllFilters | src/app/restaurants/page.tsx:154-158 | the state returns to its initial values |
| RestaurantsPage.RestaurantsPage.FilteredAndSortedRestaurants | src/app/restaurants/page.tsx:34-51 | reassigning `results` through search, filter and sort yields `Pipeline` of the current state |
| Checkout.Subtotal | src/app/checkout/page.tsx:52 | no line costs more than the subtotal, and the subtotal is 0 exactly when every line is free |
| Checkout.PromoDiscount | src/app/checkout/page.tsx:56-61 | the accepted code sets the discount to a fifth of the subtotal rounded down; any other code keeps the current discount |
| Checkout.PromoSpec | src/app/checkout/page.tsx:52-61 | applying the code again changes nothing; the discount never exceeds the subtotal, so the total is never clamped and still covers the fee and the tax |
| Checkout.UpperOfLower | src/app/checkout/page.tsx:58 | upper-casing a lower-cased code gives the upper-cased code |
| Checkout.PromoIgnoresCase | src/app/checkout/page.tsx:58 | the code is accepted whatever the case of its letters; "spice20" gives a fifth of the subtotal |
| Checkout.CheckoutExample | src/app/checkout/page.tsx:37-54 | the fixed cart comes to 747; the code takes 149 off, leaving 665 to pay; without it the total is 814 |
| Checkout.CheckoutPage.constructor | src/app/checkout/page.tsx:33-50 | the page starts with the fixed cart, an empty code and no discount |
| Checkout.CheckoutPage.SetPromoCode | src/app/checkout/page.tsx:244 | only the code changes |
| Checkout.CheckoutPage.HandleApplyPromo | src/app/checkout/page.tsx:56-61 | the discount becomes `PromoDiscount` of the code, the subtotal and the old discount; it is always 0 or a fifth of the subtotal |
| Checkout.CheckoutPage.ShowsDiscount | src/app/checkout/page.tsx:251-297 | in every reachable state the banner and the discount row show exactly when the accepted code has set the discount to a fifth of a subtotal of at least 5 |
| Checkout.CheckoutPage.OrderSummary | src/app/checkout/page.tsx:52-54 | the summary carries the cart subtotal, the fee of 30, the applied discount and the 5% GST computed by `calculateTax` from the subtotal, and its total is exactly subtotal + fee + tax − discount |

## Left out

- `getEstimatedDeliveryTime`, `generateOrderId`, `detectUserLocation` and `formatDateTime` read the clock or randomness, wait on a timer, or call `Intl`. The checkout's `handlePlaceOrder` uses two of them and then navigates. None of these are modelled.
- `formatPrice` and `formatDistance` are locale and floating-point formatting; they are not modelled.
- Ratings with more than one decimal place, non-integer amounts and non-integer minutes are not modelled. Neither are negative amounts or minutes.
- Floating-point rounding of the tax and the discount for amounts beyond about 2^50 rupees is not modelled.
- `toLowerCase`, `toUpperCase` and `includes` are modelled on ASCII letters, one character per code point. Full Unicode case mapping is not modelled: it changes string lengths and makes `toUpperCase` send a few non-ASCII letters to ASCII ones, so such inputs could be matched or accepted in the app but not in the model. UTF-16 code units are not modelled either.
- Integer-like category names are left out: a JavaScript object enumerates those keys first, in numeric order, whatever their insertion order. The model lists every key in insertion order.
- The progress bar height, the icons, the CSS classes and the rendering of every page are not modelled.
- The listing page's `popularCuisines` memo is `getPopularCuisines` applied to the fixed catalogue; it is modelled by `CuisineRanking.PopularCuisines`, not stored in the class. The "N restaurants found" count and the empty-state message are rendering.
- The checkout's `paymentMethod` and `selectedAddress` state is set by radio buttons and used by no logic, so it is left out.
- React's state batching and re-rendering are not modelled: each handler is one atomic update of the class's fields.
- IsRestaurantOpen (`RestaurantQueries.IsRestaurantOpen`): `isRestaurantOpen` only reads the restaurant's stored `isOpen` flag; the model's function is that field read and states nothing more.
- SortRestaurants (`RestaurantQueries.SortRestaurants`): the relevance key is the exact score, but the source subtracts binary floating-point scores `rating * 10 - deliveryTime / 10`. At exact ties these can differ: B (rating 0.1, 11 minutes) and A (rating 0.4, 41 minutes) both score exactly −0.1, while the doubles are about −0.10000000000000009 and −0.09999999999999964, so the source turns [B, A] into [A, B] where the model keeps [B, A]. Floating-point arithmetic is not modelled.
- SortRestaurantsSpec (`RestaurantQueries.SortRestaurantsSpec`): "equal keys keep their input order" holds of the exact relevance score, not of the source at the floating-point ties described under `SortRestaurants`.
- PipelineSpec (`RestaurantsPage.PipelineSpec`): the relevance order stated is the exact-score order; at the floating-point ties described under `SortRestaurants` the page may order two restaurants the other way.
- PipelineWithoutCriteria (`RestaurantsPage.PipelineWithoutCriteria`): the same: sorted by relevance means by the exact score, which can differ from the source at floating-point ties.
- FilteredAndSortedRestaurants (`RestaurantsPage.RestaurantsPage.FilteredAndSortedRestaurants`): `results` is `Pipeline` with the exact relevance score, so at the floating-point ties described under `SortRestaurants` the page may list two restaurants the other way.
- `Checkout.CheckoutPage.OrderSummary`: the unclamped-total equation is stated only for states reachable through the class's methods (`Valid()`), since an arbitrary discount can exceed the gross amount.

## Findings

| source | as written | input that shows it | evidently intended | confidence | as-written member | corrected member |
|---|---|---|---|---|---|---|
| src/lib/utils/restaurantUtils.ts:99-105 | the accumulator is a plain `{}` object, so the "has this category a group yet" test also sees the properties every object inherits; for such a category no group is opened and the append is applied to an inherited function or prototype, which throws a TypeError | one menu item whose category is "constructor" (likewise "toString", "__proto__" and the other inherited names) | every category, whatever its name, gets its own group holding its items in menu order | high that such a category throws; not executed | MenuGrouping.ConstructorCategoryThrows | MenuGrouping.GroupMenuItemsByCategory |
