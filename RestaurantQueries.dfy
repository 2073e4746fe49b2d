/**
 * The query helpers of src/lib/utils/restaurantUtils.ts: filtering, text
 * search and sorting of a restaurant list, selecting a restaurant's menu, and
 * the open check. Each returns a new list; the input list is a value and is
 * never changed.
 */
module RestaurantQueries {
  import opened Types
  import opened Seqs
  import opened Sorting
  import opened Text

  // ---------------------------------------------------------------------------
  // filterRestaurants
  // ---------------------------------------------------------------------------

  /** `restaurant.cuisine.some(c => cuisines.includes(c))` */
  predicate ServesAnyOf(r: Restaurant, cuisines: seq<string>)
  {
    exists i :: 0 <= i < |r.cuisine| && r.cuisine[i] in cuisines
  }

  // A criterion takes part only when it is present and truthy: an empty
  // cuisine list, a rating of 0, a delivery time of 0 and `isVeg: false`
  // switch their filter off. A price range, being an array, is always truthy.
  predicate CuisinesActive(f: FilterOptions) { f.cuisines.Some? && |f.cuisines.value| > 0 }
  predicate RatingActive(f: FilterOptions) { f.rating.Some? && f.rating.value != 0 }
  predicate VegActive(f: FilterOptions) { f.isVeg == Some(true) }
  predicate DeliveryTimeActive(f: FilterOptions) { f.deliveryTime.Some? && f.deliveryTime.value != 0 }
  predicate PriceRangeActive(f: FilterOptions) { f.priceRange.Some? }

  predicate NoCriteria(f: FilterOptions)
  {
    !CuisinesActive(f) && !RatingActive(f) && !VegActive(f) && !DeliveryTimeActive(f) && !PriceRangeActive(f)
  }

  /** `r` meets every criterion of `f` that is in force. */
  predicate MeetsFilters(r: Restaurant, f: FilterOptions)
  {
    && (CuisinesActive(f) ==> ServesAnyOf(r, f.cuisines.value))
    && (RatingActive(f) ==> r.ratingTenths >= f.rating.value)
    && (VegActive(f) ==> r.isPureVeg)
    && (DeliveryTimeActive(f) ==> r.deliveryTime <= f.deliveryTime.value)
    && (PriceRangeActive(f) ==> f.priceRange.value.0 <= r.minimumOrder <= f.priceRange.value.1)
  }

  function Meets(f: FilterOptions): Restaurant -> bool
  {
    r => MeetsFilters(r, f)
  }

  /** The specification of `filterRestaurants`: one pass keeping what meets all criteria. */
  function FilteredRestaurants(restaurants: seq<Restaurant>, f: FilterOptions): seq<Restaurant>
  {
    Filter(restaurants, Meets(f))
  }

  /** Criterion number `k` (1 to 5) of `filterRestaurants`, true when it is not in force. */
  predicate Criterion(r: Restaurant, f: FilterOptions, k: nat)
  {
    match k
    case 1 => CuisinesActive(f) ==> ServesAnyOf(r, f.cuisines.value)
    case 2 => RatingActive(f) ==> r.ratingTenths >= f.rating.value
    case 3 => VegActive(f) ==> r.isPureVeg
    case 4 => DeliveryTimeActive(f) ==> r.deliveryTime <= f.deliveryTime.value
    case 5 => PriceRangeActive(f) ==> f.priceRange.value.0 <= r.minimumOrder <= f.priceRange.value.1
    case _ => true
  }

  /** The first `stage` criteria of `filterRestaurants`, in the order it applies them. */
  predicate MeetsFirst(r: Restaurant, f: FilterOptions, stage: nat)
  {
    stage == 0 || (MeetsFirst(r, f, stage - 1) && Criterion(r, f, stage))
  }

  function Stage(f: FilterOptions, stage: nat): Restaurant -> bool
  {
    r => MeetsFirst(r, f, stage)
  }

  /** Criterion `k` is in force: present and truthy. */
  predicate Active(f: FilterOptions, k: nat)
  {
    match k
    case 1 => CuisinesActive(f)
    case 2 => RatingActive(f)
    case 3 => VegActive(f)
    case 4 => DeliveryTimeActive(f)
    case 5 => PriceRangeActive(f)
    case _ => false
  }

  /** The pass of criterion `k`, as the source writes its callback. */
  function Keep(f: FilterOptions, k: nat): Restaurant -> bool
    requires Active(f, k)
  {
    match k
    case 1 => var cuisines := f.cuisines.value; (r: Restaurant) => ServesAnyOf(r, cuisines)
    case 2 => var rating := f.rating.value; (r: Restaurant) => r.ratingTenths >= rating
    case 3 => (r: Restaurant) => r.isPureVeg
    case 4 => var limit := f.deliveryTime.value; (r: Restaurant) => r.deliveryTime <= limit
    case 5 => var range := f.priceRange.value; (r: Restaurant) => r.minimumOrder >= range.0 && r.minimumOrder <= range.1
  }

  /** A pass in force narrows the result of the earlier passes to the first `stage` criteria. */
  lemma StageStep(restaurants: seq<Restaurant>, f: FilterOptions, stage: nat)
    requires 1 <= stage <= 5 && Active(f, stage)
    ensures Filter(Filter(restaurants, Stage(f, stage - 1)), Keep(f, stage)) == Filter(restaurants, Stage(f, stage))
  {
    FilterFilter(restaurants, Stage(f, stage - 1), Keep(f, stage), Stage(f, stage));
  }

  /** A criterion not in force leaves the result of the earlier passes as it is. */
  lemma StageSkip(restaurants: seq<Restaurant>, f: FilterOptions, stage: nat)
    requires 1 <= stage <= 5 && !Active(f, stage)
    ensures Filter(restaurants, Stage(f, stage - 1)) == Filter(restaurants, Stage(f, stage))
  {
    FilterCongruent(restaurants, Stage(f, stage - 1), Stage(f, stage));
  }

  /** Passing the five stages in turn is meeting the combined criteria. */
  lemma AllStages(restaurants: seq<Restaurant>, f: FilterOptions)
    ensures Filter(restaurants, Stage(f, 5)) == FilteredRestaurants(restaurants, f)
  {
    forall r
      ensures MeetsFirst(r, f, 5) == MeetsFilters(r, f)
    {
      assert MeetsFirst(r, f, 1) == Criterion(r, f, 1);
      assert MeetsFirst(r, f, 2) == (MeetsFirst(r, f, 1) && Criterion(r, f, 2));
      assert MeetsFirst(r, f, 3) == (MeetsFirst(r, f, 2) && Criterion(r, f, 3));
      assert MeetsFirst(r, f, 4) == (MeetsFirst(r, f, 3) && Criterion(r, f, 4));
      assert MeetsFirst(r, f, 5) == (MeetsFirst(r, f, 4) && Criterion(r, f, 5));
    }
    FilterCongruent(restaurants, Stage(f, 5), Meets(f));
  }

  /** Stage `k` of `filterRestaurants`: the pass of criterion `k` when it is in force. */
  method ApplyStage(ghost restaurants: seq<Restaurant>, filtered: seq<Restaurant>, filters: FilterOptions, k: nat)
    returns (narrowed: seq<Restaurant>)
    requires 1 <= k <= 5
    requires filtered == Filter(restaurants, Stage(filters, k - 1))
    ensures narrowed == Filter(restaurants, Stage(filters, k))
  {
    if Active(filters, k) {
      StageStep(restaurants, filters, k);
      narrowed := Filter(filtered, Keep(filters, k));
    } else {
      StageSkip(restaurants, filters, k);
      narrowed := filtered;
    }
  }

  /**
   * `filterRestaurants`: narrows a copy of the list by each criterion in
   * force, one after another (cuisines, rating, pure veg, delivery time,
   * price range), and ends with one pass by all of them.
   */
  method FilterRestaurants(restaurants: seq<Restaurant>, filters: FilterOptions) returns (filtered: seq<Restaurant>)
    ensures filtered == FilteredRestaurants(restaurants, filters)
  {
    filtered := restaurants;
    FilterAll(restaurants, Stage(filters, 0));
    filtered := ApplyStage(restaurants, filtered, filters, 1);
    filtered := ApplyStage(restaurants, filtered, filters, 2);
    filtered := ApplyStage(restaurants, filtered, filters, 3);
    filtered := ApplyStage(restaurants, filtered, filters, 4);
    filtered := ApplyStage(restaurants, filtered, filters, 5);
    AllStages(restaurants, filters);
  }

  /**
   * `filterRestaurants` returns, in input order, exactly the restaurants that
   * meet every criterion in force, each as often as it occurs in the input.
   */
  lemma FilterRestaurantsSpec(restaurants: seq<Restaurant>, f: FilterOptions)
    ensures IsSubsequence(FilteredRestaurants(restaurants, f), restaurants)
    ensures forall i :: 0 <= i < |FilteredRestaurants(restaurants, f)| ==>
      MeetsFilters(FilteredRestaurants(restaurants, f)[i], f)
    ensures forall r :: MeetsFilters(r, f) ==>
      multiset(FilteredRestaurants(restaurants, f))[r] == multiset(restaurants)[r]
  {
    FilterCharacterized(restaurants, Meets(f));
  }

  /** With every criterion absent or falsy, `filterRestaurants` returns its input. */
  lemma FilterWithoutCriteria(restaurants: seq<Restaurant>, f: FilterOptions)
    requires NoCriteria(f)
    ensures FilteredRestaurants(restaurants, f) == restaurants
  {
    FilterAll(restaurants, Meets(f));
  }

  /** A rating-only filter keeps exactly the restaurants rated at or above the threshold. */
  lemma FilterByRating(restaurants: seq<Restaurant>, threshold: nat)
    ensures var r := FilteredRestaurants(restaurants, NoFilters.(rating := Some(threshold)));
      && IsSubsequence(r, restaurants)
      && (forall i :: 0 <= i < |r| ==> r[i].ratingTenths >= threshold)
      && (r != [] <==> exists i :: 0 <= i < |restaurants| && restaurants[i].ratingTenths >= threshold)
  {
    var f := NoFilters.(rating := Some(threshold));
    FilterCharacterized(restaurants, Meets(f));
    FilterNonEmpty(restaurants, Meets(f));
  }

  // ---------------------------------------------------------------------------
  // sortRestaurants
  // ---------------------------------------------------------------------------

  /**
   * The relevance score `rating * 10 - deliveryTime / 10`, multiplied by 10 so
   * that it is a whole number: `10 * ratingTenths - deliveryTime`. The source
   * computes the score in binary floating point, where two exactly equal
   * scores can come out unequal; the model compares the exact scores.
   */
  function RelevanceScore(r: Restaurant): int
  {
    10 * r.ratingTenths - r.deliveryTime
  }

  /**
   * The comparator of each sort option as a key sorted ascending: the
   * comparator `(a, b) => Rank(a) - Rank(b)` orders as the source's does.
   * `'relevance'` and the `default:` branch share the relevance key.
   */
  function Rank(sortBy: SortOption): Restaurant -> int
  {
    match sortBy
    case Rating => (r: Restaurant) => -(r.ratingTenths as int)
    case DeliveryTime => (r: Restaurant) => r.deliveryTime as int
    case CostLowToHigh => (r: Restaurant) => r.minimumOrder as int
    case CostHighToLow => (r: Restaurant) => -(r.minimumOrder as int)
    case Relevance => (r: Restaurant) => -RelevanceScore(r)
  }

  /** The specification of `sortRestaurants`: the stable sort by the option's key. */
  function SortedRestaurants(restaurants: seq<Restaurant>, sortBy: SortOption): seq<Restaurant>
  {
    InsertionSort(restaurants, Rank(sortBy))
  }

  /** `sortRestaurants`: copies the list into a fresh array and sorts the copy in place. */
  method SortRestaurants(restaurants: seq<Restaurant>, sortBy: SortOption) returns (sorted: seq<Restaurant>)
    ensures sorted == SortedRestaurants(restaurants, sortBy)
  {
    var copy := new Restaurant[|restaurants|](i requires 0 <= i < |restaurants| => restaurants[i]);
    assert copy[..] == restaurants;
    SortInPlace(copy, Rank(sortBy));
    sorted := copy[..];
  }

  /**
   * The sorted list is a permutation of the input, ordered as the option asks,
   * and restaurants that tie keep their input order.
   */
  lemma SortRestaurantsSpec(restaurants: seq<Restaurant>, sortBy: SortOption)
    ensures var r := SortedRestaurants(restaurants, sortBy);
      && multiset(r) == multiset(restaurants)
      && SameTieOrder(r, restaurants, Rank(sortBy))
      && (sortBy == Rating ==> forall i, j :: 0 <= i < j < |r| ==> r[i].ratingTenths >= r[j].ratingTenths)
      && (sortBy == DeliveryTime ==> forall i, j :: 0 <= i < j < |r| ==> r[i].deliveryTime <= r[j].deliveryTime)
      && (sortBy == CostLowToHigh ==> forall i, j :: 0 <= i < j < |r| ==> r[i].minimumOrder <= r[j].minimumOrder)
      && (sortBy == CostHighToLow ==> forall i, j :: 0 <= i < j < |r| ==> r[i].minimumOrder >= r[j].minimumOrder)
      && (sortBy == Relevance ==> forall i, j :: 0 <= i < j < |r| ==> RelevanceScore(r[i]) >= RelevanceScore(r[j]))
  {
    var r := SortedRestaurants(restaurants, sortBy);
    SortPermutes(restaurants, Rank(sortBy));
    SortSorts(restaurants, Rank(sortBy));
    SortKeepsTieOrder(restaurants, Rank(sortBy));
    forall i, j | 0 <= i < j < |r|
      ensures Rank(sortBy)(r[i]) <= Rank(sortBy)(r[j])
    {
    }
  }

  /** Sorting twice by the same option gives the same list as sorting once. */
  lemma SortRestaurantsIdempotent(restaurants: seq<Restaurant>, sortBy: SortOption)
    ensures SortedRestaurants(SortedRestaurants(restaurants, sortBy), sortBy) == SortedRestaurants(restaurants, sortBy)
  {
    SortIdempotent(restaurants, Rank(sortBy));
  }

  // ---------------------------------------------------------------------------
  // getMenuItemsByRestaurant
  // ---------------------------------------------------------------------------

  function BelongsTo(restaurantId: string): MenuItem -> bool
  {
    (item: MenuItem) => item.restaurantId == restaurantId
  }

  /** `getMenuItemsByRestaurant` */
  function MenuItemsByRestaurant(menuItems: seq<MenuItem>, restaurantId: string): (r: seq<MenuItem>)
    ensures IsSubsequence(r, menuItems)
    ensures forall i :: 0 <= i < |r| ==> r[i].restaurantId == restaurantId
  {
    FilterSubsequence(menuItems, BelongsTo(restaurantId));
    Filter(menuItems, BelongsTo(restaurantId))
  }

  /** The restaurant's items, all of them, in menu order, and no other restaurant's. */
  lemma MenuItemsByRestaurantSpec(menuItems: seq<MenuItem>, restaurantId: string)
    ensures var r := MenuItemsByRestaurant(menuItems, restaurantId);
      && IsSubsequence(r, menuItems)
      && (forall i :: 0 <= i < |r| ==> r[i].restaurantId == restaurantId)
      && (forall item: MenuItem :: item.restaurantId == restaurantId ==> multiset(r)[item] == multiset(menuItems)[item])
  {
    FilterCharacterized(menuItems, BelongsTo(restaurantId));
  }

  // ---------------------------------------------------------------------------
  // searchRestaurants
  // ---------------------------------------------------------------------------

  /** The query as the search compares it: lower-cased, then trimmed. */
  function NormalizedQuery(query: string): string
  {
    Trim(ToLower(query))
  }

  /** The lower-cased name, some lower-cased cuisine tag, or the lower-cased area contains `q`. */
  predicate MatchesQuery(r: Restaurant, q: string)
  {
    || Contains(ToLower(r.name), q)
    || (exists i :: 0 <= i < |r.cuisine| && Contains(ToLower(r.cuisine[i]), q))
    || Contains(ToLower(r.location.area), q)
  }

  function Matching(q: string): Restaurant -> bool
  {
    (r: Restaurant) => MatchesQuery(r, q)
  }

  /** `searchRestaurants`: a blank query returns the list itself. */
  function SearchRestaurants(restaurants: seq<Restaurant>, query: string): (r: seq<Restaurant>)
    ensures IsSubsequence(r, restaurants)
    ensures Trim(query) != [] ==> forall i :: 0 <= i < |r| ==> MatchesQuery(r[i], NormalizedQuery(query))
  {
    var q := NormalizedQuery(query);
    TrimLowerEmptyIff(query);
    FilterSubsequence(restaurants, Matching(q));
    IsSubsequenceRefl(restaurants);
    if q == [] then restaurants else Filter(restaurants, Matching(q))
  }

  /**
   * A query that is blank after trimming returns the input unchanged; any
   * other query returns, in input order, exactly the restaurants it matches.
   */
  lemma SearchRestaurantsSpec(restaurants: seq<Restaurant>, query: string)
    ensures Trim(query) == [] ==> SearchRestaurants(restaurants, query) == restaurants
    ensures Trim(query) != [] ==>
      var r, q := SearchRestaurants(restaurants, query), NormalizedQuery(query);
      && IsSubsequence(r, restaurants)
      && (forall i :: 0 <= i < |r| ==> MatchesQuery(r[i], q))
      && (forall x :: MatchesQuery(x, q) ==> multiset(r)[x] == multiset(restaurants)[x])
      && (r == [] <==> forall i :: 0 <= i < |restaurants| ==> !MatchesQuery(restaurants[i], q))
  {
    TrimLowerEmptyIff(query);
    var q := NormalizedQuery(query);
    if q != [] {
      MatchingSpec(restaurants, q);
    }
  }

  lemma MatchingSpec(restaurants: seq<Restaurant>, q: string)
    ensures var r := Filter(restaurants, Matching(q));
      && IsSubsequence(r, restaurants)
      && (forall i :: 0 <= i < |r| ==> MatchesQuery(r[i], q))
      && (forall x :: MatchesQuery(x, q) ==> multiset(r)[x] == multiset(restaurants)[x])
      && (r == [] <==> forall i :: 0 <= i < |restaurants| ==> !MatchesQuery(restaurants[i], q))
  {
    FilterCharacterized(restaurants, Matching(q));
    FilterNonEmpty(restaurants, Matching(q));
  }

  /** The search ignores the case of ASCII letters in the query. */
  lemma SearchIgnoresCase(restaurants: seq<Restaurant>, query: string)
    ensures SearchRestaurants(restaurants, ToUpper(query)) == SearchRestaurants(restaurants, query)
    ensures SearchRestaurants(restaurants, ToLower(query)) == SearchRestaurants(restaurants, query)
  {
    assert ToLower(ToUpper(query)) == ToLower(query);
    ToLowerIdempotent(query);
  }

  // ---------------------------------------------------------------------------
  // isRestaurantOpen
  // ---------------------------------------------------------------------------

  /** `isRestaurantOpen`: the stored flag; no opening hours are consulted. */
  function IsRestaurantOpen(r: Restaurant): (open: bool)
    ensures open <==> r.isOpen
  {
    r.isOpen
  }
}
