/**
 * The restaurant listing page: three pieces of state (the search query, the
 * sort option and the selected cuisines), the handlers that change them, and
 * the list shown, which is the search, then the cuisine filter, then the sort
 * applied to the full catalogue.
 */
module RestaurantsPage {
  import opened Types
  import opened Seqs
  import opened Sorting
  import opened Text
  import opened RestaurantQueries

  function Other(cuisine: string): string -> bool
  {
    (c: string) => c != cuisine
  }

  /**
   * `handleCuisineToggle`'s update: a selected cuisine is removed, any other
   * is appended. The cuisine's membership flips and no other cuisine's changes.
   */
  function Toggled(selected: seq<string>, cuisine: string): (r: seq<string>)
    ensures cuisine in r <==> cuisine !in selected
    ensures forall c :: c != cuisine ==> (c in r <==> c in selected)
  {
    FilterCharacterized(selected, Other(cuisine));
    if cuisine in selected then Filter(selected, Other(cuisine)) else selected + [cuisine]
  }

  /**
   * Toggling a selected cuisine removes every copy of it and keeps the
   * others in order; toggling any other cuisine appends it. Either way the
   * cuisine's membership flips.
   */
  lemma ToggledSpec(selected: seq<string>, cuisine: string)
    ensures var r := Toggled(selected, cuisine);
      && (cuisine in r <==> cuisine !in selected)
      && (cuisine in selected ==>
            IsSubsequence(r, selected) && forall c :: c != cuisine ==> multiset(r)[c] == multiset(selected)[c])
      && (cuisine !in selected ==> r == selected + [cuisine])
  {
    FilterCharacterized(selected, Other(cuisine));
  }

  /** Toggling an unselected cuisine twice restores the selection. */
  lemma ToggleTwice(selected: seq<string>, cuisine: string)
    requires cuisine !in selected
    ensures Toggled(Toggled(selected, cuisine), cuisine) == selected
  {
    FilterAppend(selected, [cuisine], Other(cuisine));
    FilterAll(selected, Other(cuisine));
  }

  /** A selection built by toggling never lists a cuisine twice. */
  lemma ToggleKeepsNoDuplicates(selected: seq<string>, cuisine: string)
    requires NoDuplicates(selected)
    ensures NoDuplicates(Toggled(selected, cuisine))
  {
    if cuisine in selected {
      FilterKeepsNoDuplicates(selected, Other(cuisine));
    }
  }

  /** The criteria object the page passes to `filterRestaurants`: only the cuisines. */
  function CuisineFilter(selected: seq<string>): FilterOptions
  {
    NoFilters.(cuisines := Some(selected))
  }

  /** The search step of the page: run only for a query that is not blank. */
  function Searched(restaurants: seq<Restaurant>, query: string): seq<Restaurant>
  {
    if Trim(query) != [] then SearchRestaurants(restaurants, query) else restaurants
  }

  /** The filter step of the page: run only when some cuisine is selected. */
  function CuisineFiltered(restaurants: seq<Restaurant>, selected: seq<string>): seq<Restaurant>
  {
    if |selected| > 0 then FilteredRestaurants(restaurants, CuisineFilter(selected)) else restaurants
  }

  /** `filteredAndSortedRestaurants`: search if the query is not blank, filter if cuisines are selected, sort. */
  function Pipeline(restaurants: seq<Restaurant>, query: string, selected: seq<string>, sortBy: SortOption): (r: seq<Restaurant>)
    ensures |r| <= |restaurants|
    ensures forall i :: 0 <= i < |r| ==> Shown(r[i], query, selected)
  {
    var searched := Searched(restaurants, query);
    var filtered := CuisineFiltered(searched, selected);
    SearchedCounts(restaurants, query);
    CuisineFilteredCounts(searched, selected);
    SortPermutes(filtered, Rank(sortBy));
    var r := SortedRestaurants(filtered, sortBy);
    assert |r| == |multiset(r)| == |multiset(filtered)| == |filtered|;
    assert forall i :: 0 <= i < |r| ==> multiset(filtered)[r[i]] > 0;
    r
  }

  /** The restaurants the page's state lets through: matched by a non-blank query and serving a selected cuisine. */
  predicate Shown(r: Restaurant, query: string, selected: seq<string>)
  {
    && (Trim(query) != [] ==> MatchesQuery(r, NormalizedQuery(query)))
    && (|selected| > 0 ==> ServesAnyOf(r, selected))
  }

  lemma SearchedCounts(restaurants: seq<Restaurant>, query: string)
    ensures forall x ::
      multiset(Searched(restaurants, query))[x] ==
        if Trim(query) != [] ==> MatchesQuery(x, NormalizedQuery(query)) then multiset(restaurants)[x] else 0
  {
    TrimLowerEmptyIff(query);
    if Trim(query) != [] {
      FilterMultiset(restaurants, Matching(NormalizedQuery(query)));
    }
  }

  lemma CuisineFilteredCounts(restaurants: seq<Restaurant>, selected: seq<string>)
    ensures forall x ::
      multiset(CuisineFiltered(restaurants, selected))[x] ==
        if |selected| > 0 ==> ServesAnyOf(x, selected) then multiset(restaurants)[x] else 0
  {
    if |selected| > 0 {
      FilterMultiset(restaurants, Meets(CuisineFilter(selected)));
    }
  }

  /**
   * The list shown holds every restaurant the query and the selection let
   * through, as often as the catalogue does, and nothing else, in the order
   * the sort option asks for.
   */
  lemma PipelineSpec(restaurants: seq<Restaurant>, query: string, selected: seq<string>, sortBy: SortOption)
    ensures var r := Pipeline(restaurants, query, selected, sortBy);
      && (forall x :: multiset(r)[x] == if Shown(x, query, selected) then multiset(restaurants)[x] else 0)
      && SortedBy(r, Rank(sortBy))
      && var kept := CuisineFiltered(Searched(restaurants, query), selected);
         IsSubsequence(kept, restaurants) && SameTieOrder(r, kept, Rank(sortBy))
  {
    var searched := Searched(restaurants, query);
    var filtered := CuisineFiltered(searched, selected);
    SearchedCounts(restaurants, query);
    CuisineFilteredCounts(searched, selected);
    SortPermutes(filtered, Rank(sortBy));
    SortSorts(filtered, Rank(sortBy));
    SortKeepsTieOrder(filtered, Rank(sortBy));
    KeptInCatalogueOrder(restaurants, query, selected);
  }

  /** The search and the cuisine filter only delete restaurants: the rest keep their catalogue order. */
  lemma KeptInCatalogueOrder(restaurants: seq<Restaurant>, query: string, selected: seq<string>)
    ensures IsSubsequence(CuisineFiltered(Searched(restaurants, query), selected), restaurants)
  {
    var searched := Searched(restaurants, query);
    var filtered := CuisineFiltered(searched, selected);
    IsSubsequenceRefl(restaurants);
    IsSubsequenceRefl(searched);
    if |selected| > 0 {
      FilterSubsequence(searched, Meets(CuisineFilter(selected)));
    }
    IsSubsequenceTrans(filtered, searched, restaurants);
  }

  /** With a blank query and no cuisine selected, the page lists the whole catalogue, sorted. */
  lemma PipelineWithoutCriteria(restaurants: seq<Restaurant>, query: string, sortBy: SortOption)
    requires Trim(query) == []
    ensures Pipeline(restaurants, query, [], sortBy) == SortedRestaurants(restaurants, sortBy)
  {
  }

  /** `RestaurantsPage`: the component's state and its event handlers. */
  class RestaurantsPage {
    /** `mockRestaurants`, the catalogue the page lists. */
    const restaurants: seq<Restaurant>
    var searchQuery: string
    var sortBy: SortOption
    var selectedCuisines: seq<string>

    /** The `useState` initial values: an empty query, relevance order, no cuisine. */
    constructor(restaurants: seq<Restaurant>)
      ensures this.restaurants == restaurants
      ensures searchQuery == "" && sortBy == Relevance && selectedCuisines == []
      ensures Valid()
    {
      this.restaurants := restaurants;
      searchQuery := "";
      sortBy := Relevance;
      selectedCuisines := [];
    }

    /** The selection lists each cuisine at most once. */
    ghost predicate Valid()
      reads this
    {
      NoDuplicates(selectedCuisines)
    }

    /** `handleCuisineToggle`, also behind the North Indian and South Indian quick filters. */
    method HandleCuisineToggle(cuisine: string)
      requires Valid()
      modifies this
      ensures selectedCuisines == Toggled(old(selectedCuisines), cuisine)
      ensures searchQuery == old(searchQuery) && sortBy == old(sortBy)
      ensures Valid()
    {
      ToggleKeepsNoDuplicates(selectedCuisines, cuisine);
      if cuisine in selectedCuisines {
        selectedCuisines := Filter(selectedCuisines, Other(cuisine));
      } else {
        selectedCuisines := selectedCuisines + [cuisine];
      }
    }

    /** The search bar's `onSearch`. */
    method SetSearchQuery(query: string)
      modifies this
      ensures searchQuery == query
      ensures sortBy == old(sortBy) && selectedCuisines == old(selectedCuisines)
    {
      searchQuery := query;
    }

    /** The search bar's `onSortChange`. */
    method SetSortBy(option: SortOption)
      modifies this
      ensures sortBy == option
      ensures searchQuery == old(searchQuery) && selectedCuisines == old(selectedCuisines)
    {
      sortBy := option;
    }

    /** "Top Rated": switches to rating order when some restaurant is rated 4.5 or more. */
    method TopRated()
      modifies this
      ensures sortBy == if exists i :: 0 <= i < |restaurants| && restaurants[i].ratingTenths >= 45 then Rating else old(sortBy)
      ensures searchQuery == old(searchQuery) && selectedCuisines == old(selectedCuisines)
    {
      var filtered := FilterRestaurants(restaurants, NoFilters.(rating := Some(45)));
      FilterByRating(restaurants, 45);
      if |filtered| > 0 {
        sortBy := Rating;
      }
    }

    /** "Fast Delivery": switches to delivery-time order. */
    method FastDelivery()
      modifies this
      ensures sortBy == DeliveryTime
      ensures searchQuery == old(searchQuery) && selectedCuisines == old(selectedCuisines)
    {
      sortBy := DeliveryTime;
    }

    /** "Pure Veg": clears the cuisine selection when some restaurant is pure veg; it filters nothing itself. */
    method PureVeg()
      modifies this
      ensures selectedCuisines == if exists i :: 0 <= i < |restaurants| && restaurants[i].isPureVeg then [] else old(selectedCuisines)
      ensures searchQuery == old(searchQuery) && sortBy == old(sortBy)
      ensures old(Valid()) ==> Valid()
    {
      var vegRestaurants := Filter(restaurants, (r: Restaurant) => r.isPureVeg);
      FilterNonEmpty(restaurants, (r: Restaurant) => r.isPureVeg);
      if |vegRestaurants| > 0 {
        selectedCuisines := [];
      }
    }

    /** "Clear All Filters": back to the initial state. */
    method ClearAllFilters()
      modifies this
      ensures searchQuery == "" && selectedCuisines == [] && sortBy == Relevance
      ensures Valid()
    {
      searchQuery := "";
      selectedCuisines := [];
      sortBy := Relevance;
    }

    /** `filteredAndSortedRestaurants`: reassigns `results` step by step through the helpers. */
    method FilteredAndSortedRestaurants() returns (results: seq<Restaurant>)
      ensures results == Pipeline(restaurants, searchQuery, selectedCuisines, sortBy)
    {
      results := restaurants;
      if Trim(searchQuery) != [] {
        results := SearchRestaurants(results, searchQuery);
      }
      if |selectedCuisines| > 0 {
        results := FilterRestaurants(results, CuisineFilter(selectedCuisines));
      }
      results := SortRestaurants(results, sortBy);
    }
  }
}
