/**
 * `getPopularCuisines`: counts every cuisine tag over all restaurants in a
 * `Map` (whose entries keep the order in which each tag was first met), sorts
 * the entries by descending count with a stable sort, keeps the first ten and
 * returns their names.
 */
module CuisineRanking {
  import opened Types
  import opened Seqs
  import opened Sorting

  /** The tags in the order the nested loops visit them. */
  function Tags(restaurants: seq<Restaurant>): seq<string>
  {
    if restaurants == [] then []
    else Tags(restaurants[..|restaurants| - 1]) + restaurants[|restaurants| - 1].cuisine
  }

  /** How many times `c` occurs as a cuisine tag. */
  function Count(restaurants: seq<Restaurant>, c: string): nat
  {
    multiset(Tags(restaurants))[c]
  }

  /** The counting map after a scan of `tags`: every tag met, with its number of occurrences. */
  function Tally(tags: seq<string>): map<string, nat>
  {
    map c | c in tags :: multiset(tags)[c]
  }

  /** `cuisineCount.set(cuisine, (cuisineCount.get(cuisine) || 0) + 1)` */
  function Bump(counts: map<string, nat>, c: string): map<string, nat>
  {
    counts[c := (if c in counts then counts[c] else 0) + 1]
  }

  /** The `[tag, count]` entries of a map whose keys were inserted in the order `order`. */
  function Entries(order: seq<string>, counts: map<string, nat>): seq<(string, nat)>
    requires forall i :: 0 <= i < |order| ==> order[i] in counts
  {
    seq(|order|, i requires 0 <= i < |order| && order[i] in counts => (order[i], counts[order[i]]))
  }

  /** `Array.from(cuisineCount.entries())` after a scan of `tags`. */
  function TagCounts(tags: seq<string>): seq<(string, nat)>
  {
    Entries(Distinct(tags), Tally(tags))
  }

  /** The comparator `(a, b) => b[1] - a[1]` as an ascending key. */
  function ByCount(): ((string, nat)) -> int
  {
    (e: (string, nat)) => -(e.1 as int)
  }

  function Names(entries: seq<(string, nat)>): seq<string>
  {
    seq(|entries|, i requires 0 <= i < |entries| => entries[i].0)
  }

  /** The entries sorted by descending count, ties in first-seen order. */
  function Ranked(tags: seq<string>): seq<(string, nat)>
  {
    InsertionSort(TagCounts(tags), ByCount())
  }

  /** How many names `.slice(0, 10)` keeps out of `n`. */
  function Shown(n: nat): nat
  {
    if n < 10 then n else 10
  }

  /** The ten most frequent tags of `tags`, most frequent first. */
  function TopTags(tags: seq<string>): seq<string>
  {
    var ranked := Ranked(tags);
    Names(ranked[..Shown(|ranked|)])
  }

  /** The result of `getPopularCuisines`: at most ten tags, each one some restaurant's. */
  function PopularCuisines(restaurants: seq<Restaurant>): (p: seq<string>)
    ensures |p| <= 10
    ensures forall i :: 0 <= i < |p| ==> p[i] in Tags(restaurants)
  {
    TopTagsSpec(Tags(restaurants));
    TopTags(Tags(restaurants))
  }

  /** Counting one more tag: a new tag enters with 1, a known one goes up by 1. */
  lemma TallyStep(tags: seq<string>, c: string)
    ensures Tally(tags + [c]) == Bump(Tally(tags), c)
  {
    var s := tags + [c];
    assert multiset(s) == multiset(tags) + multiset{c};
    if c !in tags {
      assert multiset(tags)[c] == 0;
    }
    var t, u := Tally(s), Bump(Tally(tags), c);
    assert t.Keys == u.Keys;
    forall k | k in t
      ensures t[k] == u[k]
    {
    }
  }

  /** The callback of the inner `forEach`: counts one tag, adding it as a new key if unseen. */
  method CountTag(ghost scanned: seq<string>, order: seq<string>, counts: map<string, nat>, c: string)
    returns (order': seq<string>, counts': map<string, nat>)
    requires order == Distinct(scanned) && counts == Tally(scanned)
    ensures order' == Distinct(scanned + [c]) && counts' == Tally(scanned + [c])
  {
    TallyStep(scanned, c);
    DistinctStep(scanned, c);
    order' := order;
    if c !in counts {
      order' := order + [c];
    }
    counts' := Bump(counts, c);
  }

  /** The inner `forEach`: counts the tags of one restaurant into the map. */
  method CountTags(ghost seen: seq<string>, order: seq<string>, counts: map<string, nat>, tags: seq<string>)
    returns (order': seq<string>, counts': map<string, nat>)
    requires order == Distinct(seen) && counts == Tally(seen)
    ensures order' == Distinct(seen + tags) && counts' == Tally(seen + tags)
  {
    order', counts' := order, counts;
    ghost var scanned := seen;
    for j := 0 to |tags|
      invariant scanned == seen + tags[..j]
      invariant order' == Distinct(scanned) && counts' == Tally(scanned)
    {
      order', counts' := CountTag(scanned, order', counts', tags[j]);
      scanned := scanned + [tags[j]];
      ExtendScan(seen, tags, j);
    }
    assert tags[..|tags|] == tags;
  }

  lemma ExtendScan(seen: seq<string>, tags: seq<string>, j: nat)
    requires j < |tags|
    ensures seen + tags[..j] + [tags[j]] == seen + tags[..j + 1]
  {
    assert tags[..j + 1] == tags[..j] + [tags[j]];
  }

  /** The outer `forEach`: the tag counts of all restaurants and the order their keys entered. */
  method CountCuisines(restaurants: seq<Restaurant>) returns (order: seq<string>, counts: map<string, nat>)
    ensures order == Distinct(Tags(restaurants)) && counts == Tally(Tags(restaurants))
  {
    order, counts := [], map[];
    assert Tally([]) == map[];
    for i := 0 to |restaurants|
      invariant order == Distinct(Tags(restaurants[..i]))
      invariant counts == Tally(Tags(restaurants[..i]))
    {
      order, counts := CountTags(Tags(restaurants[..i]), order, counts, restaurants[i].cuisine);
      assert restaurants[..i + 1][..i] == restaurants[..i];
    }
    assert restaurants[..|restaurants|] == restaurants;
  }

  /** `getPopularCuisines`: the counting loops, then a sort of the entries in place. */
  method GetPopularCuisines(restaurants: seq<Restaurant>) returns (popular: seq<string>)
    ensures popular == PopularCuisines(restaurants)
  {
    var order, counts := CountCuisines(restaurants);
    var entries := new (string, nat)[|order|](k requires 0 <= k < |order| && order[k] in counts => (order[k], counts[order[k]]));
    assert entries[..] == TagCounts(Tags(restaurants));
    SortInPlace(entries, ByCount());
    var n := if entries.Length < 10 then entries.Length else 10;
    popular := Names(entries[..n]);
  }

  /** Every entry pairs a tag with its true number of occurrences. */
  ghost predicate TrueCounts(entries: seq<(string, nat)>, tags: seq<string>)
  {
    forall i :: 0 <= i < |entries| ==> entries[i].0 in tags && entries[i].1 == multiset(tags)[entries[i].0]
  }

  /** The entries list each tag once, in first-seen order, with its count. */
  lemma TagCountsSpec(tags: seq<string>)
    ensures var e := TagCounts(tags);
      && TrueCounts(e, tags)
      && Names(e) == Distinct(tags)
      && NoDuplicates(e)
  {
    var e := TagCounts(tags);
    assert Names(e) == Distinct(tags);
    forall i, j | 0 <= i < j < |e|
      ensures e[i] != e[j]
    {
      assert e[i].0 == Names(e)[i] && e[j].0 == Names(e)[j];
    }
  }

  /** Ranking only rearranges the entries, so each keeps its true count. */
  lemma RankedTrueCounts(tags: seq<string>)
    ensures TrueCounts(Ranked(tags), tags)
  {
    var e, r := TagCounts(tags), Ranked(tags);
    TagCountsSpec(tags);
    forall i | 0 <= i < |r|
      ensures r[i].0 in tags && r[i].1 == multiset(tags)[r[i].0]
    {
      InSortedIffIn(e, ByCount(), r[i]);
      var a :| 0 <= a < |e| && e[a] == r[i];
    }
  }

  /** Every tag has an entry in the ranking. */
  lemma RankedComplete(tags: seq<string>, c: string) returns (q: nat)
    requires c in tags
    ensures q < |Ranked(tags)| && Ranked(tags)[q].0 == c
  {
    var e, r := TagCounts(tags), Ranked(tags);
    TagCountsSpec(tags);
    assert c in Names(e);
    var a :| 0 <= a < |e| && Names(e)[a] == c;
    InSortedIffIn(e, ByCount(), e[a]);
    q :| 0 <= q < |r| && r[q] == e[a];
  }

  /** The ranking holds each distinct tag once, by non-increasing count. */
  lemma RankedShape(tags: seq<string>)
    ensures var r := Ranked(tags);
      && NoDuplicates(r)
      && |r| == |Distinct(tags)|
      && (forall i, j :: 0 <= i < j < |r| ==> r[i].1 >= r[j].1)
  {
    var e, r := TagCounts(tags), Ranked(tags);
    TagCountsSpec(tags);
    SortPermutes(e, ByCount());
    SortKeepsNoDuplicates(e, ByCount());
    SortSorts(e, ByCount());
    assert |multiset(r)| == |multiset(e)|;
    forall i, j | 0 <= i < j < |r|
      ensures r[i].1 >= r[j].1
    {
      assert ByCount()(r[i]) <= ByCount()(r[j]);
    }
  }

  /**
   * The result has at most ten names, as many as there are distinct tags up
   * to ten, each a tag of the input and none twice, ordered by non-increasing
   * number of occurrences; a tag left out occurs no more often than any shown.
   */
  lemma TopTagsSpec(tags: seq<string>)
    ensures var p := TopTags(tags);
      && |p| == Shown(|Distinct(tags)|)
      && NoDuplicates(p)
      && (forall i :: 0 <= i < |p| ==> p[i] in tags)
      && (forall i, j :: 0 <= i < j < |p| ==> multiset(tags)[p[i]] >= multiset(tags)[p[j]])
      && (forall c, i :: c in tags && c !in p && 0 <= i < |p| ==> multiset(tags)[p[i]] >= multiset(tags)[c])
  {
    var p, r := TopTags(tags), Ranked(tags);
    RankedShape(tags);
    RankedTrueCounts(tags);
    assert forall i :: 0 <= i < |p| ==> p[i] == r[i].0;
    forall i, j | 0 <= i < j < |p|
      ensures p[i] != p[j]
    {
      assert r[i] != r[j];
    }
    forall c, i | c in tags && c !in p && 0 <= i < |p|
      ensures multiset(tags)[p[i]] >= multiset(tags)[c]
    {
      var q := RankedComplete(tags, c);
      assert q >= |p|;
    }
  }

  /** `TopTagsSpec` for the cuisine tags of a restaurant list. */
  lemma PopularCuisinesSpec(restaurants: seq<Restaurant>)
    ensures var p := PopularCuisines(restaurants);
      && |p| <= 10
      && |p| == Shown(|Distinct(Tags(restaurants))|)
      && NoDuplicates(p)
      && (forall i :: 0 <= i < |p| ==> p[i] in Tags(restaurants))
      && (forall i, j :: 0 <= i < j < |p| ==> Count(restaurants, p[i]) >= Count(restaurants, p[j]))
      && (forall c, i :: c in Tags(restaurants) && c !in p && 0 <= i < |p| ==>
            Count(restaurants, p[i]) >= Count(restaurants, c))
  {
    TopTagsSpec(Tags(restaurants));
  }

  /**
   * Tags with equal counts appear in the order in which the scan first met
   * them: the stable sort keeps the entries' first-seen order among ties.
   */
  lemma PopularCuisinesTies(restaurants: seq<Restaurant>)
    ensures var p, tags := PopularCuisines(restaurants), Tags(restaurants);
      forall i, j :: 0 <= i < j < |p| && Count(restaurants, p[i]) == Count(restaurants, p[j]) ==>
        p[i] in tags && p[j] in tags && IndexOf(tags, p[i]) < IndexOf(tags, p[j])
  {
    var tags := Tags(restaurants);
    var p, r := TopTags(tags), Ranked(tags);
    RankedTrueCounts(tags);
    assert forall i :: 0 <= i < |p| ==> p[i] == r[i].0;
    forall i, j | 0 <= i < j < |p| && Count(restaurants, p[i]) == Count(restaurants, p[j])
      ensures p[i] in tags && p[j] in tags && IndexOf(tags, p[i]) < IndexOf(tags, p[j])
    {
      RankedTiePair(tags, i, j);
    }
  }

  lemma RankedTiePair(tags: seq<string>, i: nat, j: nat)
    requires var r := Ranked(tags); i < j < |r| && r[i].1 == r[j].1
    ensures var r := Ranked(tags);
      r[i].0 in tags && r[j].0 in tags && IndexOf(tags, r[i].0) < IndexOf(tags, r[j].0)
  {
    var e, r := TagCounts(tags), Ranked(tags);
    TagCountsSpec(tags);
    SortKeepsInputOrderOfTies(e, ByCount());
    assert ByCount()(r[i]) == ByCount()(r[j]);
    assert r == InsertionSort(e, ByCount());
    assert r[i] in e && r[j] in e && IndexOf(e, r[i]) < IndexOf(e, r[j]);
    var a, b := IndexOf(e, r[i]), IndexOf(e, r[j]);
    assert Names(e)[a] == r[i].0 && Names(e)[b] == r[j].0;
    DistinctFirstSeenOrder(tags);
  }

  /** Restaurants tagged ["A", "B"], ["A"] and ["C"]: "A" counts twice and leads, then "B" and "C" in first-seen order. */
  lemma PopularCuisinesExample(r: Restaurant)
    ensures PopularCuisines([r.(cuisine := ["A", "B"]), r.(cuisine := ["A"]), r.(cuisine := ["C"])]) == ["A", "B", "C"]
  {
    var rs := [r.(cuisine := ["A", "B"]), r.(cuisine := ["A"]), r.(cuisine := ["C"])];
    assert Tags(rs[..1]) == ["A", "B"] by { assert rs[..1][..0] == []; }
    assert Tags(rs[..2]) == ["A", "B", "A"] by { assert rs[..2][..1] == rs[..1]; }
    assert Tags(rs) == ["A", "B", "A", "C"] by { assert rs[..2] == rs[..|rs| - 1]; }
    TopTagsExample();
  }

  lemma TopTagsExample()
    ensures TopTags(["A", "B", "A", "C"]) == ["A", "B", "C"]
  {
    var e := TagCounts(["A", "B", "A", "C"]);
    TagCountsExample();
    ExampleSorted();
    SortOfSorted(e, ByCount());
    assert Names(e) == ["A", "B", "C"];
  }

  lemma ExampleSorted()
    ensures SortedBy([("A", 2), ("B", 1), ("C", 1)], ByCount())
  {
  }

  lemma TagCountsExample()
    ensures TagCounts(["A", "B", "A", "C"]) == [("A", 2), ("B", 1), ("C", 1)]
  {
    var tags := ["A", "B", "A", "C"];
    DistinctExample();
    assert multiset(tags)["A"] == 2 && multiset(tags)["B"] == 1 && multiset(tags)["C"] == 1;
  }

  lemma DistinctExample()
    ensures Distinct(["A", "B", "A", "C"]) == ["A", "B", "C"]
  {
    var tags := ["A", "B", "A", "C"];
    assert Distinct(tags[..1]) == ["A"] by { assert tags[..1][..0] == []; }
    assert Distinct(tags[..2]) == ["A", "B"] by { assert tags[..2][..1] == tags[..1]; }
    assert Distinct(tags[..3]) == ["A", "B"] by { assert tags[..3][..2] == tags[..2]; }
    assert tags[..3] == tags[..|tags| - 1];
  }
}
