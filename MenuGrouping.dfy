/**
 * `groupMenuItemsByCategory`: a left-to-right scan over the menu that opens a
 * group the first time a category is met and appends every item to the group
 * of its category.
 *
 * The result is a plain object, whose string keys enumerate in insertion
 * order; it is modelled as that key order together with a map from each key
 * to its group.
 */
module MenuGrouping {
  import opened Types
  import opened Seqs

  datatype Grouping = Grouping(categories: seq<string>, groups: map<string, seq<MenuItem>>)

  function Categories(items: seq<MenuItem>): seq<string>
  {
    seq(|items|, i requires 0 <= i < |items| => items[i].category)
  }

  function InCategory(c: string): MenuItem -> bool
  {
    (item: MenuItem) => item.category == c
  }

  /**
   * The grouping a scan of `items` produces: the categories in the order they
   * are first met, each mapped to its items in menu order.
   */
  function GroupedByCategory(items: seq<MenuItem>): Grouping
  {
    var cs := Categories(items);
    Grouping(Distinct(cs), map c | c in cs :: Filter(items, InCategory(c)))
  }

  /** One step of the scan: a new category opens a group at the end; the item joins its group. */
  function AddItem(g: Grouping, item: MenuItem): Grouping
  {
    var c := item.category;
    if c in g.groups then Grouping(g.categories, g.groups[c := g.groups[c] + [item]])
    else Grouping(g.categories + [c], g.groups[c := [item]])
  }

  lemma GroupStep(items: seq<MenuItem>, item: MenuItem)
    ensures GroupedByCategory(items + [item]) == AddItem(GroupedByCategory(items), item)
  {
    CategoriesAppend(items, item);
    DistinctAppend(Categories(items), item.category);
    GroupMapStep(items, item);
  }

  lemma CategoriesAppend(items: seq<MenuItem>, item: MenuItem)
    ensures Categories(items + [item]) == Categories(items) + [item.category]
  {
  }

  lemma GroupMapStep(items: seq<MenuItem>, item: MenuItem)
    ensures GroupedByCategory(items + [item]).groups == AddItem(GroupedByCategory(items), item).groups
  {
    GroupKeysStep(items, item);
    forall k | k in GroupedByCategory(items + [item]).groups
      ensures GroupedByCategory(items + [item]).groups[k] == AddItem(GroupedByCategory(items), item).groups[k]
    {
      GroupValueAt(items, item, k);
    }
  }

  /** The scan opens a group exactly for the item's category. */
  lemma GroupKeysStep(items: seq<MenuItem>, item: MenuItem)
    ensures GroupedByCategory(items + [item]).groups.Keys == GroupedByCategory(items).groups.Keys + {item.category}
  {
    CategoriesAppend(items, item);
  }

  /** The group of `k` after the step is the one `AddItem` computes. */
  lemma GroupValueAt(items: seq<MenuItem>, item: MenuItem, k: string)
    requires k in GroupedByCategory(items + [item]).groups
    ensures k in AddItem(GroupedByCategory(items), item).groups
    ensures GroupedByCategory(items + [item]).groups[k] == AddItem(GroupedByCategory(items), item).groups[k]
  {
    CategoriesAppend(items, item);
    GroupLookup(items + [item], k);
    GroupLookup(items, k);
    GroupValueStep(items, item, k);
  }

  /** The grouping has a group for `k` exactly when some item has category `k`, and it is their filter. */
  lemma GroupLookup(items: seq<MenuItem>, k: string)
    ensures k in GroupedByCategory(items).groups <==> k in Categories(items)
    ensures k in Categories(items) ==> GroupedByCategory(items).groups[k] == Filter(items, InCategory(k))
  {
  }

  lemma GroupValueStep(items: seq<MenuItem>, item: MenuItem, k: string)
    ensures Filter(items + [item], InCategory(k)) ==
      if k != item.category then Filter(items, InCategory(k))
      else if k in Categories(items) then Filter(items, InCategory(k)) + [item]
      else [item]
  {
    FilterAppend(items, [item], InCategory(k));
    if k == item.category && k !in Categories(items) {
      forall i | 0 <= i < |items|
        ensures !InCategory(k)(items[i])
      {
        assert Categories(items)[i] == items[i].category;
      }
      FilterNonEmpty(items, InCategory(k));
    }
  }

  /** The `reduce` callback: opens an empty group for a new category, then pushes the item onto its group. */
  method AddToGroup(categories: seq<string>, groups: map<string, seq<MenuItem>>, item: MenuItem)
    returns (categories': seq<string>, groups': map<string, seq<MenuItem>>)
    ensures Grouping(categories', groups') == AddItem(Grouping(categories, groups), item)
  {
    categories', groups' := categories, groups;
    if item.category !in groups' {
      categories' := categories' + [item.category];
      groups' := groups'[item.category := []];
    }
    groups' := groups'[item.category := groups'[item.category] + [item]];
    if item.category !in groups {
      assert [] + [item] == [item];
      assert groups' == groups[item.category := [item]];
    }
  }

  /** The grouping of one more item of the menu is the previous one with that item added. */
  lemma ScanStep(items: seq<MenuItem>, i: nat)
    requires i < |items|
    ensures GroupedByCategory(items[..i + 1]) == AddItem(GroupedByCategory(items[..i]), items[i])
  {
    assert items[..i + 1] == items[..i] + [items[i]];
    GroupStep(items[..i], items[i]);
  }

  /** `groupMenuItemsByCategory`: the `reduce` over the menu with a mutable accumulator. */
  method GroupMenuItemsByCategory(items: seq<MenuItem>) returns (g: Grouping)
    ensures g == GroupedByCategory(items)
  {
    var categories: seq<string> := [];
    var groups: map<string, seq<MenuItem>> := map[];
    assert GroupedByCategory(items[..0]).groups == map[];
    for i := 0 to |items|
      invariant Grouping(categories, groups) == GroupedByCategory(items[..i])
    {
      categories, groups := AddToGroup(categories, groups, items[i]);
      ScanStep(items, i);
    }
    assert items[..|items|] == items;
    g := Grouping(categories, groups);
  }

  /**
   * The keys are exactly the categories of the input, each listed once, in the
   * order of their first item; an empty menu gives no groups.
   */
  lemma GroupKeys(items: seq<MenuItem>)
    ensures var g := GroupedByCategory(items);
      && g.groups.Keys == (set i | 0 <= i < |items| :: items[i].category)
      && (forall k :: k in g.groups <==> k in g.categories)
      && NoDuplicates(g.categories)
      && (forall i, j :: 0 <= i < j < |g.categories| ==>
            IndexOf(Categories(items), g.categories[i]) < IndexOf(Categories(items), g.categories[j]))
      && (items == [] ==> g.groups == map[] && g.categories == [])
  {
    var cs := Categories(items);
    var g := GroupedByCategory(items);
    DistinctFirstSeenOrder(cs);
    forall k | k in g.groups
      ensures k in (set i | 0 <= i < |items| :: items[i].category)
    {
      var i :| 0 <= i < |cs| && cs[i] == k;
      assert items[i].category == k;
    }
    forall k | k in (set i | 0 <= i < |items| :: items[i].category)
      ensures k in g.groups
    {
      var i :| 0 <= i < |items| && items[i].category == k;
      assert cs[i] == k;
    }
  }


  /**
   * Every group is the in-order subsequence of the items of its category: it
   * is non-empty, holds only that category, and holds every item of it.
   */
  lemma GroupContents(items: seq<MenuItem>, k: string)
    requires k in GroupedByCategory(items).groups
    ensures var group := GroupedByCategory(items).groups[k];
      && group != []
      && IsSubsequence(group, items)
      && (forall i :: 0 <= i < |group| ==> group[i].category == k)
      && (forall x: MenuItem :: x.category == k ==> multiset(group)[x] == multiset(items)[x])
  {
    var cs := Categories(items);
    FilterCharacterized(items, InCategory(k));
    FilterNonEmpty(items, InCategory(k));
    var i :| 0 <= i < |cs| && cs[i] == k;
    assert InCategory(k)(items[i]);
  }

  /** The total size of the groups listed under `keys`. */
  function GroupSizes(keys: seq<string>, groups: map<string, seq<MenuItem>>): nat
  {
    if keys == [] then 0
    else
      var k := keys[|keys| - 1];
      GroupSizes(keys[..|keys| - 1], groups) + (if k in groups then |groups[k]| else 0)
  }

  lemma {:induction false} GroupSizesUnlisted(keys: seq<string>, groups: map<string, seq<MenuItem>>, c: string, v: seq<MenuItem>)
    requires c !in keys
    ensures GroupSizes(keys, groups[c := v]) == GroupSizes(keys, groups)
  {
    if keys != [] {
      GroupSizesUnlisted(keys[..|keys| - 1], groups, c, v);
    }
  }

  lemma {:induction false} GroupSizesListed(keys: seq<string>, groups: map<string, seq<MenuItem>>, c: string, v: seq<MenuItem>)
    requires c in keys && c in groups && NoDuplicates(keys)
    ensures GroupSizes(keys, groups[c := v]) == GroupSizes(keys, groups) - |groups[c]| + |v|
  {
    var init := keys[..|keys| - 1];
    if keys[|keys| - 1] == c {
      assert c !in init;
      GroupSizesUnlisted(init, groups, c, v);
    } else {
      assert c in init;
      GroupSizesListed(init, groups, c, v);
    }
  }

  /** The groups together hold as many items as the menu: nothing is lost or duplicated. */
  lemma {:induction false} GroupSizesSum(items: seq<MenuItem>)
    ensures var g := GroupedByCategory(items); GroupSizes(g.categories, g.groups) == |items|
  {
    if items == [] {
      assert GroupedByCategory(items).categories == [];
    } else {
      var init, item := items[..|items| - 1], items[|items| - 1];
      assert items == init + [item];
      GroupSizesSum(init);
      GroupStep(init, item);
      var g, c := GroupedByCategory(init), item.category;
      assert NoDuplicates(g.categories) && (c in g.groups <==> c in g.categories) by {
        GroupKeys(init);
      }
      if c in g.groups {
        GroupSizesListed(g.categories, g.groups, c, g.groups[c] + [item]);
      } else {
        GroupSizesUnlisted(g.categories, g.groups, c, [item]);
        assert (g.categories + [c])[..|g.categories|] == g.categories;
      }
    }
  }

  // ---------------------------------------------------------------------------
  // The accumulator as written is a plain object literal, which inherits the
  // properties of `Object.prototype`. For a category such as "constructor" the
  // presence test reads the inherited (truthy) property, no group is opened,
  // and `push` is then called on a function: the reduce throws a TypeError.
  // ---------------------------------------------------------------------------

  /** The names every plain object inherits from `Object.prototype`. */
  const InheritedKeys: set<string> := {
    "constructor", "hasOwnProperty", "isPrototypeOf", "propertyIsEnumerable",
    "toLocaleString", "toString", "valueOf", "__proto__",
    "__defineGetter__", "__defineSetter__", "__lookupGetter__", "__lookupSetter__"}

  /** The scan over a `{}` accumulator: `None` stands for the thrown TypeError. */
  function GroupOnPlainObject(items: seq<MenuItem>): (r: Option<Grouping>)
    ensures r.None? ==> HasInheritedCategory(items)
  {
    if items == [] then Some(Grouping([], map[]))
    else
      var init, item := items[..|items| - 1], items[|items| - 1];
      assert items == init + [item];
      InheritedCategoryAppend(init, item);
      match GroupOnPlainObject(init)
      case None => None
      case Some(g) =>
        if item.category !in g.groups && item.category in InheritedKeys then None
        else Some(AddItem(g, item))
  }

  /** Some item's category is a name the plain object inherits. */
  predicate HasInheritedCategory(items: seq<MenuItem>)
  {
    exists i :: 0 <= i < |items| && items[i].category in InheritedKeys
  }

  lemma InheritedCategoryAppend(init: seq<MenuItem>, item: MenuItem)
    ensures HasInheritedCategory(init + [item]) <==> HasInheritedCategory(init) || item.category in InheritedKeys
  {
    var items := init + [item];
    if HasInheritedCategory(init) {
      var i :| 0 <= i < |init| && init[i].category in InheritedKeys;
      assert items[i] == init[i];
    }
    if item.category in InheritedKeys {
      assert items[|init|] == item;
    }
    if HasInheritedCategory(items) {
      var i :| 0 <= i < |items| && items[i].category in InheritedKeys;
      if i < |init| {
        assert items[i] == init[i];
      }
    }
  }

  /**
   * On a plain object the scan throws exactly when some category is an
   * inherited property name, and otherwise agrees with `GroupedByCategory`.
   */
  lemma {:induction false} GroupOnPlainObjectSpec(items: seq<MenuItem>)
    ensures GroupOnPlainObject(items) ==
      if HasInheritedCategory(items) then None else Some(GroupedByCategory(items))
  {
    if items != [] {
      var init, item := items[..|items| - 1], items[|items| - 1];
      assert items == init + [item];
      GroupOnPlainObjectSpec(init);
      InheritedCategoryAppend(init, item);
      if !HasInheritedCategory(init) {
        GroupStep(init, item);
        var g := GroupedByCategory(init);
        assert forall k :: k in g.groups <==> k in g.categories by {
          GroupKeys(init);
        }
      }
    }
  }

  /** A one-item menu whose category is "constructor" makes the plain-object scan throw. */
  lemma ConstructorCategoryThrows(item: MenuItem)
    requires item.category == "constructor"
    ensures GroupOnPlainObject([item]) == None
    ensures GroupedByCategory([item]).groups == map["constructor" := [item]]
  {
    GroupOnPlainObjectSpec([item]);
    assert [item][0].category in InheritedKeys;
    assert Categories([item]) == ["constructor"];
    assert Filter([item], InCategory("constructor")) == [item];
  }
}
