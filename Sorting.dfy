/**
 * The stable sort that `Array.prototype.sort` performs (ECMA-262, 10th
 * edition, section 22.1.3.27 requires stability), for a comparator of the
 * form `(a, b) => key(a) - key(b)`: elements end up in non-decreasing key
 * order and elements with equal keys keep their relative order.
 *
 * `InsertionSort` is the specification; `SortInPlace` sorts an array in place
 * and is proved to produce it. `SortedIsUnique` shows that every stable sort
 * gives this same result, so the choice of algorithm is immaterial.
 */
module Sorting {
  import opened Seqs

  ghost predicate SortedBy<T>(s: seq<T>, key: T -> int)
  {
    forall i, j :: 0 <= i < j < |s| ==> key(s[i]) <= key(s[j])
  }

  /** The predicate "has key `k`"; filtering by it gives one tie class. */
  function HasKey<T>(key: T -> int, k: int): T -> bool
  {
    x => key(x) == k
  }

  /** Every tie class of `r` lists the same elements in the same order as in `s`. */
  ghost predicate SameTieOrder<T>(r: seq<T>, s: seq<T>, key: T -> int)
  {
    forall k :: Filter(r, HasKey(key, k)) == Filter(s, HasKey(key, k))
  }

  /** Inserts `x` after every element of `s` whose key is not greater than its own. */
  function Insert<T>(s: seq<T>, x: T, key: T -> int): seq<T>
  {
    if s == [] || key(s[|s| - 1]) <= key(x) then s + [x]
    else Insert(s[..|s| - 1], x, key) + [s[|s| - 1]]
  }

  function InsertionSort<T>(s: seq<T>, key: T -> int): seq<T>
  {
    if s == [] then [] else Insert(InsertionSort(s[..|s| - 1], key), s[|s| - 1], key)
  }

  lemma {:induction false} InsertPermutes<T>(s: seq<T>, x: T, key: T -> int)
    ensures multiset(Insert(s, x, key)) == multiset(s) + multiset{x}
  {
    if s != [] && key(s[|s| - 1]) > key(x) {
      var init, last := s[..|s| - 1], s[|s| - 1];
      InsertPermutes(init, x, key);
      assert s == init + [last];
    }
  }

  lemma {:induction false} InsertSorted<T>(s: seq<T>, x: T, key: T -> int)
    requires SortedBy(s, key)
    ensures SortedBy(Insert(s, x, key), key)
  {
    if s != [] && key(s[|s| - 1]) > key(x) {
      var init, last := s[..|s| - 1], s[|s| - 1];
      InsertSorted(init, x, key);
      InsertPermutes(init, x, key);
      var ins := Insert(init, x, key);
      forall i | 0 <= i < |ins|
        ensures key(ins[i]) <= key(last)
      {
        assert ins[i] in multiset(ins);
        assert ins[i] in multiset(init) || ins[i] == x;
      }
    }
  }

  /** Inserting at the right place does not reorder any tie class. */
  lemma {:induction false} InsertTieOrder<T>(s: seq<T>, x: T, key: T -> int, k: int)
    ensures Filter(Insert(s, x, key), HasKey(key, k)) == Filter(s + [x], HasKey(key, k))
  {
    var p := HasKey(key, k);
    if s != [] && key(s[|s| - 1]) > key(x) {
      var init, last := s[..|s| - 1], s[|s| - 1];
      InsertTieOrder(init, x, key, k);
      FilterAppend(Insert(init, x, key), [last], p);
      FilterAppend(init, [x], p);
      FilterAppend(init, [last], p);
      FilterAppend(init + [last], [x], p);
      assert s == init + [last];
      // x and last have different keys, so at most one of them is kept.
      assert Filter([x], p) == [] || Filter([last], p) == [];
    }
  }

  lemma {:induction false} SortPermutes<T>(s: seq<T>, key: T -> int)
    ensures multiset(InsertionSort(s, key)) == multiset(s)
  {
    if s != [] {
      var init, last := s[..|s| - 1], s[|s| - 1];
      SortPermutes(init, key);
      InsertPermutes(InsertionSort(init, key), last, key);
      assert s == init + [last];
    }
  }

  lemma {:induction false} SortSorts<T>(s: seq<T>, key: T -> int)
    ensures SortedBy(InsertionSort(s, key), key)
  {
    if s != [] {
      SortSorts(s[..|s| - 1], key);
      InsertSorted(InsertionSort(s[..|s| - 1], key), s[|s| - 1], key);
    }
  }

  lemma {:induction false} SortKeepsTieOrder<T>(s: seq<T>, key: T -> int)
    ensures SameTieOrder(InsertionSort(s, key), s, key)
  {
    if s != [] {
      var init, last := s[..|s| - 1], s[|s| - 1];
      SortKeepsTieOrder(init, key);
      assert s == init + [last];
      forall k
        ensures Filter(InsertionSort(s, key), HasKey(key, k)) == Filter(s, HasKey(key, k))
      {
        var p := HasKey(key, k);
        InsertTieOrder(InsertionSort(init, key), last, key, k);
        FilterAppend(InsertionSort(init, key), [last], p);
        FilterAppend(init, [last], p);
      }
    }
  }

  /** Sorting an already sorted sequence leaves it unchanged. */
  lemma {:induction false} SortOfSorted<T>(s: seq<T>, key: T -> int)
    requires SortedBy(s, key)
    ensures InsertionSort(s, key) == s
  {
    if s != [] {
      var init, last := s[..|s| - 1], s[|s| - 1];
      SortOfSorted(init, key);
      assert s == init + [last];
    }
  }

  lemma SortIdempotent<T>(s: seq<T>, key: T -> int)
    ensures InsertionSort(InsertionSort(s, key), key) == InsertionSort(s, key)
  {
    SortSorts(s, key);
    SortOfSorted(InsertionSort(s, key), key);
  }

  /**
   * A sorted sequence is determined by its tie classes: any stable sort of `s`
   * (sorted, and the same tie classes as `s`) equals `InsertionSort(s, key)`.
   */
  lemma SortedIsUnique<T>(r: seq<T>, s: seq<T>, key: T -> int)
    requires SortedBy(r, key) && SameTieOrder(r, s, key)
    ensures r == InsertionSort(s, key)
  {
    var t := InsertionSort(s, key);
    SortSorts(s, key);
    SortKeepsTieOrder(s, key);
    SortedTieClassesEqual(r, t, key);
  }

  lemma {:induction false} SortedTieClassesEqual<T>(r: seq<T>, t: seq<T>, key: T -> int)
    requires SortedBy(r, key) && SortedBy(t, key)
    requires forall k :: Filter(r, HasKey(key, k)) == Filter(t, HasKey(key, k))
    ensures r == t
    decreases |r| + |t|
  {
    if r == [] || t == [] {
      // A non-empty side has a non-empty tie class that the empty side lacks.
      if r != [] {
        var k := key(r[0]);
        HasOwnTieClass(r, key);
        assert false;
      } else if t != [] {
        var k := key(t[0]);
        HasOwnTieClass(t, key);
        assert false;
      }
    } else {
      var ri, rl := r[..|r| - 1], r[|r| - 1];
      var ti := t[..|t| - 1];
      LastElementsAgree(r, t, key);
      assert r == ri + [rl] && t == ti + [rl];
      forall k
        ensures Filter(ri, HasKey(key, k)) == Filter(ti, HasKey(key, k))
      {
        DropCommonLast(ri, ti, rl, HasKey(key, k));
      }
      SortedTieClassesEqual(ri, ti, key);
    }
  }

  /** Two sequences ending in the same element filter alike exactly when their initial parts do. */
  lemma DropCommonLast<T>(ri: seq<T>, ti: seq<T>, last: T, p: T -> bool)
    requires Filter(ri + [last], p) == Filter(ti + [last], p)
    ensures Filter(ri, p) == Filter(ti, p)
  {
    FilterAppend(ri, [last], p);
    FilterAppend(ti, [last], p);
    var fr, ft, fl := Filter(ri, p), Filter(ti, p), Filter([last], p);
    assert fr == (fr + fl)[..|fr|];
    assert ft == (ft + fl)[..|ft|];
  }

  /** Sorted sequences with the same tie classes end in the same element. */
  lemma LastElementsAgree<T>(r: seq<T>, t: seq<T>, key: T -> int)
    requires r != [] && t != [] && SortedBy(r, key) && SortedBy(t, key)
    requires forall k :: Filter(r, HasKey(key, k)) == Filter(t, HasKey(key, k))
    ensures r[|r| - 1] == t[|t| - 1]
  {
    LastKeysAgree(r, t, key);
    var pm := HasKey(key, key(r[|r| - 1]));
    FilterLast(r, pm);
    FilterLast(t, pm);
    assert Filter(r, pm) == Filter(t, pm);
  }

  /**
   * The last elements carry the greatest key of each sequence, and the two
   * sequences hold the same keys, so those keys agree.
   */
  lemma LastKeysAgree<T>(r: seq<T>, t: seq<T>, key: T -> int)
    requires r != [] && t != [] && SortedBy(r, key) && SortedBy(t, key)
    requires forall k :: Filter(r, HasKey(key, k)) == Filter(t, HasKey(key, k))
    ensures key(r[|r| - 1]) == key(t[|t| - 1])
  {
    LastKeyIsMax(r, t, key);
    LastKeyIsMax(t, r, key);
  }

  /** A satisfying last element is the last element of the filtered sequence. */
  lemma FilterLast<T>(s: seq<T>, p: T -> bool)
    requires s != [] && p(s[|s| - 1])
    ensures Filter(s, p) != [] && Filter(s, p)[|Filter(s, p)| - 1] == s[|s| - 1]
  {
    InitAndLast(s);
    FilterAppend(s[..|s| - 1], [s[|s| - 1]], p);
    assert Filter([s[|s| - 1]], p) == [s[|s| - 1]];
  }

  lemma InitAndLast<T>(s: seq<T>)
    requires s != []
    ensures s == s[..|s| - 1] + [s[|s| - 1]]
  {
  }

  lemma HasOwnTieClass<T>(s: seq<T>, key: T -> int)
    requires s != []
    ensures Filter(s, HasKey(key, key(s[0]))) != []
  {
    assert Filter(s, HasKey(key, key(s[0])))[0] == s[0];
  }

  /** Every key of `t` is at most the key of `r`'s last element when their tie classes agree. */
  lemma LastKeyIsMax<T>(r: seq<T>, t: seq<T>, key: T -> int)
    requires r != [] && SortedBy(r, key)
    requires forall k :: Filter(r, HasKey(key, k)) == Filter(t, HasKey(key, k))
    ensures forall j :: 0 <= j < |t| ==> key(t[j]) <= key(r[|r| - 1])
  {
    forall j | 0 <= j < |t|
      ensures key(t[j]) <= key(r[|r| - 1])
    {
      KeyOccursIn(r, t, key, key(t[j]), j);
    }
  }

  lemma KeyOccursIn<T>(r: seq<T>, t: seq<T>, key: T -> int, k: int, j: nat)
    requires r != [] && SortedBy(r, key)
    requires Filter(r, HasKey(key, k)) == Filter(t, HasKey(key, k))
    requires j < |t| && key(t[j]) == k
    ensures k <= key(r[|r| - 1])
  {
    var p := HasKey(key, k);
    assert p(t[j]);
    FilterNonEmpty(t, p);
    FilterNonEmpty(r, p);
    var i :| 0 <= i < |r| && p(r[i]);
    assert key(r[i]) == k;
    if i < |r| - 1 {
      assert key(r[i]) <= key(r[|r| - 1]);
    }
  }

  /** Where `Insert` puts `x`: after the last element whose key is not greater. */
  function InsertPosition<T>(s: seq<T>, x: T, key: T -> int): (p: nat)
    ensures p <= |s|
  {
    if s == [] || key(s[|s| - 1]) <= key(x) then |s| else InsertPosition(s[..|s| - 1], x, key)
  }

  /** `Insert` splits `s` at its position: everything after `x` has a greater key. */
  lemma {:induction false} InsertSplit<T>(s: seq<T>, x: T, key: T -> int)
    ensures var p := InsertPosition(s, x, key);
      && Insert(s, x, key) == s[..p] + [x] + s[p..]
      && forall m :: p <= m < |s| ==> key(s[m]) > key(x)
  {
    if s != [] && key(s[|s| - 1]) > key(x) {
      var init := s[..|s| - 1];
      InsertSplit(init, x, key);
      var p := InsertPosition(init, x, key);
      assert init[..p] == s[..p];
      assert s[p..] == init[p..] + [s[|s| - 1]];
    }
  }

  lemma InSortedIffIn<T>(s: seq<T>, key: T -> int, y: T)
    ensures y in InsertionSort(s, key) <==> y in s
  {
    SortPermutes(s, key);
    assert y in InsertionSort(s, key) <==> y in multiset(InsertionSort(s, key));
  }

  /** Sorting a sequence without repetitions gives a sequence without repetitions. */
  lemma {:induction false} SortKeepsNoDuplicates<T>(s: seq<T>, key: T -> int)
    requires NoDuplicates(s)
    ensures NoDuplicates(InsertionSort(s, key))
  {
    if s != [] {
      var init, x := s[..|s| - 1], s[|s| - 1];
      SortKeepsNoDuplicates(init, key);
      var t := InsertionSort(init, key);
      InsertSplit(t, x, key);
      InSortedIffIn(init, key, x);
      assert x !in init by {
        forall m | 0 <= m < |init|
          ensures init[m] != x
        {
          assert s[m] != s[|s| - 1];
        }
      }
      var p := InsertPosition(t, x, key);
      var r := InsertionSort(s, key);
      forall i, j | 0 <= i < j < |r|
        ensures r[i] != r[j]
      {
        if i < p && j < p {
          assert r[i] == t[i] && r[j] == t[j];
        } else if i < p && j == p {
          assert r[i] == t[i];
        } else if i < p {
          assert r[i] == t[i] && r[j] == t[j - 1];
        } else if i == p {
          assert r[j] == t[j - 1];
        } else {
          assert r[i] == t[i - 1] && r[j] == t[j - 1];
        }
      }
    }
  }

  /** Of two elements of `r` with equal keys, the one earlier in `r` is earlier in `s`. */
  ghost predicate TiesInInputOrder<T>(r: seq<T>, s: seq<T>, key: T -> int)
  {
    forall i, j :: 0 <= i < j < |r| && key(r[i]) == key(r[j]) ==>
      r[i] in s && r[j] in s && IndexOf(s, r[i]) < IndexOf(s, r[j])
  }

  /**
   * Stability stated by position: in the sorted order of a sequence without
   * repetitions, of two elements with equal keys the one earlier in the input
   * comes first.
   */
  lemma {:induction false} SortKeepsInputOrderOfTies<T>(s: seq<T>, key: T -> int)
    requires NoDuplicates(s)
    ensures TiesInInputOrder(InsertionSort(s, key), s, key)
  {
    if s != [] {
      var init, x := s[..|s| - 1], s[|s| - 1];
      LastNotInInit(s);
      SortKeepsInputOrderOfTies(init, key);
      var t := InsertionSort(init, key);
      forall m | 0 <= m < |t|
        ensures t[m] in init
      {
        InSortedIffIn(init, key, t[m]);
      }
      InitAndLast(s);
      TiesAfterInsert(t, init, x, key);
    }
  }

  lemma LastNotInInit<T>(s: seq<T>)
    requires s != [] && NoDuplicates(s)
    ensures s[|s| - 1] !in s[..|s| - 1] && NoDuplicates(s[..|s| - 1])
  {
    var init := s[..|s| - 1];
    forall m | 0 <= m < |init|
      ensures init[m] != s[|s| - 1]
    {
      assert s[m] != s[|s| - 1];
    }
  }

  /** Positions in `init + [x]`: those of `init` are unchanged, and `x` comes last. */
  lemma IndexAfterAppend<T>(init: seq<T>, x: T)
    requires x !in init
    ensures forall y :: y in init ==> IndexOf(init + [x], y) == IndexOf(init, y) < |init|
    ensures IndexOf(init + [x], x) == |init|
  {
    forall y | y in init
      ensures IndexOf(init + [x], y) == IndexOf(init, y)
    {
      IndexOfExtend(init, [x], y);
    }
  }

  /** Inserting the new last input element `x` into the sorted `t` keeps ties in input order. */
  lemma TiesAfterInsert<T>(t: seq<T>, init: seq<T>, x: T, key: T -> int)
    requires x !in init
    requires forall m :: 0 <= m < |t| ==> t[m] in init
    requires TiesInInputOrder(t, init, key)
    ensures TiesInInputOrder(Insert(t, x, key), init + [x], key)
  {
    var s := init + [x];
    InsertSplit(t, x, key);
    IndexAfterAppend(init, x);
    var p := InsertPosition(t, x, key);
    var r := Insert(t, x, key);
    forall i, j | 0 <= i < j < |r| && key(r[i]) == key(r[j])
      ensures r[i] in s && r[j] in s && IndexOf(s, r[i]) < IndexOf(s, r[j])
    {
      TieStep(t, init, x, key, p, r, i, j);
    }
  }

  /**
   * The inductive step of `SortKeepsInputOrderOfTies` for one pair of
   * positions of `r`, which is `t` with `x` inserted at `p`.
   */
  lemma TieStep<T>(t: seq<T>, init: seq<T>, x: T, key: T -> int, p: nat, r: seq<T>, i: nat, j: nat)
    requires p <= |t| && r == t[..p] + [x] + t[p..]
    requires forall m :: p <= m < |t| ==> key(t[m]) > key(x)
    requires forall m :: 0 <= m < |t| ==> t[m] in init
    requires TiesInInputOrder(t, init, key)
    requires i < j < |r| && key(r[i]) == key(r[j])
    ensures r[i] in init
    ensures r[j] in init || (r[j] == x && j == p)
    ensures r[j] in init && r[j] != x ==> IndexOf(init, r[i]) < IndexOf(init, r[j])
  {
    if j < p {
      assert r[i] == t[i] && r[j] == t[j];
    } else if j == p {
      assert r[i] == t[i] && r[j] == x;
    } else if i < p {
      assert r[i] == t[i] && r[j] == t[j - 1];
    } else if i == p {
      // r[i] is x and r[j] lies in the suffix of greater keys.
      assert false;
    } else {
      assert r[i] == t[i - 1] && r[j] == t[j - 1];
    }
  }

  /** Sorts `a` in place, stably, by ascending `key`. */
  method SortInPlace<T>(a: array<T>, key: T -> int)
    modifies a
    ensures a[..] == InsertionSort(old(a[..]), key)
  {
    ghost var input := a[..];
    var i := 0;
    while i < a.Length
      invariant 0 <= i <= a.Length
      invariant a[..i] == InsertionSort(input[..i], key)
      invariant a[i..] == input[i..]
    {
      assert a[i..][1..] == a[i + 1..] && input[i..][1..] == input[i + 1..];
      InsertAt(a, i, key);
      assert input[..i + 1][..i] == input[..i];
      i := i + 1;
    }
    assert a[..] == a[..a.Length] && input == input[..a.Length];
  }

  /**
   * One insertion-sort step: `a[i]` moves left past every element of the
   * prefix `a[..i]` whose key is greater, which shifts one place right.
   */
  method InsertAt<T>(a: array<T>, i: nat, key: T -> int)
    requires i < a.Length
    modifies a
    ensures a[..i + 1] == Insert(old(a[..i]), old(a[i]), key)
    ensures a[i + 1..] == old(a[i + 1..])
  {
    ghost var sorted := a[..i];
    var x := a[i];
    var j := i;
    assert sorted[..j] == sorted;
    while j > 0 && key(a[j - 1]) > key(x)
      invariant 0 <= j <= i
      invariant forall m {:trigger a[m]} :: 0 <= m < j ==> a[m] == sorted[m]
      invariant forall m {:trigger a[m]} :: j < m <= i ==> a[m] == sorted[m - 1]
      invariant forall m :: i < m < a.Length ==> a[m] == old(a[m])
      invariant InsertPosition(sorted[..j], x, key) == InsertPosition(sorted, x, key)
    {
      assert sorted[..j][..j - 1] == sorted[..j - 1];
      a[j] := a[j - 1];
      j := j - 1;
    }
    a[j] := x;
    InsertedLayout(a[..], sorted, x, key, j);
    assert a[i + 1..] == old(a[i + 1..]);
  }

  /** The array after the last shift: the prefix, then `x`, then the shifted elements. */
  lemma InsertedLayout<T>(final: seq<T>, sorted: seq<T>, x: T, key: T -> int, j: nat)
    requires j <= |sorted| < |final|
    requires forall m {:trigger final[m]} :: 0 <= m < j ==> final[m] == sorted[m]
    requires final[j] == x
    requires forall m {:trigger final[m]} :: j < m <= |sorted| ==> final[m] == sorted[m - 1]
    requires j == 0 || key(sorted[j - 1]) <= key(x)
    requires InsertPosition(sorted[..j], x, key) == InsertPosition(sorted, x, key)
    ensures final[..|sorted| + 1] == Insert(sorted, x, key)
  {
    ShiftedLayout(final, sorted, x, j);
    InsertAtStop(sorted, x, key, j);
  }

  /** Positions below `j` hold the prefix, `j` holds `x`, and the rest the shifted suffix. */
  lemma ShiftedLayout<T>(final: seq<T>, sorted: seq<T>, x: T, j: nat)
    requires j <= |sorted| < |final|
    requires forall m {:trigger final[m]} :: 0 <= m < j ==> final[m] == sorted[m]
    requires final[j] == x
    requires forall m {:trigger final[m]} :: j < m <= |sorted| ==> final[m] == sorted[m - 1]
    ensures final[..|sorted| + 1] == sorted[..j] + [x] + sorted[j..]
  {
    var front, back := sorted[..j] + [x], sorted[j..];
    forall m | 0 <= m <= |sorted|
      ensures final[m] == (front + back)[m]
    {
      if m <= j {
        assert (front + back)[m] == front[m];
      } else {
        assert (front + back)[m] == back[m - j - 1];
      }
    }
  }

  /** Where the shifting stopped is where `Insert` puts `x`. */
  lemma InsertAtStop<T>(sorted: seq<T>, x: T, key: T -> int, j: nat)
    requires j <= |sorted|
    requires j == 0 || key(sorted[j - 1]) <= key(x)
    requires InsertPosition(sorted[..j], x, key) == InsertPosition(sorted, x, key)
    ensures Insert(sorted, x, key) == sorted[..j] + [x] + sorted[j..]
  {
    assert InsertPosition(sorted[..j], x, key) == j;
    InsertSplit(sorted, x, key);
  }
}
