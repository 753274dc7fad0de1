/** sortMetadataProperties: the property list is sorted in place by name with
    a stable sort, the comparator being String.compareTo on the names. The
    specification is a stable insertion sort on sequences; the method sorts an
    array in place and is proved to produce exactly that sequence. */
module PropertySort {
  import opened MetadataModel
  import opened StringOrder

  /** The comparator `Comparator.comparing(Metadata.Property::getName)`
      answers "not after". */
  predicate NameLe(p: Property, q: Property)
  {
    CompareTo(p.name, q.name) <= 0
  }

  predicate SortedByName(s: seq<Property>)
  {
    forall i, j :: 0 <= i < j < |s| ==> NameLe(s[i], s[j])
  }

  predicate DistinctNames(s: seq<Property>)
  {
    forall i, j :: 0 <= i < j < |s| ==> s[i].name != s[j].name
  }

  /** Inserts x into t from the right, passing only elements whose name
      compares strictly greater, so that equal names keep their order. */
  function Insert(t: seq<Property>, x: Property): seq<Property>
  {
    if t == [] then [x]
    else if CompareTo(t[|t| - 1].name, x.name) > 0 then Insert(t[..|t| - 1], x) + [t[|t| - 1]]
    else t + [x]
  }

  function SortByName(s: seq<Property>): seq<Property>
  {
    if s == [] then [] else Insert(SortByName(s[..|s| - 1]), s[|s| - 1])
  }

  /** The properties named k, in the order they appear. */
  function Filter(s: seq<Property>, k: string): seq<Property>
  {
    if s == [] then []
    else Filter(s[..|s| - 1], k) + (if s[|s| - 1].name == k then [s[|s| - 1]] else [])
  }

  // ----- Filter -----

  lemma FilterSnoc(s: seq<Property>, e: Property, k: string)
    ensures Filter(s + [e], k) == Filter(s, k) + (if e.name == k then [e] else [])
  {
    assert (s + [e])[..|s|] == s;
  }

  lemma {:induction false} FilterCount(s: seq<Property>, k: string, p: Property)
    ensures multiset(Filter(s, k))[p] == if p.name == k then multiset(s)[p] else 0
  {
    if s != [] {
      FilterCount(s[..|s| - 1], k, p);
      assert s == s[..|s| - 1] + [s[|s| - 1]];
    }
  }

  lemma FilterMultiset(s: seq<Property>, t: seq<Property>, k: string)
    requires multiset(s) == multiset(t)
    ensures multiset(Filter(s, k)) == multiset(Filter(t, k))
  {
    forall p ensures multiset(Filter(s, k))[p] == multiset(Filter(t, k))[p] {
      FilterCount(s, k, p);
      FilterCount(t, k, p);
    }
  }

  lemma {:induction false} NameAbsent(s: seq<Property>, k: string)
    requires forall i :: 0 <= i < |s| ==> s[i].name != k
    ensures Filter(s, k) == []
  {
    if s != [] {
      NameAbsent(s[..|s| - 1], k);
    }
  }

  lemma {:induction false} DistinctFilterShort(s: seq<Property>, k: string)
    requires DistinctNames(s)
    ensures |Filter(s, k)| <= 1
  {
    if s != [] {
      var init := s[..|s| - 1];
      assert DistinctNames(init);
      DistinctFilterShort(init, k);
      if s[|s| - 1].name == k {
        NameAbsent(init, k);
      }
    }
  }

  // ----- Insert -----

  lemma {:induction false} InsertMultiset(t: seq<Property>, x: Property)
    ensures multiset(Insert(t, x)) == multiset(t) + multiset{x}
  {
    if t != [] {
      assert t == t[..|t| - 1] + [t[|t| - 1]];
      if CompareTo(t[|t| - 1].name, x.name) > 0 {
        InsertMultiset(t[..|t| - 1], x);
      }
    }
  }

  /** Appending an element no smaller than any other keeps the order. */
  lemma SortedSnoc(r: seq<Property>, y: Property)
    requires SortedByName(r)
    requires forall i :: 0 <= i < |r| ==> NameLe(r[i], y)
    ensures SortedByName(r + [y])
  {
    var u := r + [y];
    forall i, j | 0 <= i < j < |u| ensures NameLe(u[i], u[j]) {
      if j < |r| {
        assert u[i] == r[i] && u[j] == r[j];
      } else {
        assert u[i] == r[i];
      }
    }
  }

  lemma {:induction false} InsertSorted(t: seq<Property>, x: Property)
    requires SortedByName(t)
    ensures SortedByName(Insert(t, x))
  {
    if t != [] {
      var init, last := t[..|t| - 1], t[|t| - 1];
      if CompareTo(last.name, x.name) > 0 {
        InsertSorted(init, x);
        var r := Insert(init, x);
        InsertMultiset(init, x);
        CompareToAntisymmetric(last.name, x.name);
        forall i | 0 <= i < |r| ensures NameLe(r[i], last) {
          assert r[i] in multiset(r);
          if r[i] != x {
            var j :| 0 <= j < |init| && init[j] == r[i];
            assert NameLe(t[j], t[|t| - 1]);
          }
        }
        SortedSnoc(r, last);
      } else {
        forall i | 0 <= i < |t| ensures NameLe(t[i], x) {
          if i < |t| - 1 {
            assert NameLe(t[i], last);
            CompareToTransitive(t[i].name, last.name, x.name);
          }
        }
        SortedSnoc(t, x);
      }
    }
  }

  /** Only elements with a different name are passed over, so the equal-named
      ones stay in front of x. */
  lemma {:induction false} FilterInsert(t: seq<Property>, x: Property, k: string)
    ensures Filter(Insert(t, x), k) == Filter(t, k) + (if x.name == k then [x] else [])
  {
    if t == [] {
      FilterSnoc([], x, k);
    } else {
      var init, last := t[..|t| - 1], t[|t| - 1];
      if CompareTo(last.name, x.name) > 0 {
        FilterInsert(init, x, k);
        FilterSnoc(Insert(init, x), last, k);
        CompareToZeroIffEqual(last.name, x.name);
      } else {
        FilterSnoc(t, x, k);
      }
    }
  }

  // ----- SortByName -----

  lemma {:induction false} SortMultiset(s: seq<Property>)
    ensures multiset(SortByName(s)) == multiset(s)
  {
    if s != [] {
      var init, last := s[..|s| - 1], s[|s| - 1];
      assert s == init + [last];
      SortMultiset(init);
      InsertMultiset(SortByName(init), last);
    }
  }

  lemma {:induction false} SortSorted(s: seq<Property>)
    ensures SortedByName(SortByName(s))
  {
    if s != [] {
      SortSorted(s[..|s| - 1]);
      InsertSorted(SortByName(s[..|s| - 1]), s[|s| - 1]);
    }
  }

  /** Stability: the properties sharing a name appear in their original order. */
  lemma {:induction false} SortStable(s: seq<Property>, k: string)
    ensures Filter(SortByName(s), k) == Filter(s, k)
  {
    if s != [] {
      SortStable(s[..|s| - 1], k);
      FilterInsert(SortByName(s[..|s| - 1]), s[|s| - 1], k);
    }
  }

  /** The sorted result keeps every property, duplicates included, and puts
      them in non-decreasing name order. */
  lemma SortByNameIsSortedPermutation(s: seq<Property>)
    ensures |SortByName(s)| == |s|
    ensures multiset(SortByName(s)) == multiset(s)
    ensures SortedByName(SortByName(s))
  {
    SortMultiset(s);
    SortSorted(s);
    assert |multiset(SortByName(s))| == |multiset(s)|;
  }

  /** A name-sorted sequence is fixed by its equal-name subsequences: List.sort's
      contract (sorted, stable) leaves exactly one possible result. */
  lemma {:induction false} SortedUnique(x: seq<Property>, y: seq<Property>)
    requires SortedByName(x) && SortedByName(y)
    requires forall k :: Filter(x, k) == Filter(y, k)
    ensures x == y
    decreases |x| + |y|
  {
    if x == [] && y == [] {
    } else if x == [] {
      LastIsFiltered(y);
      assert false;
    } else if y == [] {
      LastIsFiltered(x);
      assert false;
    } else {
      var a, b := x[|x| - 1], y[|y| - 1];
      var x', y' := x[..|x| - 1], y[..|y| - 1];
      LastsAgree(x, y);
      forall k ensures Filter(x', k) == Filter(y', k) {
        InitFiltersAgree(x, y, k);
      }
      SortedUnique(x', y');
      assert x == x' + [a] && y == y' + [b];
    }
  }

  lemma LastIsFiltered(s: seq<Property>)
    requires s != []
    ensures Filter(s, s[|s| - 1].name) != []
    ensures Filter(s, s[|s| - 1].name)[|Filter(s, s[|s| - 1].name)| - 1] == s[|s| - 1]
  {
  }

  /** Two sorted sequences with the same equal-name subsequences end alike. */
  lemma LastsAgree(x: seq<Property>, y: seq<Property>)
    requires SortedByName(x) && SortedByName(y) && x != [] && y != []
    requires Filter(x, x[|x| - 1].name) == Filter(y, x[|x| - 1].name)
    requires Filter(x, y[|y| - 1].name) == Filter(y, y[|y| - 1].name)
    ensures x[|x| - 1] == y[|y| - 1]
  {
    LastIsFiltered(x);
    LastIsFiltered(y);
    LastNamesAgree(x, y);
  }

  lemma LastNamesAgree(x: seq<Property>, y: seq<Property>)
    requires SortedByName(x) && SortedByName(y) && x != [] && y != []
    requires Filter(y, x[|x| - 1].name) != [] && Filter(x, y[|y| - 1].name) != []
    ensures x[|x| - 1].name == y[|y| - 1].name
  {
    var a, b := x[|x| - 1], y[|y| - 1];
    SortedLastIsGreatest(y, a);
    SortedLastIsGreatest(x, b);
    CompareToZeroIffEqual(a.name, b.name);
    CompareToAntisymmetric(a.name, b.name);
  }

  lemma InitFiltersAgree(x: seq<Property>, y: seq<Property>, k: string)
    requires x != [] && y != [] && x[|x| - 1] == y[|y| - 1]
    requires Filter(x, k) == Filter(y, k)
    ensures Filter(x[..|x| - 1], k) == Filter(y[..|y| - 1], k)
  {
    var a := x[|x| - 1];
    var u, v := Filter(x[..|x| - 1], k), Filter(y[..|y| - 1], k);
    if k == a.name {
      assert u + [a] == v + [a];
      assert u == (u + [a])[..|u|] && v == (v + [a])[..|v|];
    }
  }

  /** If a sorted y holds an element named like a, then a's name is at most
      the name of y's last element. */
  lemma {:induction false} SortedLastIsGreatest(y: seq<Property>, a: Property)
    requires SortedByName(y) && y != [] && Filter(y, a.name) != []
    ensures NameLe(a, y[|y| - 1])
  {
    var init, last := y[..|y| - 1], y[|y| - 1];
    if last.name == a.name {
      CompareToZeroIffEqual(a.name, last.name);
    } else {
      assert SortedByName(init);
      SortedLastIsGreatest(init, a);
      assert NameLe(init[|init| - 1], last);
      CompareToTransitive(a.name, init[|init| - 1].name, last.name);
    }
  }

  /** SortByName is the stable sort: any sorted sequence with the same
      equal-name subsequences as s is SortByName(s). */
  lemma StableSortIsSortByName(s: seq<Property>, r: seq<Property>)
    requires SortedByName(r)
    requires forall k :: Filter(r, k) == Filter(s, k)
    ensures r == SortByName(s)
  {
    SortSorted(s);
    forall k ensures Filter(r, k) == Filter(SortByName(s), k) {
      SortStable(s, k);
    }
    SortedUnique(r, SortByName(s));
  }

  /** Sorting an already sorted list changes nothing; in particular sorting
      twice is sorting once. */
  lemma SortSortedIsIdentity(s: seq<Property>)
    requires SortedByName(s)
    ensures SortByName(s) == s
  {
    StableSortIsSortByName(s, s);
  }

  lemma SortIdempotent(s: seq<Property>)
    ensures SortByName(SortByName(s)) == SortByName(s)
  {
    SortSorted(s);
    SortSortedIsIdentity(SortByName(s));
  }

  /** The result depends only on the equal-name subsequences of the input. */
  lemma SortOrderIndependent(s: seq<Property>, t: seq<Property>)
    requires forall k :: Filter(s, k) == Filter(t, k)
    ensures SortByName(s) == SortByName(t)
  {
    SortSorted(s);
    forall k ensures Filter(SortByName(s), k) == Filter(t, k) {
      SortStable(s, k);
    }
    StableSortIsSortByName(t, SortByName(s));
  }

  /** Sequences of at most one element are equal when they are permutations. */
  lemma ShortPermutationEqual(u: seq<Property>, v: seq<Property>)
    requires |u| <= 1 && multiset(u) == multiset(v)
    ensures u == v
  {
    assert |u| == |multiset(u)| == |multiset(v)| == |v|;
    if |u| == 1 {
      assert u[0] in multiset(v);
    }
  }

  /** With distinct names, every reordering of the input sorts to the same list. */
  lemma SortPermutationInvariant(s: seq<Property>, t: seq<Property>)
    requires multiset(s) == multiset(t)
    requires DistinctNames(s)
    ensures SortByName(s) == SortByName(t)
  {
    forall k ensures Filter(s, k) == Filter(t, k) {
      FilterMultiset(s, t, k);
      DistinctFilterShort(s, k);
      ShortPermutationEqual(Filter(s, k), Filter(t, k));
    }
    SortOrderIndependent(s, t);
  }

  // ----- In place -----

  /** Insert places x right after the last element whose name does not
      compare greater than x's. */
  lemma {:induction false} InsertSplit(t: seq<Property>, j: nat, x: Property)
    requires j <= |t|
    requires j == 0 || CompareTo(t[j - 1].name, x.name) <= 0
    requires forall k :: j <= k < |t| ==> CompareTo(t[k].name, x.name) > 0
    ensures Insert(t, x) == t[..j] + [x] + t[j..]
  {
    if j < |t| {
      var init := t[..|t| - 1];
      InsertSplit(init, j, x);
      assert init[..j] == t[..j];
      assert init[j..] + [t[|t| - 1]] == t[j..];
    } else if t != [] {
      assert t[..j] == t;
    }
  }

  /** A sequence that agrees pointwise with t with x put in at j. */
  lemma Spliced(u: seq<Property>, t: seq<Property>, j: nat, x: Property)
    requires j <= |t| && |u| == |t| + 1 && u[j] == x
    requires forall k :: 0 <= k < j ==> u[k] == t[k]
    requires forall k :: j < k < |u| ==> u[k] == t[k - 1]
    ensures u == t[..j] + [x] + t[j..]
  {
    ghost var r := t[..j] + [x] + t[j..];
    forall k | 0 <= k < |u| ensures u[k] == r[k] {
      if k < j {
        assert r[k] == t[k];
      } else if j < k {
        assert r[k] == t[k - 1];
      }
    }
  }

  /** One pass of insertion sort: a[i] is moved left past every element of the
      sorted prefix a[..i] whose name compares greater. */
  method InsertAt(a: array<Property>, i: nat)
    requires i < a.Length
    modifies a
    ensures a[..i + 1] == Insert(old(a[..i]), old(a[i]))
    ensures forall k :: i < k < a.Length ==> a[k] == old(a[k])
  {
    ghost var t := a[..i];
    var x := a[i];
    var j := i;
    while j > 0 && CompareTo(a[j - 1].name, x.name) > 0
      invariant 0 <= j <= i
      invariant forall k :: 0 <= k < j ==> a[k] == t[k]
      invariant forall k :: j < k <= i ==> a[k] == t[k - 1]
      invariant forall k :: i < k < a.Length ==> a[k] == old(a[k])
      invariant forall k :: j <= k < i ==> CompareTo(t[k].name, x.name) > 0
    {
      a[j] := a[j - 1];
      j := j - 1;
    }
    a[j] := x;
    InsertSplit(t, j, x);
    Spliced(a[..i + 1], t, j, x);
  }

  /** Sorting one more element of a prefix inserts it. */
  lemma SortPrefixStep(s: seq<Property>, i: nat)
    requires i < |s|
    ensures SortByName(s[..i + 1]) == Insert(SortByName(s[..i]), s[i])
  {
    assert s[..i + 1][..i] == s[..i];
  }

  /** Sorts the array in place; the result is exactly SortByName of the
      original contents. */
  method SortProperties(a: array<Property>)
    modifies a
    ensures a[..] == SortByName(old(a[..]))
  {
    ghost var s := a[..];
    var i := 0;
    while i < a.Length
      invariant 0 <= i <= a.Length
      invariant a[..i] == SortByName(s[..i])
      invariant forall k :: i <= k < a.Length ==> a[k] == s[k]
    {
      SortPrefixStep(s, i);
      InsertAt(a, i);
      i := i + 1;
    }
    assert a[..] == a[..a.Length] && s == s[..a.Length];
  }
}
