/** compareArrays: whether two optional arrays hold "the same" elements,
    judged by length and membership. */
module CompareArrays {
  import opened Wrappers

  /** `arr1.every((e) => arr2.includes(e))`, element by element. */
  function Every<T(==)>(arr1: seq<T>, arr2: seq<T>): (r: bool)
    ensures r <==> forall i :: 0 <= i < |arr1| ==> arr1[i] in arr2
    decreases |arr1|
  {
    if |arr1| == 0 then true
    else arr1[0] in arr2 && Every(arr1[1..], arr2)
  }

  /** compareArrays; `None` is undefined. */
  function Compare<T(==)>(arr1: Option<seq<T>>, arr2: Option<seq<T>>): (r: bool)
    ensures arr1.None? && arr2.None? ==> r
    ensures arr1.None? != arr2.None? ==> !r
    ensures arr1.Some? && arr2.Some? && |arr1.value| != |arr2.value| ==> !r
    ensures arr1.Some? && arr2.Some? && |arr1.value| == |arr2.value| ==>
      (r <==> forall x :: x in arr1.value ==> x in arr2.value)
  {
    if arr1.None? && arr2.None? then true
    else if arr1.Some? && arr2.None? then false
    else if arr1.None? && arr2.Some? then false
    else if |arr1.value| != |arr2.value| then false
    else Every(arr1.value, arr2.value)
  }

  /** A defined array compares equal to itself, and to any reordering. */
  lemma CompareReflexive<T>(a: seq<T>, b: seq<T>)
    requires multiset(a) == multiset(b)
    ensures Compare(Some(a), Some(a))
    ensures Compare(Some(a), Some(b))
  {
    assert |a| == |multiset(a)| == |b|;
    forall x | x in a
      ensures x in b
    {
      assert x in multiset(a);
    }
  }

  /** Multiplicity is ignored: [1, 1, 2] and [1, 2, 2] compare equal. */
  lemma MultiplicityIgnored()
    ensures Compare(Some([1, 1, 2]), Some([1, 2, 2]))
  {
  }

  /** The comparison is not symmetric: [1, 1] against [1, 2] holds, the
      other way round it does not. */
  lemma NotSymmetric()
    ensures Compare(Some([1, 1]), Some([1, 2]))
    ensures !Compare(Some([1, 2]), Some([1, 1]))
  {
    assert [1, 2][1] == 2;
  }

  /** Between arrays without repeated elements it is equality of their
      sets of elements. */
  lemma DistinctMeansSameSet<T>(a: seq<T>, b: seq<T>)
    requires forall i, j :: 0 <= i < j < |a| ==> a[i] != a[j]
    requires forall i, j :: 0 <= i < j < |b| ==> b[i] != b[j]
    ensures Compare(Some(a), Some(b)) <==> |a| == |b| && (set x | x in a) == (set x | x in b)
  {
    DistinctCard(a);
    DistinctCard(b);
    var sa := set x | x in a;
    var sb := set x | x in b;
    if |a| == |b| && (forall x :: x in a ==> x in b) {
      assert sa <= sb;
      SubsetEqualCard(sa, sb);
    }
    if sa == sb {
      forall x | x in a
        ensures x in b
      {
        assert x in sa;
      }
    }
  }

  /** A sequence without repeats has as many distinct elements as entries. */
  lemma {:induction false} DistinctCard<T>(s: seq<T>)
    requires forall i, j :: 0 <= i < j < |s| ==> s[i] != s[j]
    ensures |set x | x in s| == |s|
    decreases |s|
  {
    if |s| > 0 {
      var init := s[..|s| - 1];
      DistinctCard(init);
      assert s[|s| - 1] !in init;
      assert (set x | x in s) == (set x | x in init) + {s[|s| - 1]};
    }
  }

  /** A subset as large as its superset is all of it. */
  lemma SubsetEqualCard<T>(a: set<T>, b: set<T>)
    requires a <= b && |a| == |b|
    ensures a == b
  {
    if a != b {
      var x :| x in b && x !in a;
      SubsetCard(a, b - {x});
    }
  }

  /** A subset is no larger than its superset. */
  lemma {:induction false} SubsetCard<T>(a: set<T>, b: set<T>)
    requires a <= b
    ensures |a| <= |b|
    decreases |a|
  {
    if a != {} {
      var x :| x in a;
      SubsetCard(a - {x}, b - {x});
    }
  }
}
