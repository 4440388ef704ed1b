/** Sequence helpers shared by the commands: order-preserving filtering,
    first-occurrence de-duplication (Array#uniq), sorted distinct values
    (`uniq.sort`), a stable insertion sort under a total preorder, and
    offset/limit paging. */
module Seqs {
  import opened Wrappers

  ghost predicate NoDuplicates<T>(s: seq<T>) {
    forall i, j :: 0 <= i < j < |s| ==> s[i] != s[j]
  }

  ghost predicate StrictlyIncreasing(s: seq<int>) {
    forall i, j :: 0 <= i < j < |s| ==> s[i] < s[j]
  }

  /** The elements of `s` that satisfy `p`, in their original order
      (Array#select, Array.prototype.filter, a SQL WHERE clause). */
  function Filter<T(!new)>(s: seq<T>, p: T -> bool): (r: seq<T>)
    ensures |r| <= |s|
    ensures forall x :: x in r <==> x in s && p(x)
    ensures multiset(r) <= multiset(s)
    ensures forall x :: multiset(r)[x] == if p(x) then multiset(s)[x] else 0
    decreases |s|
  {
    if |s| == 0 then []
    else
      var rest := Filter(s[..|s| - 1], p);
      LastSplit(s);
      if p(s[|s| - 1]) then rest + [s[|s| - 1]] else rest
  }

  lemma {:induction false} FilterAll<T(!new)>(s: seq<T>, p: T -> bool)
    requires forall x :: x in s ==> p(x)
    ensures Filter(s, p) == s
    decreases |s|
  {
    if |s| > 0 {
      var init := s[..|s| - 1];
      LastSplit(s);
      assert forall x :: x in init ==> x in s;
      FilterAll(init, p);
    }
  }

  lemma {:induction false} FilterNone<T(!new)>(s: seq<T>, p: T -> bool)
    requires forall x :: x in s ==> !p(x)
    ensures Filter(s, p) == []
    decreases |s|
  {
    if |s| > 0 {
      FilterNone(s[..|s| - 1], p);
    }
  }

  /** Array#uniq: the distinct elements of `s`, each at its first occurrence. */
  function Dedup<T(==,!new)>(s: seq<T>): (r: seq<T>)
    ensures NoDuplicates(r)
    ensures forall x :: x in r <==> x in s
    ensures |r| <= |s|
    decreases |s|
  {
    if |s| == 0 then []
    else
      var rest := Dedup(s[..|s| - 1]);
      if s[|s| - 1] in rest then rest else rest + [s[|s| - 1]]
  }

  /** Dedup keeps first occurrences: deduplicating a longer list extends the
      deduplication of its prefix. */
  lemma {:induction false} DedupPrefix<T(!new)>(a: seq<T>, b: seq<T>)
    ensures |Dedup(a)| <= |Dedup(a + b)|
    ensures Dedup(a + b)[..|Dedup(a)|] == Dedup(a)
    decreases |b|
  {
    if |b| == 0 {
      assert a + b == a;
    } else {
      var b' := b[..|b| - 1];
      assert (a + b)[..|a + b| - 1] == a + b';
      DedupPrefix(a, b');
    }
  }

  /** Array#| (set union keeping order): the distinct elements of `a`, then
      the elements of `b` not already present, each once. */
  function Union<T(==,!new)>(a: seq<T>, b: seq<T>): (r: seq<T>)
    ensures NoDuplicates(r)
    ensures forall x :: x in r <==> x in a || x in b
    ensures |Dedup(a)| <= |r| && r[..|Dedup(a)|] == Dedup(a)
  {
    DedupPrefix(a, b);
    Dedup(a + b)
  }

  /** Inserts `x` into a strictly increasing sequence, once. */
  function InsertSorted(x: int, r: seq<int>): (q: seq<int>)
    requires StrictlyIncreasing(r)
    ensures StrictlyIncreasing(q)
    ensures forall y :: y in q <==> y == x || y in r
    decreases |r|
  {
    if |r| == 0 then [x]
    else if x < r[0] then [x] + r
    else if x == r[0] then r
    else
      var rest := InsertSorted(x, r[1..]);
      assert forall k :: 0 <= k < |rest| ==> r[0] < rest[k] by {
        forall k | 0 <= k < |rest|
          ensures r[0] < rest[k]
        {
          assert rest[k] in rest;
        }
      }
      [r[0]] + rest
  }

  /** `uniq.sort` on integers: the distinct values of `s` in ascending order. */
  function SortedDistinct(s: seq<int>): (r: seq<int>)
    ensures StrictlyIncreasing(r)
    ensures forall x :: x in r <==> x in s
    ensures |s| > 0 ==> |r| > 0
    decreases |s|
  {
    if |s| == 0 then [] else InsertSorted(s[|s| - 1], SortedDistinct(s[..|s| - 1]))
  }

  /** `leq` is a total preorder: what a consistent sort comparator induces. */
  ghost predicate TotalPreorder<T(!new)>(leq: (T, T) -> bool) {
    && (forall a, b :: leq(a, b) || leq(b, a))
    && (forall a, b, c :: leq(a, b) && leq(b, c) ==> leq(a, c))
  }

  ghost predicate SortedBy<T>(s: seq<T>, leq: (T, T) -> bool) {
    forall i, j :: 0 <= i < j < |s| ==> leq(s[i], s[j])
  }

  /** Inserts `x` after every leading element that may precede it. */
  function Insert<T(!new)>(x: T, r: seq<T>, leq: (T, T) -> bool): (q: seq<T>)
    requires TotalPreorder(leq)
    requires SortedBy(r, leq)
    ensures SortedBy(q, leq)
    ensures multiset(q) == multiset(r) + multiset{x}
    decreases |r|
  {
    if |r| == 0 then [x]
    else if leq(r[0], x) then
      var tail := r[1..];
      var rest := Insert(x, tail, leq);
      assert r == [r[0]] + tail;
      assert forall k :: 0 <= k < |tail| ==> tail[k] == r[k + 1];
      LeqAll(r[0], rest, tail, x, leq);
      [r[0]] + rest
    else
      [x] + r
  }

  /** A lower bound of `r` and of `x` bounds every arrangement of them. */
  lemma LeqAll<T>(a: T, q: seq<T>, r: seq<T>, x: T, leq: (T, T) -> bool)
    requires multiset(q) == multiset(r) + multiset{x}
    requires leq(a, x) && forall k :: 0 <= k < |r| ==> leq(a, r[k])
    ensures forall k :: 0 <= k < |q| ==> leq(a, q[k])
  {
    forall k | 0 <= k < |q|
      ensures leq(a, q[k])
    {
      assert q[k] in multiset(q);
      if q[k] != x {
        assert q[k] in multiset(r);
        var j :| 0 <= j < |r| && r[j] == q[k];
      }
    }
  }

  /** A stable insertion sort: the ordering `Array.prototype.sort` and SQL
      ORDER BY produce, up to the order of equivalent elements. */
  function SortBy<T(!new)>(s: seq<T>, leq: (T, T) -> bool): (r: seq<T>)
    requires TotalPreorder(leq)
    ensures SortedBy(r, leq)
    ensures multiset(r) == multiset(s)
    ensures |r| == |s|
    decreases |s|
  {
    if |s| == 0 then []
    else
      var init := s[..|s| - 1];
      var x := s[|s| - 1];
      LastSplit(s);
      assert multiset(s) == multiset(init) + multiset{x};
      Insert(x, SortBy(init, leq), leq)
  }

  /** OFFSET `skip` LIMIT `take`: the contiguous slice of `s` starting at
      `skip`, at most `take` long. */
  function Window<T>(s: seq<T>, skip: nat, take: nat): (r: seq<T>)
    ensures |r| <= take
    ensures skip >= |s| ==> r == []
    ensures skip < |s| ==> |r| == if skip + take <= |s| then take else |s| - skip
    ensures forall j :: 0 <= j < |r| ==> r[j] == s[skip + j]
  {
    if skip >= |s| then []
    else if skip + take <= |s| then s[skip..skip + take]
    else s[skip..]
  }

  /** How many of `total` elements page `page` holds, `perPage` to a page:
      none past the end, otherwise a full page or what is left. */
  function PageLength(total: nat, page: nat, perPage: nat): nat
    requires page >= 1
  {
    var skip := perPage * (page - 1);
    if skip >= total then 0 else if perPage <= total - skip then perPage else total - skip
  }

  /** 1-based page `page` of `perPage` elements (Kaminari page/per): the
      contiguous run of elements after the earlier pages. */
  function Page<T>(s: seq<T>, page: nat, perPage: nat): (r: seq<T>)
    requires page >= 1
    ensures |r| == PageLength(|s|, page, perPage)
    ensures forall j :: 0 <= j < |r| ==> r[j] == s[perPage * (page - 1) + j]
  {
    Window(s, perPage * (page - 1), perPage)
  }

  /** Every element of `s` lies on exactly the page its index predicts. */
  lemma PageCovers<T>(s: seq<T>, perPage: nat, i: nat)
    requires perPage >= 1 && i < |s|
    ensures var p := i / perPage + 1;
      var q := Page(s, p, perPage);
      i % perPage < |q| && q[i % perPage] == s[i]
  {
    var p := i / perPage + 1;
    assert perPage * (p - 1) + i % perPage == i;
  }

  /** The index of the last element satisfying `p`: the entry that
      Enumerable#index_by keeps when several elements share a key. */
  function LastIndexWhere<T>(s: seq<T>, p: T -> bool): (r: Option<nat>)
    ensures r.Some? ==> r.value < |s| && p(s[r.value])
    ensures r.Some? ==> forall j :: r.value < j < |s| ==> !p(s[j])
    ensures r.None? <==> forall j :: 0 <= j < |s| ==> !p(s[j])
    decreases |s|
  {
    if |s| == 0 then None
    else if p(s[|s| - 1]) then Some(|s| - 1)
    else LastIndexWhere(s[..|s| - 1], p)
  }

  /** When at most one element satisfies `p`, the last one is that one. */
  lemma LastIndexOfUnique<T>(s: seq<T>, p: T -> bool, i: nat)
    requires i < |s| && p(s[i])
    requires forall j :: 0 <= j < |s| && j != i ==> !p(s[j])
    ensures LastIndexWhere(s, p) == Some(i)
  {
  }

  /** `s` with `f` applied to every element (Array#map). */
  function Map<T, U>(s: seq<T>, f: T -> U): (r: seq<U>)
    ensures |r| == |s|
    ensures forall i :: 0 <= i < |s| ==> r[i] == f(s[i])
  {
    seq(|s|, i requires 0 <= i < |s| => f(s[i]))
  }

  /** A non-empty sequence is its prefix followed by its last element. */
  lemma LastSplit<T>(s: seq<T>)
    requires |s| > 0
    ensures s == s[..|s| - 1] + [s[|s| - 1]]
  {
  }

  /** Appending a non-empty `b` is appending all of `b` but its last element,
      then that element. */
  lemma ConcatSnoc<T>(a: seq<T>, b: seq<T>)
    requires |b| > 0
    ensures a + b == (a + b[..|b| - 1]) + [b[|b| - 1]]
  {
  }

  /** A new element keeps a sequence free of duplicates. */
  lemma NoDuplicatesSnoc<T>(s: seq<T>, x: T)
    requires NoDuplicates(s) && x !in s
    ensures NoDuplicates(s + [x])
  {
  }

  /** Filtering a sequence extended by one element. */
  lemma FilterSnoc<T(!new)>(s: seq<T>, x: T, p: T -> bool)
    ensures Filter(s + [x], p) == Filter(s, p) + (if p(x) then [x] else [])
  {
    assert (s + [x])[..|s + [x]| - 1] == s;
  }

  /** Mapping a sequence extended by one element. */
  lemma MapSnoc<T, U>(s: seq<T>, x: T, f: T -> U)
    ensures Map(s + [x], f) == Map(s, f) + [f(x)]
  {
    assert forall i :: 0 <= i < |s| ==> (s + [x])[i] == s[i];
  }

  /** Deduplicating a sequence extended by one element. */
  lemma DedupSnoc<T(!new)>(s: seq<T>, x: T)
    ensures Dedup(s + [x]) == Dedup(s) + (if x in s then [] else [x])
  {
    assert (s + [x])[..|s + [x]| - 1] == s;
  }

  /** The elements of `b` that are not in `a`, each at its first occurrence
      in `b`, in `b`'s order. */
  function NewIn<T(==,!new)>(a: seq<T>, b: seq<T>): (r: seq<T>)
    ensures forall x :: x in r <==> x in b && x !in a
    decreases |b|
  {
    if |b| == 0 then []
    else
      var b' := b[..|b| - 1];
      var x := b[|b| - 1];
      LastSplit(b);
      NewIn(a, b') + (if x in a + b' then [] else [x])
  }

  /** Union lists the distinct elements of `a`, then the elements new in `b`. */
  lemma UnionSplits<T(!new)>(a: seq<T>, b: seq<T>)
    ensures Union(a, b) == Dedup(a) + NewIn(a, b)
  {
    DedupSplits(a, b);
  }

  lemma {:induction false} DedupSplits<T(!new)>(a: seq<T>, b: seq<T>)
    ensures Dedup(a + b) == Dedup(a) + NewIn(a, b)
    decreases |b|
  {
    if |b| == 0 {
      assert a + b == a;
    } else {
      var b' := b[..|b| - 1];
      DedupSplits(a, b');
      DedupSplitsStep(a, b);
    }
  }

  lemma DedupSplitsStep<T(!new)>(a: seq<T>, b: seq<T>)
    requires |b| > 0
    requires Dedup(a + b[..|b| - 1]) == Dedup(a) + NewIn(a, b[..|b| - 1])
    ensures Dedup(a + b) == Dedup(a) + NewIn(a, b)
  {
    var b' := b[..|b| - 1];
    var x := b[|b| - 1];
    var ab' := a + b';
    var t := if x in ab' then [] else [x];
    ConcatSnoc(a, b);
    DedupSnoc(ab', x);
    assert NewIn(a, b) == NewIn(a, b') + t;
    AppendAssoc(Dedup(a), NewIn(a, b'), t);
  }

  lemma AppendAssoc<T>(a: seq<T>, b: seq<T>, c: seq<T>)
    ensures (a + b) + c == a + (b + c)
  {
  }
}
