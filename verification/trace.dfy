/** The request-details trace view's store: the order in which sibling
    spans are listed, the grouping of spans under their parents, the root
    spans, and the time range the bars are drawn against. */
module Trace {
  import opened Wrappers
  import opened Seqs
  import opened Strings

  /** One span of a recorded request trace. Times are whole numbers. */
  datatype TraceSpan = TraceSpan(id: int, parentId: Option<int>, name: string, tStart: Option<int>, duration: Option<int>)

  /** The ordering sortSpans' comparator induces: spans with a start time
      first, latest start first; then the spans without one, by name. */
  predicate SpanLeq(a: TraceSpan, b: TraceSpan) {
    match (a.tStart, b.tStart)
    case (None, None) => StrLeq(a.name, b.name)
    case (None, Some(_)) => false
    case (Some(_), None) => true
    case (Some(x), Some(y)) => x >= y
  }

  /** The comparator is consistent, so the sort's result is well defined. */
  lemma SpanLeqIsTotalPreorder()
    ensures TotalPreorder(SpanLeq)
  {
    forall a: TraceSpan, b: TraceSpan
      ensures SpanLeq(a, b) || SpanLeq(b, a)
    {
      StrLeqTotal(a.name, b.name);
    }
    forall a: TraceSpan, b: TraceSpan, c: TraceSpan | SpanLeq(a, b) && SpanLeq(b, c)
      ensures SpanLeq(a, c)
    {
      if a.tStart.None? && b.tStart.None? && c.tStart.None? {
        StrLeqTransitive(a.name, b.name, c.name);
      }
    }
  }

  /** sortSpans: a sorted copy; the argument, a value, is left as it was. */
  function SortSpans(spans: seq<TraceSpan>): (r: seq<TraceSpan>)
    ensures multiset(r) == multiset(spans)
    ensures SortedBy(r, SpanLeq)
  {
    SpanLeqIsTotalPreorder();
    SortBy(spans, SpanLeq)
  }

  /** In a sorted list the spans with a start time come before those
      without; the former by descending start, the latter by name. */
  lemma SortedSpansOrder(spans: seq<TraceSpan>, i: nat, j: nat)
    requires i < j < |SortSpans(spans)|
    ensures var r := SortSpans(spans);
      && (r[i].tStart.None? ==> r[j].tStart.None?)
      && (r[i].tStart.Some? && r[j].tStart.Some? ==> r[i].tStart.value >= r[j].tStart.value)
      && (r[i].tStart.None? && r[j].tStart.None? ==> StrLeq(r[i].name, r[j].name))
  {
    var r := SortSpans(spans);
    assert SpanLeq(r[i], r[j]);
  }

  /** The key a span is grouped under: `parent_id || 0`, so a root and a
      child of span 0 share key 0. */
  function ParentKey(s: TraceSpan): int {
    match s.parentId
    case None => 0
    case Some(p) => p
  }

  /** The spans grouped under key `k`, as a filter predicate. */
  function UnderKey(k: int): TraceSpan -> bool {
    (s: TraceSpan) => ParentKey(s) == k
  }

  /** The spanMap getter: each span appended to the group of its key. */
  function SpanMap(spans: seq<TraceSpan>): (m: map<int, seq<TraceSpan>>)
    ensures forall k :: k in m <==> k in Map(spans, ParentKey)
    decreases |spans|
  {
    if |spans| == 0 then map[]
    else
      var init := spans[..|spans| - 1];
      var s := spans[|spans| - 1];
      MapSnoc(init, s, ParentKey);
      assert spans == init + [s];
      Group(SpanMap(init), s)
  }

  /** One reduce step: `o[key] ||= []; o[key].push(s)`. */
  function Group(m: map<int, seq<TraceSpan>>, s: TraceSpan): (m': map<int, seq<TraceSpan>>)
    ensures m'.Keys == m.Keys + {ParentKey(s)}
    ensures forall k :: k in m && k != ParentKey(s) ==> m'[k] == m[k]
    ensures ParentKey(s) in m ==> m'[ParentKey(s)] == m[ParentKey(s)] + [s]
    ensures ParentKey(s) !in m ==> m'[ParentKey(s)] == [s]
  {
    var k := ParentKey(s);
    m[k := (if k in m then m[k] else []) + [s]]
  }

  /** Group `k` of `spans` holds exactly the spans with key `k`. */
  ghost predicate GroupIsFilter(spans: seq<TraceSpan>, k: int) {
    && (k in SpanMap(spans) ==> SpanMap(spans)[k] == Filter(spans, UnderKey(k)))
    && (k !in SpanMap(spans) ==> Filter(spans, UnderKey(k)) == [])
  }

  /** Each group holds exactly the spans with its key, in input order. */
  lemma {:induction false} SpanMapGroups(spans: seq<TraceSpan>)
    ensures forall k :: k in SpanMap(spans) ==> SpanMap(spans)[k] == Filter(spans, UnderKey(k))
    ensures forall k :: k !in SpanMap(spans) ==> Filter(spans, UnderKey(k)) == []
    decreases |spans|
  {
    if |spans| > 0 {
      SpanMapGroups(spans[..|spans| - 1]);
      forall k
        ensures GroupIsFilter(spans, k)
      {
        GroupStep(spans, k);
      }
    }
  }

  /** The last span keeps every group equal to its filter. */
  lemma GroupStep(spans: seq<TraceSpan>, k: int)
    requires |spans| > 0 && GroupIsFilter(spans[..|spans| - 1], k)
    ensures GroupIsFilter(spans, k)
  {
    var init := spans[..|spans| - 1];
    var s := spans[|spans| - 1];
    assert SpanMap(spans) == Group(SpanMap(init), s);
    assert Filter(spans, UnderKey(k)) == Filter(init, UnderKey(k)) + (if ParentKey(s) == k then [s] else []);
  }

  /** The sum of the group sizes over the keys `ks`. */
  function GroupSizes(m: map<int, seq<TraceSpan>>, ks: seq<int>): nat
    decreases |ks|
  {
    if |ks| == 0 then 0
    else
      var k := ks[|ks| - 1];
      GroupSizes(m, ks[..|ks| - 1]) + (if k in m then |m[k]| else 0)
  }

  /** Groups outside `ks` do not contribute. */
  lemma {:induction false} GroupSizesOutside(m: map<int, seq<TraceSpan>>, m': map<int, seq<TraceSpan>>, ks: seq<int>)
    requires forall k :: k in ks ==> (k in m <==> k in m') && (k in m ==> |m[k]| == |m'[k]|)
    ensures GroupSizes(m, ks) == GroupSizes(m', ks)
    decreases |ks|
  {
    if |ks| > 0 {
      GroupSizesOutside(m, m', ks[..|ks| - 1]);
    }
  }

  /** Growing one listed group by one grows the sum by one. */
  lemma {:induction false} GroupSizesGrow(m: map<int, seq<TraceSpan>>, ks: seq<int>, s: TraceSpan)
    requires NoDuplicates(ks) && ParentKey(s) in ks && ParentKey(s) in m
    ensures GroupSizes(Group(m, s), ks) == GroupSizes(m, ks) + 1
    decreases |ks|
  {
    var k := ParentKey(s);
    var init := ks[..|ks| - 1];
    if ks[|ks| - 1] == k {
      assert k !in init;
      GroupSizesOutside(m, Group(m, s), init);
    } else {
      assert k in init by {
        var i :| 0 <= i < |ks| && ks[i] == k;
        assert init[i] == k;
      }
      GroupSizesGrow(m, init, s);
    }
  }

  /** The spans' keys in order of first appearance: the groups' keys. */
  function Keys(spans: seq<TraceSpan>): (ks: seq<int>)
    ensures NoDuplicates(ks)
    ensures forall k :: k in ks <==> k in SpanMap(spans)
  {
    Dedup(Map(spans, ParentKey))
  }

  /** The last span adds its key to the keys when it is new. */
  lemma KeysStep(spans: seq<TraceSpan>)
    requires |spans| > 0
    ensures var init := spans[..|spans| - 1];
      var k := ParentKey(spans[|spans| - 1]);
      Keys(spans) == Keys(init) + (if k in SpanMap(init) then [] else [k])
  {
    var init := spans[..|spans| - 1];
    var s := spans[|spans| - 1];
    assert spans == init + [s];
    MapSnoc(init, s, ParentKey);
    DedupSnoc(Map(init, ParentKey), ParentKey(s));
  }

  /** The groups partition the spans: their sizes add up to the number of
      spans. */
  lemma {:induction false} SpanMapCount(spans: seq<TraceSpan>)
    ensures GroupSizes(SpanMap(spans), Keys(spans)) == |spans|
    decreases |spans|
  {
    if |spans| > 0 {
      SpanMapCount(spans[..|spans| - 1]);
      CountStep(spans);
    }
  }

  /** The last span adds one to the sum of the group sizes. */
  lemma CountStep(spans: seq<TraceSpan>)
    requires |spans| > 0
    ensures GroupSizes(SpanMap(spans), Keys(spans)) == GroupSizes(SpanMap(spans[..|spans| - 1]), Keys(spans[..|spans| - 1])) + 1
  {
    var s := spans[|spans| - 1];
    var m := SpanMap(spans[..|spans| - 1]);
    var ks := Keys(spans[..|spans| - 1]);
    assert SpanMap(spans) == Group(m, s);
    KeysStep(spans);
    if ParentKey(s) in m {
      assert Keys(spans) == ks;
      GroupSizesGrow(m, ks, s);
    } else {
      assert Keys(spans) == ks + [ParentKey(s)];
      NewGroup(m, ks, s);
    }
  }

  /** A span with a new key opens a group of one. */
  lemma NewGroup(m: map<int, seq<TraceSpan>>, ks: seq<int>, s: TraceSpan)
    requires ParentKey(s) !in m && ParentKey(s) !in ks
    ensures GroupSizes(Group(m, s), ks + [ParentKey(s)]) == GroupSizes(m, ks) + 1
  {
    var k := ParentKey(s);
    GroupSizesOutside(m, Group(m, s), ks);
    assert (ks + [k])[..|ks|] == ks;
  }

  /** childrenFor: the group of the span's id, or none, sorted. */
  function ChildrenFor(spans: seq<TraceSpan>, id: int): (r: seq<TraceSpan>)
    ensures multiset(r) == multiset(Filter(spans, UnderKey(id)))
    ensures SortedBy(r, SpanLeq)
  {
    SpanMapGroups(spans);
    var m := SpanMap(spans);
    SortSpans(if id in m then m[id] else [])
  }

  /** The rootSpans getter: the spans without a parent, sorted. */
  function RootSpans(spans: seq<TraceSpan>): (r: seq<TraceSpan>)
    ensures forall x :: multiset(r)[x] == if x.parentId.None? then multiset(spans)[x] else 0
    ensures SortedBy(r, SpanLeq)
  {
    SortSpans(Filter(spans, (s: TraceSpan) => s.parentId.None?))
  }

  /** A span listed as a child of `id` has `id` as its parent, and every
      such span is listed, as often as it occurs. */
  lemma ChildrenAreExactlyTheChildren(spans: seq<TraceSpan>, id: int, x: TraceSpan)
    requires id != 0
    ensures x in ChildrenFor(spans, id) <==> x in spans && x.parentId == Some(id)
    ensures multiset(ChildrenFor(spans, id))[x] == if x.parentId == Some(id) then multiset(spans)[x] else 0
  {
    var r := ChildrenFor(spans, id);
    assert x in r <==> multiset(r)[x] > 0;
    assert x in spans <==> multiset(spans)[x] > 0;
  }

  /** Key 0 also collects the roots, so a span with id 0 would list every
      root, itself included if it is one, among its children. */
  lemma ZeroIdAdoptsRoots(spans: seq<TraceSpan>, x: TraceSpan)
    requires x in RootSpans(spans)
    ensures x in ChildrenFor(spans, 0)
  {
    var r := RootSpans(spans);
    var c := ChildrenFor(spans, 0);
    assert multiset(r)[x] > 0;
    assert multiset(c)[x] > 0;
  }

  /** A truthy number: present and not 0. */
  predicate Truthy(o: Option<int>) {
    o.Some? && o.value != 0
  }

  /** A span's end: its start plus its duration, when both are known. */
  function EndOf(s: TraceSpan): (e: Option<int>)
    ensures e.Some? <==> s.tStart.Some? && s.duration.Some?
    ensures e.Some? ==> e.value - s.duration.value == s.tStart.value
  {
    if s.tStart.Some? && s.duration.Some? then Some(s.tStart.value + s.duration.value) else None
  }

  /** The timeRange getter. `lo` is the earliest truthy start, or 0 when
      there is none; `hi` is the latest truthy end, but never below 0, and
      when that falls short of a positive `lo` it is `lo + 100` instead. */
  method TimeRange(spans: seq<TraceSpan>) returns (lo: int, hi: int)
    ensures lo <= hi
    ensures forall i :: 0 <= i < |spans| && Truthy(spans[i].tStart) ==> lo <= spans[i].tStart.value
    ensures (exists i :: 0 <= i < |spans| && Truthy(spans[i].tStart)) ==>
      exists i :: 0 <= i < |spans| && Truthy(spans[i].tStart) && spans[i].tStart.value == lo
    ensures (forall i :: 0 <= i < |spans| ==> !Truthy(spans[i].tStart)) ==> lo == 0
    ensures hi >= 0
    ensures forall i :: 0 <= i < |spans| && Truthy(EndOf(spans[i])) ==> EndOf(spans[i]).value <= hi
    ensures (0 < lo && forall i :: 0 <= i < |spans| && Truthy(EndOf(spans[i])) ==> EndOf(spans[i]).value < lo) ==>
      hi == lo + 100
    ensures !(0 < lo && forall i :: 0 <= i < |spans| && Truthy(EndOf(spans[i])) ==> EndOf(spans[i]).value < lo) ==>
      hi == 0 || exists i :: 0 <= i < |spans| && Truthy(EndOf(spans[i])) && EndOf(spans[i]).value == hi
  {
    var min: Option<int> := None;
    var max := 0;
    var i := 0;
    while i < |spans|
      invariant 0 <= i <= |spans|
      invariant min.None? <==> forall j :: 0 <= j < i ==> !Truthy(spans[j].tStart)
      invariant min.Some? ==> forall j :: 0 <= j < i && Truthy(spans[j].tStart) ==> min.value <= spans[j].tStart.value
      invariant min.Some? ==> exists j :: 0 <= j < i && Truthy(spans[j].tStart) && spans[j].tStart.value == min.value
      invariant max >= 0
      invariant forall j :: 0 <= j < i && Truthy(EndOf(spans[j])) ==> EndOf(spans[j]).value <= max
      invariant max == 0 || exists j :: 0 <= j < i && Truthy(EndOf(spans[j])) && EndOf(spans[j]).value == max
    {
      var s := spans[i];
      if Truthy(s.tStart) && (min.None? || s.tStart.value < min.value) {
        min := s.tStart;
      }
      var end := EndOf(s);
      if Truthy(end) && end.value > max {
        max := end.value;
      }
      i := i + 1;
    }
    lo := if min.None? then 0 else min.value;
    hi := if max < lo then lo + 100 else max;
  }
}
