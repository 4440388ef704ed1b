/** What the two listing commands share: PostgreSQL's descending ORDER BY,
    which puts NULLs first, and the optional bounds on a nullable duration
    column. */
module ListQuery {
  import opened Wrappers
  import opened Seqs

  /** `a` may come before `b` under ORDER BY ... DESC: NULL first, then the
      larger value first. */
  predicate DescLeq(a: Option<real>, b: Option<real>) {
    a.None? || (b.Some? && a.value >= b.value)
  }

  /** Ordering rows by a key, descending, is a consistent ordering. */
  lemma DescLeqTotal<T(!new)>(key: T -> Option<real>)
    ensures TotalPreorder((a: T, b: T) => DescLeq(key(a), key(b)))
  {
  }

  /** ORDER BY key DESC. Rows with equal keys keep their stored order here;
      the database leaves their order open. */
  function OrderDesc<T(!new)>(rows: seq<T>, key: T -> Option<real>): (r: seq<T>)
    ensures multiset(r) == multiset(rows)
    ensures forall i, j :: 0 <= i < j < |r| ==> DescLeq(key(r[i]), key(r[j]))
  {
    DescLeqTotal(key);
    SortBy(rows, (a: T, b: T) => DescLeq(key(a), key(b)))
  }

  /** In a descending order, rows with a NULL key come first, and the keyed
      rows follow from the largest key down. */
  lemma OrderDescNullsFirst<T(!new)>(rows: seq<T>, key: T -> Option<real>, i: nat, j: nat)
    requires i < j < |OrderDesc(rows, key)|
    ensures var r := OrderDesc(rows, key);
      && (key(r[j]).None? ==> key(r[i]).None?)
      && (key(r[i]).Some? ==> key(r[j]).Some? && key(r[i]).value >= key(r[j]).value)
  {
    var r := OrderDesc(rows, key);
    assert DescLeq(key(r[i]), key(r[j]));
  }

  /** A page of an ordered relation: a full page of its rows or what is left
      after the earlier pages, the contiguous run that follows them, in the
      same order. */
  lemma PageOfOrdered<T(!new)>(s: seq<T>, key: T -> Option<real>, page: nat, perPage: nat)
    requires page >= 1
    requires forall i, j :: 0 <= i < j < |s| ==> DescLeq(key(s[i]), key(s[j]))
    ensures var q := Page(s, page, perPage);
      && |q| <= perPage
      && |q| == PageLength(|s|, page, perPage)
      && (forall j :: 0 <= j < |q| ==> q[j] == s[perPage * (page - 1) + j])
      && (forall x :: x in q ==> x in s)
      && (forall i, j :: 0 <= i < j < |q| ==> DescLeq(key(q[i]), key(q[j])))
  {
    var q := Page(s, page, perPage);
    var skip := perPage * (page - 1);
    assert |q| == 0 || skip + |q| <= |s|;
    forall x | x in q
      ensures x in s
    {
      var i :| 0 <= i < |q| && q[i] == x;
      assert s[skip + i] == x;
    }
    forall i, j | 0 <= i < j < |q|
      ensures DescLeq(key(q[i]), key(q[j]))
    {
      assert q[i] == s[skip + i] && q[j] == s[skip + j];
    }
  }

  /** `WHERE dt >= lo` and `WHERE dt <= hi` for the bounds that are given;
      a NULL duration satisfies neither comparison. */
  predicate WithinBounds(dt: Option<real>, lo: Option<real>, hi: Option<real>) {
    && (lo.Some? ==> dt.Some? && dt.value >= lo.value)
    && (hi.Some? ==> dt.Some? && dt.value <= hi.value)
  }
}
