/** Small facts about integer multiplication and Euclidean division that
    the grid and stride proofs lean on. */
module Arith {
  lemma MulMonotone(x: int, y: int, w: nat)
    requires x <= y
    ensures x * w <= y * w
  {
    var d := y - x;
    assert d * w >= 0;
    assert y * w == x * w + d * w;
  }

  lemma DivUnique(x: int, w: nat, q: int, m: int)
    requires w > 0 && x == q * w + m && 0 <= m < w
    ensures x / w == q && x % w == m
  {
    var q' := x / w;
    var m' := x % w;
    assert x == q' * w + m';
    if q' < q {
      MulMonotone(q' + 1, q, w);
      assert false;
    } else if q' > q {
      MulMonotone(q + 1, q', w);
      assert false;
    }
  }

  lemma ModOfMultiple(k: int, w: nat)
    requires w > 0
    ensures (k * w) / w == k && (k * w) % w == 0
  {
    DivUnique(k * w, w, k, 0);
  }

  /** An exact quotient multiplies back to the dividend. */
  lemma ExactQuotient(x: int, w: nat)
    requires w > 0 && x % w == 0
    ensures (x / w) * w == x
  {
  }

  /** Multiplication distributes over a successor. */
  lemma MulSucc(k: int, w: int)
    ensures (k + 1) * w == k * w + w
  {
  }

  /** A multiple of `w` below `x` bounds the quotient from below. */
  lemma DivLowerBound(x: int, w: nat, k: int)
    requires w > 0 && x >= k * w
    ensures x / w >= k
  {
    var q := x / w;
    if q < k {
      assert x == q * w + x % w;
      MulMonotone(q + 1, k, w);
      assert false;
    }
  }
}
