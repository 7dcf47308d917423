/** Facts about Euclidean division by a positive divisor on natural numbers,
    used to relate a flat buffer index to the coordinate pair computed from it. */
module DivMod {

  /** Quotient and remainder are unique: any split `i == q * d + r` with
      `r < d` is the one that `/` and `%` compute. */
  lemma {:induction false} DivModUnique(i: nat, d: nat, q: nat, r: nat)
    requires 0 < d && r < d && i == q * d + r
    ensures i / d == q && i % d == r
  {
    var q', r' := i / d, i % d;
    assert i == q' * d + r';
    if q < q' {
      assert (q' - q) * d == r - r';
      MulAtLeastOne(q' - q, d);
      assert false;
    } else if q' < q {
      assert (q - q') * d == r' - r;
      MulAtLeastOne(q - q', d);
      assert false;
    }
  }

  /** A positive multiple of `d` is at least `d`. */
  lemma MulAtLeastOne(k: nat, d: nat)
    requires 0 < k
    ensures d <= k * d
  {
    assert k * d == (k - 1) * d + d;
  }

  /** Division by a fixed positive divisor is monotone. */
  lemma {:induction false} DivMonotone(i: nat, j: nat, d: nat)
    requires 0 < d && i <= j
    ensures i / d <= j / d
  {
    var qi, qj := i / d, j / d;
    assert qi * d + i % d == i;
    assert qj * d + j % d == j;
    if qj < qi {
      MulAtLeastOne(qi - qj, d);
      assert false;
    }
  }

  /** An index below `q * d` has quotient below `q`. */
  lemma {:induction false} DivBelow(i: nat, d: nat, q: nat)
    requires 0 < d && i < q * d
    ensures i / d < q
  {
  }
}
