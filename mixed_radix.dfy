/** Facts about mixed-radix flat indices `q * d + r` with `0 <= r < d`.
    Both the frame-major input and the voxel-major output of the 4D atlas
    repack are addressed this way. */
module MixedRadix {

  /** `q * d + r` stays below `n * d` when `q < n`. */
  lemma SlotBound(d: nat, n: nat, q: nat, r: nat)
    requires q < n && r < d
    ensures q * d + r < n * d
  {
    calc {
      q * d + r;
    <
      q * d + d;
    ==
      (q + 1) * d;
    <=  { MulMonotone(q + 1, n, d); }
      n * d;
    }
  }

  lemma MulMonotone(a: nat, b: nat, d: nat)
    requires a <= b
    ensures a * d <= b * d
  {
    assert b * d == a * d + (b - a) * d;
  }

  /** Distinct (quotient, remainder) pairs give distinct flat indices. */
  lemma SlotInjective(d: nat, q1: nat, r1: nat, q2: nat, r2: nat)
    requires r1 < d && r2 < d
    requires q1 * d + r1 == q2 * d + r2
    ensures q1 == q2 && r1 == r2
  {
    if q1 < q2 {
      SlotBound(d, q2, q1, r1);
      MulMonotone(q2, q2, d);
      assert false;
    } else if q2 < q1 {
      SlotBound(d, q1, q2, r2);
      assert false;
    }
  }

  /** Euclidean division recovers the quotient and the remainder of a flat index. */
  lemma DivModSlot(d: nat, q: nat, r: nat)
    requires r < d
    ensures (q * d + r) / d == q && (q * d + r) % d == r
  {
    var i := q * d + r;
    assert i == (i / d) * d + i % d;
    SlotInjective(d, i / d, i % d, q, r);
  }

  /** Every index below `n * d` is some slot `q * d + r` with `q < n`. */
  lemma SplitIndex(d: nat, n: nat, i: nat)
    requires i < n * d
    ensures d > 0 && 0 <= i / d < n && i % d < d
    ensures i == (i / d) * d + i % d
  {
    assert d > 0;
    if i / d >= n {
      MulMonotone(n, i / d, d);
      assert false;
    }
  }
}
