/** Arithmetic of bytes and whole items. */
module Arith {

  /** Values of `uint64_t`, and of `size_t`. */
  const UINT64_RANGE: nat := 0x1_0000_0000_0000_0000

  lemma MulMono(a: int, b: int, c: nat)
    requires a <= b
    ensures a * c <= b * c
  {
    assert (b - a) * c >= 0;
  }

  lemma MulSplit(a: nat, b: nat, c: nat)
    ensures (a + b) * c == a * c + b * c
  {
  }

  lemma DivBounds(a: nat, b: nat)
    requires b > 0
    ensures 0 <= a / b && a / b * b <= a < (a / b + 1) * b
  {
  }

  lemma PositiveQuotient(a: nat, b: nat)
    requires 1 <= b <= a
    ensures 1 <= a / b
  {
    DivBounds(a, b);
  }

  predicate Aligned(index: nat, itemSize: nat) {
    itemSize > 0 && index % itemSize == 0
  }

  /** A number of bytes is aligned exactly if dividing by the item size loses nothing. */
  lemma AlignedIffWhole(a: nat, c: nat)
    requires c > 0
    ensures Aligned(a, c) <==> a / c * c == a
  {
  }

  lemma WholeIsAligned(k: nat, c: nat)
    requires c > 0
    ensures Aligned(k * c, c) && k * c / c == k
  {
    DivBounds(k * c, c);
    var q := k * c / c;
    if q < k {
      MulMono(q + 1, k, c);
    } else if q > k {
      MulMono(k + 1, q, c);
      MulSplit(k, 1, c);
    }
    AlignedIffWhole(k * c, c);
  }

  lemma AlignedSum(a: nat, b: nat, c: nat)
    requires Aligned(a, c) && Aligned(b, c)
    ensures Aligned(a + b, c)
  {
    AlignedIffWhole(a, c);
    AlignedIffWhole(b, c);
    MulSplit(a / c, b / c, c);
    WholeIsAligned(a / c + b / c, c);
  }

  lemma AlignedDifference(a: nat, b: nat, c: nat)
    requires Aligned(a, c) && Aligned(b, c) && b <= a
    ensures Aligned(a - b, c)
  {
    AlignedIffWhole(a, c);
    AlignedIffWhole(b, c);
    var p, q := a / c, b / c;
    if p < q {
      MulMono(p, q, c);
    } else {
      MulSplit(p - q, q, c);
      WholeIsAligned(p - q, c);
    }
  }

  lemma AlignedPositive(a: nat, c: nat)
    requires Aligned(a, c) && a > 0
    ensures a / c > 0
  {
    AlignedIffWhole(a, c);
  }

  /** Quotient and remainder are the only ones. */
  lemma ModUnique(a: int, q: int, m: int, n: nat)
    requires n > 0 && 0 <= m < n && a == q * n + m
    ensures a % n == m && a / n == q
  {
    var p, l := a / n, a % n;
    assert (p - q) * n == m - l;
    if p > q {
      MulMono(1, p - q, n);
    } else if p < q {
      MulMono(1, q - p, n);
    }
  }

  lemma QuotientAndRest(a: nat, c: nat)
    requires 1 <= c
    ensures a == a / c * c + a % c
  {
  }
}
