/** How big a memory-mapped circular buffer gets: the page rounding of buffer_cpu_vmcirc.cc. */
module BufferSizing {
  import opened Arith

  // ----- greatest common divisor

  function Gcd(a: nat, b: nat): (d: nat)
    requires 1 <= a || 1 <= b
    ensures 1 <= d
    decreases b
  {
    if b == 0 then a else Gcd(b, a % b)
  }

  ghost predicate IsMultiple(a: int, d: int) { exists k: int :: a == k * d }

  lemma MultipleSum(a: int, b: int, q: int, d: int)
    requires IsMultiple(a, d) && IsMultiple(b, d)
    ensures IsMultiple(a * q + b, d)
  {
    var i, j :| a == i * d && b == j * d;
    assert a * q + b == (i * q + j) * d;
  }

  lemma {:induction false} GcdDivides(a: nat, b: nat)
    requires 1 <= a || 1 <= b
    ensures IsMultiple(a, Gcd(a, b)) && IsMultiple(b, Gcd(a, b))
    decreases b
  {
    if b == 0 {
      assert a == 1 * a && 0 == 0 * a;
    } else {
      GcdDivides(b, a % b);
      MultipleSum(b, a % b, a / b, Gcd(a, b));
    }
  }

  /** The divisor is a combination of the two numbers. */
  lemma {:induction false} GcdIsCombination(a: nat, b: nat) returns (x: int, y: int)
    requires 1 <= a || 1 <= b
    ensures Gcd(a, b) == x * a + y * b
    decreases b
  {
    if b == 0 {
      x, y := 1, 0;
    } else {
      var u, v := GcdIsCombination(b, a % b);
      Recombine(a, b, u, v);
      x, y := v, u - v * (a / b);
    }
  }

  lemma Recombine(a: nat, b: nat, u: int, v: int)
    requires 1 <= b
    ensures u * b + v * (a % b) == v * a + (u - v * (a / b)) * b
  {
    var q, r := a / b, a % b;
    assert a == q * b + r;
    assert v * a == v * (q * b) + v * r;
    assert v * (q * b) == (v * q) * b;
    assert (u - v * q) * b == u * b - (v * q) * b;
  }

  lemma CancelFactor(a: int, b: int, d: nat)
    requires 1 <= d && a * d == b * d
    ensures a == b
  {
    assert (a - b) * d == 0;
  }

  lemma PositiveFactor(m: int, d: nat)
    requires 1 <= d && 1 <= m * d
    ensures 1 <= m
  {
  }

  lemma PagesMeanMultiple(n: nat, i: int, m: int, d: nat, x: int, y: int)
    requires 1 <= d && d == x * (i * d) + y * (m * d) && IsMultiple(n * (i * d), m * d)
    ensures IsMultiple(n, m)
  {
    CofactorsCombine(i, m, d, x, y);
    var q: int :| n * (i * d) == q * (m * d);
    assert n * (i * d) == (n * i) * d;
    assert q * (m * d) == (q * m) * d;
    CancelFactor(n * i, q * m, d);
    Collect(n, i, m, q, x, y);
  }

  lemma MultipleMeansPages(n: nat, i: int, m: int, d: nat)
    requires IsMultiple(n, m)
    ensures IsMultiple(n * (i * d), m * d)
  {
    var k: int :| n == k * m;
    assert (k * m) * (i * d) == (k * i) * (m * d);
  }

  /** n items of the given size fill whole pages exactly if n is a multiple of page / gcd. */
  lemma WholePagesIff(n: nat, item: nat, page: nat)
    requires 1 <= item && 1 <= page
    ensures 1 <= page / Gcd(item, page)
    ensures IsMultiple(n * item, page) <==> IsMultiple(n, page / Gcd(item, page))
  {
    var d := Gcd(item, page);
    GcdDivides(item, page);
    var i: int :| item == i * d;
    var m: int :| page == m * d;
    ModUnique(page, m, 0, d);
    PositiveFactor(m, d);
    var x, y := GcdIsCombination(item, page);
    if IsMultiple(n * item, page) {
      PagesMeanMultiple(n, i, m, d, x, y);
    }
    if IsMultiple(n, m) {
      MultipleMeansPages(n, i, m, d);
    }
  }

  lemma CofactorsCombine(i: int, m: int, d: nat, x: int, y: int)
    requires 1 <= d && d == x * (i * d) + y * (m * d)
    ensures x * i + y * m == 1
  {
    assert x * (i * d) == (x * i) * d;
    assert y * (m * d) == (y * m) * d;
    assert (x * i + y * m) * d == (x * i) * d + (y * m) * d;
    CancelFactor(x * i + y * m, 1, d);
  }

  lemma Collect(n: int, i: int, m: int, q: int, x: int, y: int)
    requires x * i + y * m == 1 && n * i == q * m
    ensures IsMultiple(n, m)
  {
    assert n * (x * i + y * m) == n * (x * i) + n * (y * m);
    assert n * (x * i) == x * (n * i);
    assert x * (q * m) == (x * q) * m;
    assert n * (y * m) == (n * y) * m;
    assert (x * q) * m + (n * y) * m == (x * q + n * y) * m;
    assert n == (x * q + n * y) * m;
  }

  // ----- page rounding

  /** The smallest multiple of m that is at least n. */
  function RoundUp(n: nat, m: nat): nat
    requires 1 <= m
  {
    if n % m != 0 then (n / m + 1) * m else n
  }

  lemma RoundUpIsLeast(n: nat, m: nat, k: nat)
    requires 1 <= m
    ensures n <= RoundUp(n, m) && IsMultiple(RoundUp(n, m), m)
    ensures n <= k && IsMultiple(k, m) ==> RoundUp(n, m) <= k
  {
    DivBounds(n, m);
    assert n == n / m * m + n % m;
    if n % m == 0 {
      assert n == n / m * m;
    }
    if n <= k && IsMultiple(k, m) {
      var j: int :| k == j * m;
      if j <= n / m && n % m != 0 {
        MulMono(j, n / m, m);
      } else if n % m != 0 {
        MulMono(n / m + 1, j, m);
      }
    }
  }

  /** The constructor's arithmetic: items and bytes of the buffer. */
  method PageRounded(numItems: nat, itemSize: nat, granularity: nat) returns (items: nat, bytes: nat)
    requires 1 <= itemSize && 1 <= granularity
    ensures items >= numItems && bytes == items * itemSize && IsMultiple(bytes, granularity)
    ensures forall k: nat :: numItems <= k && IsMultiple(k * itemSize, granularity) ==> items <= k
  {
    var d := Gcd(itemSize, granularity);
    WholePagesIff(numItems, itemSize, granularity);
    var minBufferItems := granularity / d;
    var wanted := numItems;
    if wanted % minBufferItems != 0 {
      wanted := (wanted / minBufferItems + 1) * minBufferItems;
    }
    RoundUpIsLeast(numItems, minBufferItems, 0);
    WholePagesIff(wanted, itemSize, granularity);
    var requested := wanted * itemSize;
    var pages := requested / granularity;
    WholeMultiple(requested, granularity);
    if requested != granularity * pages {
      pages := pages + 1;
    }
    bytes := granularity * pages;
    ModUnique(bytes, wanted, 0, itemSize);
    items := bytes / itemSize;
    forall k: nat | numItems <= k && IsMultiple(k * itemSize, granularity) ensures items <= k {
      WholePagesIff(k, itemSize, granularity);
      RoundUpIsLeast(numItems, minBufferItems, k);
    }
  }

  lemma WholeMultiple(a: nat, d: nat)
    requires 1 <= d && IsMultiple(a, d)
    ensures d * (a / d) == a
  {
    var k: int :| a == k * d;
    ModUnique(a, k, 0, d);
  }
}
