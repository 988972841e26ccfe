/**
 Integer foundations: the shift loop that computes floor(log2), the power-of-two test built on it, and the
 theory of powers of two (natural and real) that every geometry proof rests on.
 */
module BasicCircuit {

  function Pow2(n: nat): (r: nat)
    ensures r >= 1
  {
    if n == 0 then 1 else 2 * Pow2(n - 1)
  }

  ghost predicate PowerOfTwo(x: int) {
    exists k: nat :: x == Pow2(k)
  }

  lemma {:induction false} Pow2Sum(a: nat, b: nat)
    ensures Pow2(a + b) == Pow2(a) * Pow2(b)
  {
    if b > 0 {
      Pow2Sum(a, b - 1);
      assert Pow2(a + b) == 2 * Pow2(a + (b - 1));
    }
  }

  lemma Pow2Increases(a: nat, b: nat)
    requires a < b
    ensures 2 * Pow2(a) <= Pow2(b)
  {
    Pow2Sum(a + 1, b - a - 1);
    assert Pow2(b) == Pow2(a + 1) * Pow2(b - a - 1);
    Scale(Pow2(a + 1), Pow2(b - a - 1));
  }

  lemma Scale(x: nat, y: nat)
    requires y >= 1
    ensures x * y >= x
  {
    assert x * y == x + x * (y - 1);
  }

  lemma Pow2Injective(a: nat, b: nat)
    requires Pow2(a) == Pow2(b)
    ensures a == b
  {
    if a < b {
      Pow2Increases(a, b);
    } else if b < a {
      Pow2Increases(b, a);
    }
  }

  /** The quotient of two powers of two is the power of the difference of exponents, or zero. */
  lemma Pow2Quotient(a: nat, b: nat)
    ensures Pow2(a) / Pow2(b) == if b <= a then Pow2(a - b) else 0
  {
    if b <= a {
      Pow2Sum(a - b, b);
      DivideProduct(Pow2(a - b), Pow2(b));
    } else {
      Pow2Increases(a, b);
      SmallQuotient(Pow2(a), Pow2(b));
    }
  }

  lemma SmallQuotient(n: nat, d: nat)
    requires n < d
    ensures n / d == 0
  {
  }

  lemma DivideProduct(q: nat, d: nat)
    requires d > 0
    ensures q * d / d == q
  {
    var p := q * d;
    QuotientBracket(p, d, q);
  }

  /** A quotient is pinned down by the interval of its multiples. */
  lemma QuotientBracket(p: int, d: int, q: int)
    requires d > 0 && q * d <= p < q * d + d
    ensures p / d == q
  {
    var r := p / d;
    assert p == r * d + p % d;
    if r < q {
      assert (q - r) * d >= d by { ScaleInt(q - r, d); }
    } else if q < r {
      assert (r - q) * d >= d by { ScaleInt(r - q, d); }
    }
  }

  lemma ScaleInt(x: int, d: int)
    requires x >= 1 && d > 0
    ensures x * d >= d
  {
  }

  /** floor(log2(n)), characterised by the two powers that bracket n. */
  function Log2(n: nat): (r: nat)
    requires n > 0
    ensures Pow2(r) <= n < Pow2(r + 1)
  {
    if n == 1 then 0 else 1 + Log2(n / 2)
  }

  lemma Log2Unique(n: nat, k: nat)
    requires Pow2(k) <= n < Pow2(k + 1)
    ensures Log2(n) == k
  {
    var r := Log2(n);
    if r < k {
      Pow2Monotone(r + 1, k);
    } else if k < r {
      Pow2Monotone(k + 1, r);
    }
  }

  lemma Pow2Monotone(a: nat, b: nat)
    requires a <= b
    ensures Pow2(a) <= Pow2(b)
  {
    if a < b {
      Pow2Increases(a, b);
    }
  }

  lemma Log2OfPow2(k: nat)
    ensures Log2(Pow2(k)) == k
  {
    Log2Unique(Pow2(k), k);
  }

  lemma Log2Monotone(a: nat, b: nat)
    requires 0 < a <= b
    ensures Log2(a) <= Log2(b)
  {
    if Log2(b) < Log2(a) {
      Pow2Monotone(Log2(b) + 1, Log2(a));
    }
  }

  datatype LogResult<+T> = Ok(value: T) | Exit

  /** The shift loop.  Zero is the one input on which the program exits. */
  method ComputeLog2(num: nat) returns (r: LogResult<nat>)
    ensures r.Exit? <==> num == 0
    ensures r.Ok? ==> Pow2(r.value) <= num < Pow2(r.value + 1)
    ensures r.Ok? ==> r.value == Log2(num)
  {
    if num == 0 {
      return Exit;
    }
    var n, log2 := num, 0;
    while n > 1
      invariant n >= 1
      invariant Log2(num) == log2 + Log2(n)
    {
      n := n / 2;
      log2 := log2 + 1;
    }
    return Ok(log2);
  }

  /** The test compares the logarithms of val and val-1: they differ only at a power of two. */
  method IsPow2(val: int) returns (r: bool)
    ensures r <==> PowerOfTwo(val)
  {
    if val <= 0 {
      return false;
    } else if val == 1 {
      assert val == Pow2(0);
      return true;
    } else {
      var a := ComputeLog2(val);
      var b := ComputeLog2(val - 1);
      LogStep(val);
      return a != b;
    }
  }

  lemma LogStep(val: nat)
    requires val > 1
    ensures Log2(val) != Log2(val - 1) <==> PowerOfTwo(val)
  {
    if Log2(val) != Log2(val - 1) {
      Log2Monotone(val - 1, val);
      Pow2Monotone(Log2(val - 1) + 1, Log2(val));
      assert val == Pow2(Log2(val));
    }
    if PowerOfTwo(val) {
      var k: nat :| val == Pow2(k);
      Log2OfPow2(k);
      assert val - 1 < Pow2(Log2(val));
    }
  }

  function Power(base: int, n: nat): int {
    if n == 0 then 1 else base * Power(base, n - 1)
  }

  /** powers(base, n): a negative exponent leaves the product empty. */
  method Powers(base: int, n: int) returns (p: int)
    ensures p == Power(base, if n < 0 then 0 else n)
  {
    p := 1;
    var i := 1;
    while i <= n
      invariant 1 <= i && (n >= 0 ==> i <= n + 1)
      invariant p == Power(base, i - 1)
      invariant n < 0 ==> i == 1
    {
      p := p * base;
      i := i + 1;
    }
  }

  // ----- ratios of powers of two, rounded half up -----

  function RoundedRatio(n: nat, d: nat): int
    requires d > 0
  {
    (n as real / d as real + 0.5).Floor
  }

  /** Adding one half and truncating is exact from 2^0 on, gives one at 2^-1, and zero below. */
  lemma RoundRatio(p: nat, q: nat)
    ensures RoundedRatio(Pow2(p), Pow2(q))
         == if q <= p then Pow2(p - q) else if q == p + 1 then 1 else 0
  {
    if q <= p {
      Pow2Sum(p - q, q);
      RoundMultiple(Pow2(p), Pow2(q), Pow2(p - q));
    } else if q == p + 1 {
      RoundHalf(Pow2(p), Pow2(q));
    } else {
      Pow2Increases(p + 1, q);
      RoundQuarter(Pow2(p), Pow2(q));
    }
  }

  lemma RoundMultiple(n: nat, d: nat, k: nat)
    requires d > 0 && n == k * d
    ensures RoundedRatio(n, d) == k
  {
    ProductAsReal(k, d);
    RatioIs(k as real, n as real, d as real);
    assert (k as real + 0.5).Floor == k;
  }

  lemma ProductAsReal(k: int, d: int)
    ensures (k * d) as real == k as real * d as real
  {
  }

  /** Scaling by a positive factor keeps and reflects the order. */
  lemma ScaleOrder(x: real, y: real, b: real)
    requires b > 0.0
    ensures x < y <==> x * b < y * b
    ensures x <= y <==> x * b <= y * b
  {
    var d := (y - x) * b;
    assert d == y * b - x * b;
    if x < y {
      assert d > 0.0;
    } else if y < x {
      assert (x - y) * b > 0.0;
    }
  }

  lemma RoundHalf(n: nat, d: nat)
    requires n > 0 && d == 2 * n
    ensures RoundedRatio(n, d) == 1
  {
    RatioIs(0.5, n as real, d as real);
  }

  lemma RoundQuarter(n: nat, d: nat)
    requires n > 0 && d >= 4 * n
    ensures RoundedRatio(n, d) == 0
  {
    RatioAtMostQuarter(n as real, d as real);
  }

  lemma RatioIs(k: real, n: real, d: real)
    requires d > 0.0 && n == k * d
    ensures n / d == k
  {
  }

  lemma RatioAtMostQuarter(n: real, d: real)
    requires n > 0.0 && d >= 4.0 * n
    ensures 0.0 < n / d <= 0.25
  {
  }
}
