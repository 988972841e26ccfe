/**
 Repeated wires: the delay of a wire cut into equal segments, each driven by a repeater, and the repeater size and
 spacing that minimize it.  Lengths and spacings are in metres, sizes in multiples of the smallest repeater.
 */
module Repeater {

  /** The smallest repeater and one metre of the wire it drives. */
  datatype Device = Device(outRes: real, inCap: real, outCap: real, wireRes: real, wireCap: real,
                           vdd: real, minWidth: real, iOff: real, beta: real)
  {
    predicate Positive() {
      && outRes > 0.0 && inCap > 0.0 && outCap > 0.0 && wireRes > 0.0 && wireCap > 0.0
      && vdd > 0.0 && minWidth > 0.0 && iOff > 0.0 && beta > 0.0
    }
  }

  const SHORT_CIRCUIT_CURRENT := 0.000065

  /** Time constant of one segment whose repeaters each present loadCap per unit of size. */
  function Tc(d: Device, loadCap: real, spacing: real, size: real): real
    requires size > 0.0
  {
    d.outRes * (d.inCap + d.outCap) + d.outRes * d.wireCap * spacing / size
    + d.wireRes * spacing * loadCap * size + 0.5 * d.wireRes * d.wireCap * spacing * spacing
  }

  function Delay(d: Device, loadCap: real, len: real, spacing: real, size: real): real
    requires spacing > 0.0 && size > 0.0
  {
    0.693 * Tc(d, loadCap, spacing, size) * len / spacing
  }

  function Switching(d: Device, spacing: real, size: real): real {
    (size * (d.inCap + d.outCap) + spacing * d.wireCap) * d.vdd * d.vdd
  }

  function ShortCircuit(d: Device, loadCap: real, spacing: real, size: real): real
    requires size > 0.0
  {
    d.vdd * d.minWidth * SHORT_CIRCUIT_CURRENT * 1.0986 * size * Tc(d, loadCap, spacing, size)
  }

  function Dynamic(d: Device, loadCap: real, len: real, spacing: real, size: real): real
    requires spacing > 0.0 && size > 0.0
  {
    len / spacing * (Switching(d, spacing, size) + ShortCircuit(d, loadCap, spacing, size))
  }

  function Leakage(d: Device, len: real, spacing: real, size: real): real
    requires spacing > 0.0
  {
    len / spacing * (1.0 + d.beta) / 2.0 * d.vdd * d.iOff * d.minWidth * size
  }

  // ----- the two square roots -----

  /** root is a square root at x. */
  predicate RootAt(root: real -> real, x: real) {
    root(x) > 0.0 && root(x) * root(x) == x
  }

  function SpacingSquare(d: Device): real
    requires d.Positive()
  {
    ProductPositive(d.wireRes, d.wireCap);
    2.0 * d.outRes * (d.outCap + d.inCap) / (d.wireRes * d.wireCap)
  }

  function SizeSquare(d: Device): real
    requires d.Positive()
  {
    ProductPositive(d.wireRes, d.inCap);
    d.outRes * d.wireCap / (d.wireRes * d.inCap)
  }

  lemma ProductPositive(x: real, y: real)
    requires x > 0.0 && y > 0.0
    ensures x * y > 0.0
  {
  }

  // ----- sums of a falling and a rising term -----

  function Spread(a: real, b: real, x: real): real
    requires x > 0.0
  {
    a / x + b * x
  }

  /** Two values of a/x + b*x differ by the distance of the arguments times b - a/(x*y). */
  lemma SpreadDifference(a: real, b: real, x: real, y: real)
    requires x > 0.0 && y > 0.0
    ensures (Spread(a, b, x) - Spread(a, b, y)) * (x * y) == (x - y) * (b * (x * y) - a)
  {
    var p, q := a / x, a / y;
    assert p * x == a && q * y == a;
    assert p * (x * y) == a * y by { assert p * (x * y) == (p * x) * y; }
    assert q * (x * y) == a * x by { assert q * (x * y) == (q * y) * x; }
    assert (x - y) * (b * (x * y) - a) == (b * x - b * y) * (x * y) - (x - y) * a by {
      assert (x - y) * (b * (x * y)) == (b * x - b * y) * (x * y);
    }
    assert (Spread(a, b, x) - Spread(a, b, y)) * (x * y) == p * (x * y) - q * (x * y) + (b * x - b * y) * (x * y);
  }

  lemma SignOfQuotient(d: real, m: real, p: real)
    requires m > 0.0 && d * m == p
    ensures (p > 0.0 <==> d > 0.0) && (p == 0.0 <==> d == 0.0)
  {
  }

  lemma SameSigns(e: real, f: real)
    requires (e > 0.0 <==> f > 0.0) && (e == 0.0 <==> f == 0.0)
    ensures e == 0.0 || e * f > 0.0
  {
    if e > 0.0 {
      ProductPositive(e, f);
    } else if e < 0.0 {
      ProductPositive(-e, -f);
    }
  }

  /** a/x + b*x has its only minimum at the square root of a/b. */
  lemma SpreadMinimum(a: real, b: real, x: real, y: real)
    requires b > 0.0 && x > 0.0 && y > 0.0 && a == b * (y * y)
    ensures Spread(a, b, x) >= Spread(a, b, y)
    ensures Spread(a, b, x) == Spread(a, b, y) ==> x == y
  {
    hide Spread;
    ProductPositive(x, y);
    ProductPositive(b, y);
    SpreadDifference(a, b, x, y);
    var slope := b * (x * y) - a;
    assert slope == b * y * (x - y) by {
      assert b * (x * y) == b * y * x;
      assert a == b * y * y;
    }
    ScaledSign(b * y, x - y);
    SameSigns(x - y, slope);
    if x != y {
      SignOfQuotient(Spread(a, b, x) - Spread(a, b, y), x * y, (x - y) * slope);
    }
  }

  lemma ScaledSign(c: real, x: real)
    requires c > 0.0
    ensures (c * x > 0.0 <==> x > 0.0) && (c * x == 0.0 <==> x == 0.0)
  {
  }

  /** Below the balance point a smaller argument costs more; above it, less. */
  lemma SpreadOrder(a: real, b: real, x: real, y: real)
    requires 0.0 < x < y
    ensures Spread(a, b, x) < Spread(a, b, y) <==> b * (x * y) > a
  {
    ProductPositive(x, y);
    SpreadDifference(a, b, y, x);
    var diff := Spread(a, b, y) - Spread(a, b, x);
    ScaledSign(y - x, b * (y * x) - a);
    SignOfQuotient(diff, y * x, (y - x) * (b * (y * x) - a));
    assert b * (y * x) == b * (x * y);
  }

  // ----- the delay splits into a part for the spacing and a part for the size -----

  function SpacingPart(d: Device, spacing: real): real
    requires spacing > 0.0
  {
    Spread(d.outRes * (d.inCap + d.outCap), 0.5 * d.wireRes * d.wireCap, spacing)
  }

  function SizePart(d: Device, loadCap: real, size: real): real
    requires size > 0.0
  {
    Spread(d.outRes * d.wireCap, d.wireRes * loadCap, size)
  }

  lemma TcSplits(d: Device, loadCap: real, spacing: real, size: real)
    requires spacing > 0.0 && size > 0.0
    ensures Tc(d, loadCap, spacing, size) == (SpacingPart(d, spacing) + SizePart(d, loadCap, size)) * spacing
  {
    var a, b := d.outRes * (d.inCap + d.outCap), 0.5 * d.wireRes * d.wireCap;
    assert a / spacing * spacing == a;
    assert SpacingPart(d, spacing) * spacing == a + b * spacing * spacing;
    var c, e := d.outRes * d.wireCap, d.wireRes * loadCap;
    assert c * spacing / size == c / size * spacing by {
      assert c / size * size == c;
      assert (c / size * spacing) * size == (c / size * size) * spacing;
      DivideBack(c * spacing, size, c / size * spacing);
    }
    assert SizePart(d, loadCap, size) * spacing == c / size * spacing + e * size * spacing;
    assert e * size * spacing == d.wireRes * spacing * loadCap * size;
  }

  lemma DivideBack(p: real, q: real, r: real)
    requires q != 0.0 && r * q == p
    ensures p / q == r
  {
  }

  lemma DelaySplits(d: Device, loadCap: real, len: real, spacing: real, size: real)
    requires spacing > 0.0 && size > 0.0
    ensures Delay(d, loadCap, len, spacing, size)
         == 0.693 * len * (SpacingPart(d, spacing) + SizePart(d, loadCap, size))
  {
    hide SpacingPart;
    hide SizePart;
    hide Tc;
    TcSplits(d, loadCap, spacing, size);
    var sum := SpacingPart(d, spacing) + SizePart(d, loadCap, size);
    var tc := Tc(d, loadCap, spacing, size);
    assert 0.693 * tc * len == 0.693 * len * sum * spacing by {
      assert 0.693 * (sum * spacing) * len == 0.693 * len * sum * spacing;
    }
    DivideBack(0.693 * tc * len, spacing, 0.693 * len * sum);
  }

  // ----- the optimum -----

  /** The spacing and size the wire model computes. */
  function OptimalSpacing(d: Device, root: real -> real): real
    requires d.Positive()
  {
    root(SpacingSquare(d))
  }

  function OptimalSize(d: Device, root: real -> real): real
    requires d.Positive()
  {
    root(SizeSquare(d))
  }

  ghost predicate Rooted(d: Device, root: real -> real) {
    d.Positive() && RootAt(root, SpacingSquare(d)) && RootAt(root, SizeSquare(d))
  }

  lemma SpacingBalance(d: Device, y: real)
    requires d.Positive() && y > 0.0 && y * y == SpacingSquare(d)
    ensures d.outRes * (d.inCap + d.outCap) == 0.5 * d.wireRes * d.wireCap * (y * y)
  {
    var rc := d.wireRes * d.wireCap;
    ProductPositive(d.wireRes, d.wireCap);
    var top := 2.0 * d.outRes * (d.outCap + d.inCap);
    assert top / rc * rc == top;
    assert 0.5 * d.wireRes * d.wireCap * (y * y) == 0.5 * (y * y * rc);
    assert d.outRes * (d.inCap + d.outCap) == 0.5 * top;
  }

  lemma SizeBalance(d: Device, y: real)
    requires d.Positive() && y > 0.0 && y * y == SizeSquare(d)
    ensures d.outRes * d.wireCap == d.wireRes * d.inCap * (y * y)
  {
    var rc := d.wireRes * d.inCap;
    ProductPositive(d.wireRes, d.inCap);
    var top := d.outRes * d.wireCap;
    assert top / rc * rc == top;
  }

  lemma BestSpacing(d: Device, root: real -> real, spacing: real)
    requires Rooted(d, root) && spacing > 0.0
    ensures SpacingPart(d, OptimalSpacing(d, root)) <= SpacingPart(d, spacing)
    ensures SpacingPart(d, OptimalSpacing(d, root)) == SpacingPart(d, spacing) ==> spacing == OptimalSpacing(d, root)
  {
    hide SpacingSquare;
    hide SizeSquare;
    var y := OptimalSpacing(d, root);
    SpacingBalance(d, y);
    ProductPositive(d.wireRes, d.wireCap);
    SpreadMinimum(d.outRes * (d.inCap + d.outCap), 0.5 * d.wireRes * d.wireCap, spacing, y);
  }

  lemma BestSize(d: Device, root: real -> real, size: real)
    requires Rooted(d, root) && size > 0.0
    ensures SizePart(d, d.inCap, OptimalSize(d, root)) <= SizePart(d, d.inCap, size)
    ensures SizePart(d, d.inCap, OptimalSize(d, root)) == SizePart(d, d.inCap, size) ==> size == OptimalSize(d, root)
  {
    hide SpacingSquare;
    hide SizeSquare;
    var y := OptimalSize(d, root);
    SizeBalance(d, y);
    ProductPositive(d.wireRes, d.inCap);
    SpreadMinimum(d.outRes * d.wireCap, d.wireRes * d.inCap, size, y);
  }

  /**
   Repeater optimum: over all positive spacings and sizes, and for any length of wire, the delay is least at the
   computed spacing and size, and nowhere else.
   */
  lemma DelayOptimum(d: Device, root: real -> real, len: real, spacing: real, size: real)
    requires Rooted(d, root) && len > 0.0 && spacing > 0.0 && size > 0.0
    ensures Delay(d, d.inCap, len, OptimalSpacing(d, root), OptimalSize(d, root))
         <= Delay(d, d.inCap, len, spacing, size)
    ensures Delay(d, d.inCap, len, OptimalSpacing(d, root), OptimalSize(d, root))
            == Delay(d, d.inCap, len, spacing, size)
       <==> spacing == OptimalSpacing(d, root) && size == OptimalSize(d, root)
  {
    hide SpacingPart;
    hide SizePart;
    hide Delay;
    hide OptimalSpacing;
    hide OptimalSize;
    RootsPositive(d, root);
    var s, k := OptimalSpacing(d, root), OptimalSize(d, root);
    BestSpacing(d, root, spacing);
    BestSize(d, root, size);
    DelaySplits(d, d.inCap, len, s, k);
    DelaySplits(d, d.inCap, len, spacing, size);
    var best := SpacingPart(d, s) + SizePart(d, d.inCap, k);
    var other := SpacingPart(d, spacing) + SizePart(d, d.inCap, size);
    ScaledSign(0.693 * len, other - best);
    assert 0.693 * len * (other - best) == 0.693 * len * other - 0.693 * len * best;
  }

  lemma RootsPositive(d: Device, root: real -> real)
    requires Rooted(d, root)
    ensures OptimalSpacing(d, root) > 0.0 && OptimalSize(d, root) > 0.0
  {
  }

  /** Delay, dynamic energy and leakage are proportional to the length of the wire. */
  lemma LengthLinear(d: Device, loadCap: real, len: real, spacing: real, size: real)
    requires spacing > 0.0 && size > 0.0
    ensures Delay(d, loadCap, len, spacing, size) == len * Delay(d, loadCap, 1.0, spacing, size)
    ensures Dynamic(d, loadCap, len, spacing, size) == len * Dynamic(d, loadCap, 1.0, spacing, size)
    ensures Leakage(d, len, spacing, size) == len * Leakage(d, 1.0, spacing, size)
  {
    hide Tc;
    hide Switching;
    hide ShortCircuit;
    var inv := 1.0 / spacing;
    assert inv * spacing == 1.0;
    DivideBack(len, spacing, len * inv);
    var t := 0.693 * Tc(d, loadCap, spacing, size);
    DivideBack(t * len, spacing, t * len * inv);
    DivideBack(t, spacing, t * inv);
    assert t * len * inv == len * (t * inv);
    var e := Switching(d, spacing, size) + ShortCircuit(d, loadCap, spacing, size);
    assert len * inv * e == len * (inv * e);
    LeakageByInverse(d, len, spacing, size, inv);
    LeakageByInverse(d, 1.0, spacing, size, inv);
    assert len * inv * LeakageRate(d, size) == len * (1.0 * inv * LeakageRate(d, size));
  }

  function LeakageRate(d: Device, size: real): real {
    (1.0 + d.beta) / 2.0 * d.vdd * d.iOff * d.minWidth * size
  }

  lemma LeakageByInverse(d: Device, len: real, spacing: real, size: real, inv: real)
    requires spacing > 0.0 && inv * spacing == 1.0
    ensures Leakage(d, len, spacing, size) == len * inv * LeakageRate(d, size)
  {
    DivideBack(len, spacing, len * inv);
    var x := len * inv;
    assert x * (1.0 + d.beta) / 2.0 == x * ((1.0 + d.beta) / 2.0);
    var h := (1.0 + d.beta) / 2.0;
    assert x * h * d.vdd * d.iOff * d.minWidth * size == x * (h * d.vdd * d.iOff * d.minWidth * size) by {
      assert x * h * d.vdd == x * (h * d.vdd);
      assert x * (h * d.vdd) * d.iOff == x * (h * d.vdd * d.iOff);
      assert x * (h * d.vdd * d.iOff) * d.minWidth == x * (h * d.vdd * d.iOff * d.minWidth);
      assert x * (h * d.vdd * d.iOff * d.minWidth) * size == x * (h * d.vdd * d.iOff * d.minWidth * size);
    }
  }
}
