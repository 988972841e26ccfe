/**
 Rows, columns and tag width, stated on the inputs: the nearest whole numbers they are, when they waste nothing, and
 what a tag of that width can tell apart.
 */
module TagGeometry {
  import opened BasicCircuit
  import opened Parameter
  import opened Conservation
  import Io

  // ----- nearest whole numbers -----

  /** r is x/d rounded to the nearest whole number, halves up. */
  ghost predicate Nearest(r: int, x: real, d: real) {
    (r as real - 0.5) * d <= x < (r as real + 0.5) * d
  }

  lemma RoundIsNearest(x: real, d: real)
    requires d > 0.0
    ensures Nearest(Round(x / d), x, d)
  {
    var q, r := x / d, Round(x / d);
    assert q * d == x;
    assert r as real <= q + 0.5 < r as real + 1.0;
    ScaleOrder(r as real - 0.5, q, d);
    ScaleOrder(q, r as real + 0.5, d);
  }

  lemma DividedIsNearest(n: nat, d: nat, s: real)
    requires d > 0 && s > 0.0
    ensures Nearest(DividedBy(n, d, s), n as real, d as real * s)
  {
    hide Round;
    hide Nearest;
    ScaledPositive(d, s);
    RoundIsNearest(n as real, d as real * s);
  }

  lemma SpreadIsNearest(n: int, s: real, d: nat)
    requires d > 0
    ensures Nearest(SpreadOver(n, s, d), n as real * s, d as real)
  {
    hide Round;
    hide Nearest;
    RoundIsNearest(n as real * s, d as real);
  }

  /** Rows are the capacity over what one row of all subarrays of all banks holds, by the array's own associativity. */
  lemma RowsNearest(ip: Ip, isTag: bool, p: Partition)
    requires ip.Positive() && p.Positive() && p.ndbl >= 1 && !ip.fullyAssoc
    ensures var assoc := if isTag then ip.tagAssoc else ip.dataAssoc;
            Nearest(Rows(ip, isTag, p), ip.cacheSz as real, (ip.nbanks * ip.blockSz * assoc * p.ndbl) as real * p.nspd)
  {
    DividedIsNearest(ip.cacheSz, RowDivisor(ip, isTag, p), p.nspd);
  }

  lemma ColsSpread(ip: Ip, isTag: bool, p: Partition, bits: int)
    requires ip.Positive() && p.Positive() && p.ndwl >= 1 && !ip.fullyAssoc
    requires bits == if isTag then TagBits(ip) * ip.tagAssoc else 8 * ip.blockSz * ip.dataAssoc
    ensures Cols(ip, isTag, p) == SpreadOver(bits, p.nspd, p.ndwl)
  {
  }

  /** Columns are the bits of one set, tags or lines, spread over the subarrays side by side. */
  lemma ColsNearest(ip: Ip, isTag: bool, p: Partition)
    requires ip.Positive() && p.Positive() && p.ndwl >= 1 && !ip.fullyAssoc
    ensures var bits := if isTag then TagBits(ip) * ip.tagAssoc else 8 * ip.blockSz * ip.dataAssoc;
            Nearest(Cols(ip, isTag, p), bits as real * p.nspd, p.ndwl as real)
  {
    hide TagBits;
    hide Round;
    var bits := if isTag then TagBits(ip) * ip.tagAssoc else 8 * ip.blockSz * ip.dataAssoc;
    ColsSpread(ip, isTag, p, bits);
    hide Cols;
    SpreadIsNearest(bits, p.nspd, p.ndwl);
  }

  // ----- nothing wasted -----

  lemma RatioExact(r: int, n: nat, d: nat)
    requires d > 0 && r == RoundedRatio(n, d)
    ensures r * d == n <==> n % d == 0
  {
    assert n == n / d * d + n % d;
    if n % d == 0 {
      RoundMultiple(n, d, n / d);
    }
    if r * d == n {
      Divisible(r, d);
    }
  }

  lemma FactorsPositive(ip: Ip, ndbl: nat, x: nat)
    requires ip.Positive() && ndbl > 0 && x > 0
    ensures ip.nbanks * ip.blockSz * ip.tagAssoc * ndbl > 0 && ip.nbanks * ip.blockSz * ip.tagAssoc * ndbl * x > 0
  {
    PositiveProduct(ip.nbanks, ip.blockSz);
    PositiveProduct(ip.nbanks * ip.blockSz, ip.tagAssoc);
    PositiveProduct(ip.nbanks * ip.blockSz * ip.tagAssoc, ndbl);
    PositiveProduct(ip.nbanks * ip.blockSz * ip.tagAssoc * ndbl, x);
  }

  /**
   Every set has its share of a row, exactly: with Nspd the ratio 2^i/2^j, the rows of a tag array times what one row
   of all subarrays serves is the capacity if and only if that divides it.
   */
  lemma TagRowsExact(ip: Ip, p: Partition, i: nat, j: nat)
    requires ip.Positive() && p.Positive() && p.ndbl >= 1 && !ip.fullyAssoc && NspdIs(p.nspd, i, j)
    ensures ip.nbanks * ip.blockSz * ip.tagAssoc * p.ndbl * Pow2(i) > 0
    ensures Rows(ip, true, p) * (ip.nbanks * ip.blockSz * ip.tagAssoc * p.ndbl * Pow2(i)) == ip.cacheSz * Pow2(j)
       <==> ip.cacheSz * Pow2(j) % (ip.nbanks * ip.blockSz * ip.tagAssoc * p.ndbl * Pow2(i)) == 0
  {
    FactorsPositive(ip, p.ndbl, Pow2(i));
    TagRowsRatio(ip, p, i, j);
    RatioExact(Rows(ip, true, p), ip.cacheSz * Pow2(j), ip.nbanks * ip.blockSz * ip.tagAssoc * p.ndbl * Pow2(i));
  }

  lemma TagRowsRatio(ip: Ip, p: Partition, i: nat, j: nat)
    requires ip.Positive() && p.Positive() && p.ndbl >= 1 && !ip.fullyAssoc && NspdIs(p.nspd, i, j)
    ensures ip.nbanks * ip.blockSz * ip.tagAssoc * p.ndbl * Pow2(i) > 0
    ensures Rows(ip, true, p)
         == RoundedRatio(ip.cacheSz * Pow2(j), ip.nbanks * ip.blockSz * ip.tagAssoc * p.ndbl * Pow2(i))
  {
    FactorsPositive(ip, p.ndbl, Pow2(i));
    ScaledDivisor(ip.cacheSz, ip.nbanks * ip.blockSz * ip.tagAssoc * p.ndbl, p.nspd, Pow2(i), Pow2(j));
  }

  /** With powers of two the minimum row count already guarantees it. */
  lemma TagRowsConserved(ip: Ip, isMainMem: bool, p: Partition, i: nat, j: nat)
    requires ip.Positive() && p.Positive() && Accepted(ip, true, isMainMem, p) && !ip.fullyAssoc
    requires PowerOfTwo(ip.cacheSz) && PowerOfTwo(ip.nbanks) && PowerOfTwo(ip.blockSz) && PowerOfTwo(ip.tagAssoc)
    requires PowerOfTwo(p.ndbl) && NspdIs(p.nspd, i, j)
    ensures Rows(ip, true, p) * (ip.nbanks * ip.blockSz * ip.tagAssoc * p.ndbl * Pow2(i)) == ip.cacheSz * Pow2(j)
  {
    hide Accepted;
    hide Rows;
    hide Pow2;
    hide RoundedRatio;
    TagRowsRatio(ip, p, i, j);
    AcceptedRows(ip, isMainMem, p);
    var c: nat :| ip.cacheSz == Pow2(c);
    var n: nat :| ip.nbanks == Pow2(n);
    var b: nat :| ip.blockSz == Pow2(b);
    var a: nat :| ip.tagAssoc == Pow2(a);
    var l: nat :| p.ndbl == Pow2(l);
    Pow2Product5(n, b, a, l, i);
    Pow2Sum(c, j);
    ExactPowers(c + j, n + b + a + l + i, Rows(ip, true, p));
  }

  lemma ExactPowers(x: nat, y: nat, r: int)
    requires r == RoundedRatio(Pow2(x), Pow2(y)) && r >= 16
    ensures r * Pow2(y) == Pow2(x)
  {
    RoundRatio(x, y);
    Pow2Sum(x - y, y);
  }

  lemma AcceptedRows(ip: Ip, isMainMem: bool, p: Partition)
    requires ip.Positive() && p.Positive() && Accepted(ip, true, isMainMem, p) && !ip.fullyAssoc
    ensures Rows(ip, true, p) >= 16
  {
  }

  lemma TagColsRatio(ip: Ip, p: Partition, i: nat, j: nat)
    requires ip.Positive() && p.Positive() && p.ndwl >= 1 && !ip.fullyAssoc && NspdIs(p.nspd, i, j) && TagBits(ip) >= 0
    ensures TagBits(ip) * ip.tagAssoc >= 0 && TagBits(ip) * ip.tagAssoc * Pow2(i) >= 0 && p.ndwl * Pow2(j) > 0
    ensures Cols(ip, true, p) == RoundedRatio(TagBits(ip) * ip.tagAssoc * Pow2(i), p.ndwl * Pow2(j))
  {
    hide TagBits;
    NonNegativeTimes(TagBits(ip), ip.tagAssoc);
    NonNegativeTimes(TagBits(ip) * ip.tagAssoc, Pow2(i));
    ScaledNumerator(TagBits(ip) * ip.tagAssoc, p.ndwl, p.nspd, Pow2(i), Pow2(j));
  }

  lemma NonNegativeTimes(x: int, y: nat)
    requires x >= 0
    ensures x * y >= 0
  {
  }

  /** Cells of all tag subarrays of all banks. */
  ghost function TagCells(ip: Ip, p: Partition): int
    requires ip.Positive() && p.Positive() && p.ndwl >= 1 && p.ndbl >= 1
  {
    Rows(ip, true, p) * Cols(ip, true, p) * p.ndwl * p.ndbl * ip.nbanks
  }

  /**
   One tag for every line, exactly: where the rows waste nothing, the cells of a tag array are one tag of the tag width
   for each line of the capacity if and only if the tags of a set spread evenly over the subarrays side by side.
   */
  lemma TagCellsExact(ip: Ip, p: Partition, i: nat, j: nat)
    requires ip.Positive() && p.Positive() && p.ndwl >= 1 && p.ndbl >= 1 && !ip.fullyAssoc && NspdIs(p.nspd, i, j)
    requires Cols(ip, true, p) >= MIN_SUBARRAY_COLS
    requires Rows(ip, true, p) * (ip.nbanks * ip.blockSz * ip.tagAssoc * p.ndbl * Pow2(i)) == ip.cacheSz * Pow2(j)
    ensures TagBits(ip) > 0 && p.ndwl * Pow2(j) > 0
    ensures TagCells(ip, p) * ip.blockSz == ip.cacheSz * TagBits(ip)
       <==> TagBits(ip) * ip.tagAssoc * Pow2(i) % (p.ndwl * Pow2(j)) == 0
  {
    hide TagBits;
    hide Rows;
    hide Cols;
    TagBitsPositive(ip, p);
    TagColsRatio(ip, p, i, j);
    RatioExact(Cols(ip, true, p), TagBits(ip) * ip.tagAssoc * Pow2(i), p.ndwl * Pow2(j));
    PositiveProduct(ip.tagAssoc, Pow2(i));
    PositiveProduct(ip.cacheSz, Pow2(j));
    CrossTotals(Rows(ip, true, p), Cols(ip, true, p), p.ndwl, p.ndbl, ip.nbanks, ip.blockSz, ip.tagAssoc, ip.cacheSz,
                TagBits(ip), Pow2(i), Pow2(j));
  }

  /** r*n*b*a*l*x == c*y turns r*k*w*l*n*b == c*t into k*w*y == t*a*x. */
  lemma CrossTotals(r: int, k: int, w: nat, l: nat, n: nat, b: nat, a: nat, c: nat, t: int, x: nat, y: nat)
    requires r * (n * b * a * l * x) == c * y && c > 0 && a * x > 0
    ensures r * k * w * l * n * b == c * t <==> k * (w * y) == t * a * x
  {
    var s := r * l * n * b;
    assert r * k * w * l * n * b == k * w * s by { Shuffle6(r, k, w, l, n, b); }
    assert s * (a * x) == c * y by { Shuffle5(r, n, b, a, l, x); }
    var kw, ax := k * w, a * x;
    // (kw * s) * ax == kw * (c * y), so kw * s == c * t exactly when kw * y == t * ax.
    assert kw * s * ax == kw * (c * y) by { assert kw * s * ax == kw * (s * ax); }
    assert kw * (c * y) == c * (kw * y) by { Swap3(kw, c, y); }
    assert k * (w * y) == kw * y;
    assert t * a * x == t * ax;
    if kw * s == c * t {
      assert c * (kw * y) == c * (t * ax) by { assert c * t * ax == c * (t * ax); }
      CancelFactor(c, kw * y, t * ax);
    }
    if kw * y == t * ax {
      assert kw * s * ax == c * t * ax by { assert c * t * ax == c * (t * ax); }
      Commuted(ax, kw * s);
      Commuted(ax, c * t);
      CancelFactor(ax, kw * s, c * t);
    }
  }

  lemma Shuffle6(r: int, k: int, w: int, l: int, n: int, b: int)
    ensures r * k * w * l * n * b == k * w * (r * l * n * b)
  {
    assert r * k * w == k * w * r;
    assert r * k * w * l == k * w * (r * l);
    assert r * k * w * l * n == k * w * (r * l * n);
  }

  lemma Shuffle5(r: int, n: int, b: int, a: int, l: int, x: int)
    ensures r * l * n * b * (a * x) == r * (n * b * a * l * x)
  {
    assert n * b * a * l == l * n * b * a;
    assert n * b * a * l * x == l * n * b * (a * x);
    assert r * l * n * b == r * (l * n * b);
  }

  lemma Swap3(x: int, y: int, z: int)
    ensures x * (y * z) == y * (x * z)
  {
  }

  lemma Commuted(x: int, y: int)
    ensures x * y == y * x
  {
  }

  lemma CancelFactor(c: int, x: int, y: int)
    requires c > 0 && c * x == c * y
    ensures x == y
  {
    assert c * (x - y) == 0;
  }

  // ----- the width of a tag -----

  /** w is the least multiple of four that is at least x. */
  predicate CoversLeast(w: int, x: int) {
    w % 4 == 0 && x <= w < x + 4
  }

  lemma RoundedToFour(x: int)
    ensures CoversLeast((x + 3) / 4 * 4, x)
  {
  }

  /** A width given by the user is rounded up. */
  lemma GivenTagWidth(ip: Ip)
    requires ip.Positive() && ip.specificTag
    ensures CoversLeast(TagBits(ip), ip.tagW)
  {
    RoundedToFour(ip.tagW);
  }

  /** A fully associative tag covers the 42 address bits and 5 more, but for those of a line. */
  lemma FullyAssociativeTagWidth(ip: Ip, b: nat)
    requires ip.Positive() && !ip.specificTag && ip.fullyAssoc && Pow2(b) <= ip.blockSz < 2 * Pow2(b)
    ensures CoversLeast(TagBits(ip), 42 + 5 - b)
  {
    assert Pow2(b + 1) == 2 * Pow2(b);
    Log2Unique(ip.blockSz, b);
    RoundedToFour(42 + 5 - b);
  }

  /** A set-associative tag covers them but for those of all the sets, of a line, and of the bank. */
  lemma TagWidth(ip: Ip, s: nat, b: nat, n: nat, a: nat)
    requires ip.Positive() && !ip.specificTag && !ip.fullyAssoc
    requires ip.blockSz == Pow2(b) && ip.nbanks == Pow2(n) && ip.tagAssoc == Pow2(a)
    requires ip.cacheSz == Pow2(s) * ip.blockSz * ip.tagAssoc
    ensures CoversLeast(TagBits(ip), 42 + 5 - s - b - n)
  {
    hide *;
    WidthLogs(ip, s, b, n, a);
    WidthFromLogs(ip, s, b, n, a);
  }

  lemma WidthFromLogs(ip: Ip, s: nat, b: nat, n: nat, a: nat)
    requires ip.Positive() && !ip.specificTag && !ip.fullyAssoc
    requires Log2(ip.cacheSz) == s + b + a && Log2(ip.nbanks) == n && Log2(ip.tagAssoc * 2 - 1) == a
    ensures CoversLeast(TagBits(ip), 42 + 5 - s - b - n)
  {
    hide TagBits;
    hide Pow2;
    hide Log2;
    WidthByLogs(ip, s + b + a, a, n);
  }

  lemma WidthByLogs(ip: Ip, c: nat, a: nat, n: nat)
    requires ip.Positive() && !ip.specificTag && !ip.fullyAssoc
    requires Log2(ip.cacheSz) == c && Log2(ip.tagAssoc * 2 - 1) == a && Log2(ip.nbanks) == n
    ensures CoversLeast(TagBits(ip), 42 + 5 - c + a - n)
  {
    RoundedToFour(RawTagBits(ip));
  }

  lemma WidthLogs(ip: Ip, s: nat, b: nat, n: nat, a: nat)
    requires ip.Positive() && ip.blockSz == Pow2(b) && ip.nbanks == Pow2(n) && ip.tagAssoc == Pow2(a)
    requires ip.cacheSz == Pow2(s) * ip.blockSz * ip.tagAssoc
    ensures ip.tagAssoc * 2 - 1 > 0
    ensures Log2(ip.cacheSz) == s + b + a && Log2(ip.nbanks) == n && Log2(ip.tagAssoc * 2 - 1) == a
  {
    hide Pow2;
    hide Log2;
    LogOfProduct(ip.cacheSz, s, b, a);
    Log2OfPow2(n);
    LogBelowDouble(ip.tagAssoc, a);
  }

  lemma LogOfProduct(c: nat, s: nat, b: nat, a: nat)
    requires c == Pow2(s) * Pow2(b) * Pow2(a)
    ensures c > 0 && Log2(c) == s + b + a
  {
    hide Pow2;
    Pow2Sum(s, b);
    Pow2Sum(s + b, a);
    assert c == Pow2(s + b + a);
    Log2OfPow2(s + b + a);
  }

  lemma LogBelowDouble(w: nat, a: nat)
    requires w == Pow2(a)
    ensures w * 2 - 1 > 0 && Log2(w * 2 - 1) == a
  {
    assert Pow2(a + 1) == 2 * Pow2(a);
    Log2Unique(w * 2 - 1, a);
  }

  /**
   The sets of all banks are taken off as well as the bank.  So a tag has all the bits that the sets of its own bank,
   the line and the bank leave over if and only if the rounding up makes up for the bank bits taken off twice.
   */
  lemma BankBitsTwice(ip: Ip, s: nat, b: nat, n: nat, a: nat)
    requires ip.Positive() && !ip.specificTag && !ip.fullyAssoc
    requires ip.blockSz == Pow2(b) && ip.nbanks == Pow2(n) && ip.tagAssoc == Pow2(a)
    requires ip.cacheSz == ip.nbanks * Pow2(s) * ip.blockSz * ip.tagAssoc
    ensures TagBits(ip) >= 42 + 5 - s - b - n <==> n <= (n - (42 + 5 - s - b - n)) % 4
  {
    hide TagBits;
    hide Pow2;
    hide CoversLeast;
    Pow2Sum(n, s);
    TagWidth(ip, n + s, b, n, a);
    CoveredWhen(TagBits(ip), 42 + 5 - s - b - n, n);
  }

  /** The least multiple of four from x - n on reaches x exactly when the rounding is at least n. */
  lemma CoveredWhen(w: int, x: int, n: nat)
    requires CoversLeast(w, x - n)
    ensures w >= x <==> n <= (n - x) % 4
  {
    assert w == 4 * (w / 4);
    var r := w - (x - n);
    assert (n - x) % 4 == (r - w) % 4 == r;
  }

  /** A 4-way cache of 64 KB in two banks, with lines of 64 bytes. */
  const SHORT_TAGS := Ip(65536, 64, 2, 64, 4, 4, false, false, true, false, false, 0, 0, 0, 0, false, false, false, 0)
  const SHORT_TAGS_CONFIG := Io.Config(65536, 64, 4, 2, 64, 0, 0.032, 1, 300, false, false)

  lemma ShortTagsAreChecked(input: Io.InputParameter)
    requires input.cfg == SHORT_TAGS_CONFIG
    ensures SHORT_TAGS_CONFIG.Passes() && (input.ModesSet() ==> input.Snapshot(SHORT_TAGS) == SHORT_TAGS)
  {
    assert Pow2(1) == 2 && Pow2(2) == 4;
  }

  /** Its tags of 32 bits are one bit short of the 33 that 7 set bits, 6 line bits and a bank bit leave over. */
  lemma TagsOneBitShort()
    ensures SHORT_TAGS.Positive() && TagBits(SHORT_TAGS) == 32 == 42 + 5 - 7 - 6 - 1 - 1
    ensures SHORT_TAGS.cacheSz == SHORT_TAGS.nbanks * Pow2(7) * SHORT_TAGS.blockSz * SHORT_TAGS.tagAssoc
  {
    assert Pow2(7) == 128;
    assert Log2(65536) == 16 && Log2(7) == 2 && Log2(2) == 1;
  }
}
