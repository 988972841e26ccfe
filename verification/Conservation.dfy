/**
 Conservation laws of the array geometry.  With power-of-two inputs, the truncations on the way from the capacity
 to rows, columns, mats and address bits lose nothing on the accepted partitions.
 */
module Conservation {
  import opened BasicCircuit
  import opened Parameter

  ghost predicate PowerOfTwoInputs(ip: Ip) {
    PowerOfTwo(ip.cacheSz) && PowerOfTwoOrganization(ip)
  }

  /** Everything but the capacity, which the input checks do not require to be a power of two. */
  ghost predicate PowerOfTwoOrganization(ip: Ip) {
    PowerOfTwo(ip.blockSz) && PowerOfTwo(ip.nbanks) && PowerOfTwo(ip.outW) && PowerOfTwo(ip.dataAssoc)
  }

  /** Nspd starts at a ratio of powers of two and is doubled; the other parameters are powers of two. */
  ghost predicate PowerOfTwoPartition(p: Partition) {
    && PowerOfTwo(p.ndwl) && PowerOfTwo(p.ndbl) && PowerOfTwo(p.ndcm) && PowerOfTwo(p.sam1) && PowerOfTwo(p.sam2)
    && exists i: nat, j: nat :: NspdIs(p.nspd, i, j)
  }

  ghost predicate NspdIs(nspd: real, i: nat, j: nat) {
    nspd * Pow2(j) as real == Pow2(i) as real
  }

  lemma PowersPositive(ip: Ip, p: Partition)
    requires PowerOfTwoInputs(ip) && PowerOfTwoPartition(p)
    ensures ip.tagAssoc > 0 ==> ip.Positive()
    ensures p.Positive()
  {
    var i: nat, j: nat :| NspdIs(p.nspd, i, j);
    PositiveFactor(p.nspd, Pow2(j) as real);
  }

  lemma PositiveFactor(x: real, y: real)
    requires y > 0.0 && x * y > 0.0
    ensures x > 0.0
  {
  }

  // ----- the same inputs, by exponent -----

  datatype Exps = Exps(c: nat, b: nat, n: nat, o: nat, d: nat,
                       wl: nat, bl: nat, cm: nat, s1: nat, s2: nat, i: nat, j: nat)
  {
    ghost predicate Of(ip: Ip, p: Partition) {
      ip.cacheSz == Pow2(c) && OfAllButCapacity(ip, p)
    }

    ghost predicate OfAllButCapacity(ip: Ip, p: Partition) {
      && ip.blockSz == Pow2(b) && ip.nbanks == Pow2(n)
      && ip.outW == Pow2(o) && ip.dataAssoc == Pow2(d)
      && p.ndwl == Pow2(wl) && p.ndbl == Pow2(bl) && p.ndcm == Pow2(cm) && p.sam1 == Pow2(s1) && p.sam2 == Pow2(s2)
      && NspdIs(p.nspd, i, j)
    }

    function RowsExp(): int { c + j - (n + b + d + bl + i) }
    function ColsExp(): int { 3 + b + d + i - (wl + j) }
    function MuxExp(): nat { cm + s1 + s2 }
    function MatsHExp(): nat { if wl == 0 then 0 else wl - 1 }
    function MatsVExp(): nat { if bl == 0 then 0 else bl - 1 }
    function MatsExp(): nat { MatsHExp() + MatsVExp() }
    function PerMatExp(): nat { wl + bl - MatsExp() }
    function MatOutExp(): nat
    { if PerMatExp() + ColsExp() >= MuxExp() then PerMatExp() + ColsExp() - MuxExp() else 0 }
    function SubbankExp(fast: bool): nat { if fast then o + d else o }
    function ActiveExp(fast: bool): int { SubbankExp(fast) - MatOutExp() }
    function SaExp(fast: bool): int { if fast then s1 else s1 - d }
    function AddressExp(fast: bool): int {
      RowsExp() + cm + SaExp(fast) + s2 + (MatsExp() - ActiveExp(fast))
    }
  }

  lemma ObtainOrganization(ip: Ip, p: Partition) returns (e: Exps)
    requires PowerOfTwoOrganization(ip) && PowerOfTwoPartition(p)
    ensures e.OfAllButCapacity(ip, p)
  {
    var b: nat :| ip.blockSz == Pow2(b);
    var n: nat :| ip.nbanks == Pow2(n);
    var o: nat :| ip.outW == Pow2(o);
    var d: nat :| ip.dataAssoc == Pow2(d);
    var wl: nat :| p.ndwl == Pow2(wl);
    var bl: nat :| p.ndbl == Pow2(bl);
    var cm: nat :| p.ndcm == Pow2(cm);
    var s1: nat :| p.sam1 == Pow2(s1);
    var s2: nat :| p.sam2 == Pow2(s2);
    var i: nat, j: nat :| NspdIs(p.nspd, i, j);
    e := Exps(0, b, n, o, d, wl, bl, cm, s1, s2, i, j);
  }

  lemma ObtainExps(ip: Ip, p: Partition) returns (e: Exps)
    requires PowerOfTwoInputs(ip) && PowerOfTwoPartition(p)
    ensures e.Of(ip, p)
  {
    e := ObtainOrganization(ip, p);
    var c: nat :| ip.cacheSz == Pow2(c);
    e := e.(c := c);
  }

  // ----- rows and columns -----

  /** A ratio scaled by s = a/b is a ratio of naturals. */
  lemma ScaledDivisor(n: nat, d: nat, s: real, a: nat, b: nat)
    requires d > 0 && s > 0.0 && a > 0 && b > 0 && s * b as real == a as real
    ensures d * a > 0 && DividedBy(n, d, s) == RoundedRatio(n * b, d * a)
  {
    ScaledPositive(d, s);
    PositiveProduct(d, a);
    ProductAsReal(n, b);
    ProductAsReal(d, a);
    CrossMultiply(n as real, d as real * s, (n * b) as real, (d * a) as real, b as real) by {
      MoveFactor(d as real, s, b as real, a as real);
    }
  }

  lemma MoveFactor(d: real, s: real, b: real, a: real)
    requires s * b == a
    ensures (d * s) * b == d * a
  {
  }

  lemma CrossMultiply(n: real, d: real, n2: real, d2: real, f: real)
    requires d > 0.0 && d2 > 0.0 && f > 0.0 && n2 == n * f && d2 == d * f
    ensures n / d == n2 / d2
  {
    var q := n / d;
    assert n == q * d;
    FactorOut(q, d, f);
    assert n2 == q * d2;
  }

  lemma FactorOut(q: real, d: real, f: real)
    ensures (q * d) * f == q * (d * f)
  {
  }

  lemma ScaledNumerator(n: nat, d: nat, s: real, a: nat, b: nat)
    requires d > 0 && s > 0.0 && a > 0 && b > 0 && s * b as real == a as real
    ensures d * b > 0 && SpreadOver(n, s, d) == RoundedRatio(n * a, d * b)
  {
    PositiveProduct(d, b);
    ProductAsReal(n, a);
    ProductAsReal(d, b);
    MoveFactor(n as real, s, b as real, a as real);
    CrossMultiply(n as real * s, d as real, (n * a) as real, (d * b) as real, b as real);
  }

  lemma RowDivisorExp(ip: Ip, p: Partition, e: Exps)
    requires ip.Positive() && p.ndbl >= 1 && e.OfAllButCapacity(ip, p)
    ensures RowDivisor(ip, false, p) == Pow2(e.n + e.b + e.d + e.bl)
  {
    Pow2Sum(e.n, e.b);
    Pow2Sum(e.n + e.b, e.d);
    Pow2Sum(e.n + e.b + e.d, e.bl);
  }

  ghost function Rounded(z: int): int {
    if z >= 0 then Pow2(z) else if z == -1 then 1 else 0
  }

  lemma RowsRatio(ip: Ip, p: Partition, e: Exps)
    requires ip.Positive() && p.Positive() && p.ndbl >= 1 && !ip.fullyAssoc && e.OfAllButCapacity(ip, p)
    ensures RowDivisor(ip, false, p) * Pow2(e.i) > 0
    ensures Rows(ip, false, p) == RoundedRatio(ip.cacheSz * Pow2(e.j), RowDivisor(ip, false, p) * Pow2(e.i))
  {
    ScaledDivisor(ip.cacheSz, RowDivisor(ip, false, p), p.nspd, Pow2(e.i), Pow2(e.j));
  }

  lemma ProductExp(x: nat, y: nat, a: nat, b: nat)
    requires x == Pow2(a) && y == Pow2(b)
    ensures x * y == Pow2(a + b)
  {
    Pow2Sum(a, b);
  }

  lemma DataRows(ip: Ip, p: Partition, e: Exps)
    requires ip.Positive() && p.Positive() && p.ndbl >= 1 && !ip.fullyAssoc && e.Of(ip, p)
    ensures Rows(ip, false, p) == Rounded(e.RowsExp())
  {
    RowsRatio(ip, p, e);
    RowDivisorExp(ip, p, e);
    ProductExp(ip.cacheSz, Pow2(e.j), e.c, e.j);
    ProductExp(RowDivisor(ip, false, p), Pow2(e.i), e.n + e.b + e.d + e.bl, e.i);
    RoundRatio(e.c + e.j, e.n + e.b + e.d + e.bl + e.i);
  }

  lemma ColsRatio(ip: Ip, p: Partition, e: Exps)
    requires ip.Positive() && p.Positive() && p.ndwl >= 1 && !ip.fullyAssoc && e.OfAllButCapacity(ip, p)
    ensures p.ndwl * Pow2(e.j) > 0
    ensures Cols(ip, false, p) == RoundedRatio(LineBits(ip, false) * Pow2(e.i), p.ndwl * Pow2(e.j))
  {
    LineBitsExp(ip, p, e);
    ScaledNumerator(LineBits(ip, false), p.ndwl, p.nspd, Pow2(e.i), Pow2(e.j));
  }

  lemma DataCols(ip: Ip, p: Partition, e: Exps)
    requires ip.Positive() && p.Positive() && p.ndwl >= 1 && !ip.fullyAssoc && e.OfAllButCapacity(ip, p)
    ensures Cols(ip, false, p) == Rounded(e.ColsExp())
  {
    ColsRatio(ip, p, e);
    LineBitsExp(ip, p, e);
    ProductExp(LineBits(ip, false), Pow2(e.i), 3 + e.b + e.d, e.i);
    ProductExp(p.ndwl, Pow2(e.j), e.wl, e.j);
    RoundRatio(3 + e.b + e.d + e.i, e.wl + e.j);
  }

  lemma LineBitsExp(ip: Ip, p: Partition, e: Exps)
    requires ip.Positive() && e.OfAllButCapacity(ip, p)
    ensures LineBits(ip, false) == Pow2(3 + e.b + e.d)
  {
    assert Pow2(3) == 8;
    Pow2Sum(3, e.b);
    Pow2Sum(3 + e.b, e.d);
  }

  /** The minimum row and column counts reject every rounding that changed a quotient. */
  lemma AcceptedExact(ip: Ip, p: Partition, e: Exps)
    requires ip.Positive() && p.Positive() && !ip.fullyAssoc && e.Of(ip, p)
    requires ShapeAccepted(ip, false, p)
    ensures e.RowsExp() >= 0 && Rows(ip, false, p) == Pow2(e.RowsExp())
    ensures e.ColsExp() >= 0 && Cols(ip, false, p) == Pow2(e.ColsExp())
  {
    DataRows(ip, p, e);
    DataCols(ip, p, e);
  }

  lemma Pow2Product5(a: nat, b: nat, c: nat, d: nat, f: nat)
    ensures Pow2(a) * Pow2(b) * Pow2(c) * Pow2(d) * Pow2(f) == Pow2(a + b + c + d + f)
  {
    Pow2Sum(a, b);
    Pow2Sum(a + b, c);
    Pow2Sum(a + b + c, d);
    Pow2Sum(a + b + c + d, f);
  }

  /** Cells of an accepted data array over all banks. */
  ghost function Cells(ip: Ip, p: Partition): int
    requires ip.Positive() && p.Positive() && p.ndwl >= 1 && p.ndbl >= 1
  {
    Rows(ip, false, p) * Cols(ip, false, p) * p.ndwl * p.ndbl * ip.nbanks
  }

  /** Accepted columns spread one set's bits exactly: cells = 8 * rows * (row divisor), both scaled by Nspd. */
  lemma CellsByRows(ip: Ip, p: Partition, e: Exps)
    requires ip.Positive() && p.Positive() && !ip.fullyAssoc && e.OfAllButCapacity(ip, p)
    requires p.ndwl >= 1 && p.ndbl >= 1 && Cols(ip, false, p) >= MIN_SUBARRAY_COLS
    ensures Cells(ip, p) * Pow2(e.j) == 8 * (Rows(ip, false, p) * (RowDivisor(ip, false, p) * Pow2(e.i)))
  {
    DataCols(ip, p, e);
    RowDivisorExp(ip, p, e);
    var r, rest := Rows(ip, false, p), Pow2(e.ColsExp() + e.wl + e.bl + e.n);
    Pow2Product4(e.ColsExp(), e.wl, e.bl, e.n);
    GroupFactors(r, Pow2(e.ColsExp()), p.ndwl, p.ndbl, ip.nbanks);
    assert Cells(ip, p) == r * rest;
    ProductExp(rest, Pow2(e.j), e.ColsExp() + e.wl + e.bl + e.n, e.j);
    ProductExp(RowDivisor(ip, false, p), Pow2(e.i), e.n + e.b + e.d + e.bl, e.i);
    EightTimes(e.n + e.b + e.d + e.bl + e.i);
    assert rest * Pow2(e.j) == 8 * (RowDivisor(ip, false, p) * Pow2(e.i));
    Associate(r, rest, Pow2(e.j), RowDivisor(ip, false, p) * Pow2(e.i));
  }

  lemma Pow2Product4(a: nat, b: nat, c: nat, d: nat)
    ensures Pow2(a) * Pow2(b) * Pow2(c) * Pow2(d) == Pow2(a + b + c + d)
  {
    Pow2Sum(a, b);
    Pow2Sum(a + b, c);
    Pow2Sum(a + b + c, d);
  }

  lemma GroupFactors(r: int, a: int, b: int, c: int, d: int)
    ensures r * a * b * c * d == r * (a * b * c * d)
  {
    assert r * a * b == r * (a * b);
    assert r * (a * b) * c == r * (a * b * c);
  }

  lemma Associate(r: int, x: int, y: int, z: int)
    requires x * y == 8 * z
    ensures (r * x) * y == 8 * (r * z)
  {
    assert (r * x) * y == r * (x * y);
  }

  /**
   Capacity conservation, exactly: an accepted data array has eight cells per byte if and only if one row of all
   subarrays (nbanks * block * assoc * Ndbl * Nspd bytes) divides the capacity, whatever the capacity is.
   */
  lemma CapacityExact(ip: Ip, isMainMem: bool, p: Partition, i: nat, j: nat)
    requires ip.Positive() && p.Positive() && Accepted(ip, false, isMainMem, p) && !ip.fullyAssoc
    requires PowerOfTwoPartition(p) && NspdIs(p.nspd, i, j)
    requires PowerOfTwoOrganization(ip)
    ensures RowDivisor(ip, false, p) * Pow2(i) > 0
    ensures Cells(ip, p) == 8 * ip.cacheSz
       <==> (ip.cacheSz * Pow2(j)) % (RowDivisor(ip, false, p) * Pow2(i)) == 0
  {
    var e := ObtainOrganization(ip, p);
    e := e.(i := i, j := j);
    RowsRatio(ip, p, e);
    CellsByRows(ip, p, e);
    ExactWhenDivisible(Cells(ip, p), ip.cacheSz, Rows(ip, false, p), RowDivisor(ip, false, p) * Pow2(i), Pow2(j));
  }

  lemma ExactWhenDivisible(cells: int, capacity: nat, rows: int, m: nat, f: nat)
    requires m > 0 && f > 0 && rows == RoundedRatio(capacity * f, m)
    requires cells * f == 8 * (rows * m)
    ensures cells == 8 * capacity <==> (capacity * f) % m == 0
  {
    var n := capacity * f;
    assert n == n / m * m + n % m;
    if n % m == 0 {
      RoundMultiple(n, m, n / m);
      assert cells * f == 8 * capacity * f;
      Cancel(cells, 8 * capacity, f);
    }
    if cells == 8 * capacity {
      assert cells * f == 8 * n;
      assert rows * m == n;
      Divisible(rows, m);
    }
  }

  lemma Cancel(x: int, y: int, f: nat)
    requires f > 0 && x * f == y * f
    ensures x == y
  {
    assert (x - y) * f == 0;
  }

  lemma Divisible(q: int, m: nat)
    requires m > 0
    ensures q * m % m == 0
  {
    QuotientBracket(q * m, m, q);
  }

  /** With a power-of-two capacity the minimum row count already guarantees the divisibility. */
  lemma CapacityConserved(ip: Ip, isMainMem: bool, p: Partition)
    requires ip.Positive() && p.Positive() && Accepted(ip, false, isMainMem, p) && !ip.fullyAssoc
    requires PowerOfTwoPartition(p)
    requires PowerOfTwoInputs(ip)
    ensures Cells(ip, p) == 8 * ip.cacheSz
  {
    var e := ObtainExps(ip, p);
    AcceptedExact(ip, p, e);
    Pow2Product5(e.RowsExp(), e.ColsExp(), e.wl, e.bl, e.n);
    assert e.RowsExp() + e.ColsExp() + e.wl + e.bl + e.n == e.c + 3;
    EightTimes(e.c);
  }

  lemma EightTimes(c: nat)
    ensures Pow2(c + 3) == 8 * Pow2(c)
  {
    assert Pow2(c + 3) == 2 * Pow2(c + 2) == 4 * Pow2(c + 1);
  }

  // ----- mats and activation -----

  lemma HalvedAtLeastOne(x: nat, k: nat)
    requires x == Pow2(k)
    ensures Max(x / 2, 1) == Pow2(if k == 0 then 0 else k - 1)
  {
  }

  lemma MatsByExp(ip: Ip, p: Partition, e: Exps)
    requires !ip.fullyAssoc && e.Of(ip, p)
    ensures MatsH(ip, p) == Pow2(e.MatsHExp()) && MatsV(ip, p) == Pow2(e.MatsVExp())
    ensures Mats(ip, p) == Pow2(e.MatsExp())
    ensures SubarraysPerMat(ip, p) == Pow2(e.PerMatExp())
  {
    HalvedAtLeastOne(p.ndwl, e.wl);
    HalvedAtLeastOne(p.ndbl, e.bl);
    Pow2Sum(e.MatsHExp(), e.MatsVExp());
    Pow2Sum(e.wl, e.bl);
    Pow2Quotient(e.wl + e.bl, e.MatsExp());
  }

  lemma MuxByExp(ip: Ip, p: Partition, e: Exps)
    requires p.Positive() && e.Of(ip, p) && (ip.IsDram(false) ==> p.ndcm <= 1)
    ensures DegBlMux(ip, false, p) == Pow2(e.cm)
    ensures MuxDegree(ip, false, p) == Pow2(e.MuxExp())
  {
    Pow2Sum(e.cm, e.s1);
    Pow2Sum(e.cm + e.s1, e.s2);
  }

  /** The quotient that gives a mat's output bits is exact unless it was clipped up to one. */
  lemma MatOutByExp(ip: Ip, p: Partition, e: Exps)
    requires ip.Positive() && p.Positive() && !ip.fullyAssoc && e.Of(ip, p) && Mats(ip, p) > 0
    requires ShapeAccepted(ip, false, p)
    ensures MatOutBits(ip, false, p) == Pow2(e.MatOutExp())
  {
    AcceptedExact(ip, p, e);
    MatsByExp(ip, p, e);
    MuxByExp(ip, p, e);
    Pow2Sum(e.PerMatExp(), e.ColsExp());
    Pow2Quotient(e.PerMatExp() + e.ColsExp(), e.MuxExp());
  }

  lemma ActiveByExp(ip: Ip, p: Partition, e: Exps)
    requires ip.Positive() && p.Positive() && !ip.fullyAssoc && e.Of(ip, p)
    requires Accepted(ip, false, false, p)
    ensures e.ActiveExp(ip.fastAccess) >= 0
    ensures ActiveMats(ip, false, false, p) == Pow2(e.ActiveExp(ip.fastAccess))
  {
    MatOutByExp(ip, p, e);
    Pow2Sum(e.o, e.d);
    Pow2Quotient(e.SubbankExp(ip.fastAccess), e.MatOutExp());
  }

  lemma SaByExp(ip: Ip, p: Partition, e: Exps)
    requires ip.Positive() && !ip.fullyAssoc && e.Of(ip, p)
    requires DegSaMux(ip, false, false, p) >= 1
    ensures e.SaExp(ip.fastAccess) >= 0
    ensures DegSaMux(ip, false, false, p) == Pow2(e.SaExp(ip.fastAccess))
  {
    Pow2Quotient(e.s1, e.d);
  }

  /** The mats that one access activates put out exactly the bits of the subbank, in every access mode. */
  lemma ActiveMatsDeliver(ip: Ip, p: Partition)
    requires ip.Positive() && p.Positive() && Accepted(ip, false, false, p) && !ip.fullyAssoc
    requires PowerOfTwoPartition(p) && PowerOfTwoInputs(ip)
    ensures ActiveMats(ip, false, false, p) * MatOutBits(ip, false, p) == SubbankOutBits(ip, false, false)
  {
    var e := ObtainExps(ip, p);
    MatOutByExp(ip, p, e);
    ActiveByExp(ip, p, e);
    Pow2Sum(e.ActiveExp(ip.fastAccess), e.MatOutExp());
    Pow2Sum(e.o, e.d);
  }

  lemma SubbanksByExp(ip: Ip, p: Partition, e: Exps)
    requires ip.Positive() && p.Positive() && !ip.fullyAssoc && e.Of(ip, p)
    requires Accepted(ip, false, false, p)
    ensures ActiveMats(ip, false, false, p) > 0
    ensures 0 <= e.ActiveExp(ip.fastAccess) <= e.MatsExp()
    ensures Mats(ip, p) / ActiveMats(ip, false, false, p) == Pow2(e.MatsExp() - e.ActiveExp(ip.fastAccess))
  {
    ActiveByExp(ip, p, e);
    MatsByExp(ip, p, e);
    if e.ActiveExp(ip.fastAccess) > e.MatsHExp() {
      Pow2Increases(e.MatsHExp(), e.ActiveExp(ip.fastAccess));
    }
    Pow2Quotient(e.MatsExp(), e.ActiveExp(ip.fastAccess));
  }

  /** Address bits of a mat plus subbank-select bits, as one exponent. */
  lemma AddressByExp(ip: Ip, p: Partition, e: Exps)
    requires ip.Positive() && p.Positive() && !ip.fullyAssoc && e.Of(ip, p)
    requires Accepted(ip, false, false, p)
    requires LoggedQuantitiesPositive(ip, false, false, p)
    ensures MatAddressBits(ip, false, false, p) + SubbankBits(ip, false, false, p) == e.AddressExp(ip.fastAccess)
  {
    AcceptedExact(ip, p, e);
    MuxByExp(ip, p, e);
    SaByExp(ip, p, e);
    SubbanksByExp(ip, p, e);
    Log2OfPow2(e.RowsExp());
    Log2OfPow2(e.cm);
    Log2OfPow2(e.SaExp(ip.fastAccess));
    Log2OfPow2(e.s2);
    Log2OfPow2(e.MatsExp() - e.ActiveExp(ip.fastAccess));
  }

  /** The addressed bits fall short of the bank exactly when the clip to one output bit was taken. */
  lemma AddressExpClosed(e: Exps, fast: bool)
    ensures e.AddressExp(fast) + e.o + e.d == e.RowsExp() + e.MuxExp() + e.MatsExp() + e.MatOutExp()
    ensures e.PerMatExp() + e.ColsExp() >= e.MuxExp() ==>
              e.AddressExp(fast) + e.o + e.d + e.n == e.c + 3
    ensures e.PerMatExp() + e.ColsExp() < e.MuxExp() && e.wl + e.bl == 0 ==>
              e.AddressExp(fast) + e.o + e.d + e.n > e.c + 3
  {
  }

  /** The bits one address selects, times the number of addresses. */
  ghost function AddressedBits(ip: Ip, p: Partition): nat
    requires ip.Positive() && p.Positive() && p.ndwl >= 1 && p.ndbl >= 1 && Mats(ip, p) > 0
    requires LoggedQuantitiesPositive(ip, false, false, p)
  {
    Pow2(MatAddressBits(ip, false, false, p) + SubbankBits(ip, false, false, p)) * ip.outW * ip.dataAssoc
  }

  /**
   Address-bit conservation, in all three access modes and exactly: an accepted set-associative data array
   addresses every bit of its bank once, if and only if it has at least two subarrays or its multiplexing degree
   does not exceed the columns it multiplexes.
   */
  lemma AddressBitsConserved(ip: Ip, p: Partition)
    requires ip.Positive() && p.Positive() && Accepted(ip, false, false, p) && !ip.fullyAssoc
    requires PowerOfTwoPartition(p)
    requires PowerOfTwoInputs(ip)
    ensures LoggedQuantitiesPositive(ip, false, false, p)
    ensures AddressedBits(ip, p) * ip.nbanks == 8 * ip.cacheSz
       <==> p.ndwl * p.ndbl >= 2 || p.ndcm * p.sam1 * p.sam2 <= Cols(ip, false, p)
  {
    var e := ObtainExps(ip, p);
    AcceptedLogs(ip, false, false, p);
    AddressByExp(ip, p, e);
    AddressedByExp(ip, p, e);
    AddressExpClosed(e, ip.fastAccess);
    ClipCondition(ip, p, e);
    EightTimes(e.c);
    SamePower(e.AddressExp(ip.fastAccess) + e.o + e.d + e.n, e.c + 3);
  }

  lemma SamePower(a: nat, b: nat)
    ensures Pow2(a) == Pow2(b) <==> a == b
  {
    if Pow2(a) == Pow2(b) {
      Pow2Injective(a, b);
    }
  }

  lemma AddressedByExp(ip: Ip, p: Partition, e: Exps)
    requires ip.Positive() && p.Positive() && p.ndwl >= 1 && p.ndbl >= 1 && Mats(ip, p) > 0
    requires LoggedQuantitiesPositive(ip, false, false, p) && e.Of(ip, p)
    requires MatAddressBits(ip, false, false, p) + SubbankBits(ip, false, false, p) == e.AddressExp(ip.fastAccess)
    ensures AddressedBits(ip, p) * ip.nbanks == Pow2(e.AddressExp(ip.fastAccess) + e.o + e.d + e.n)
  {
    var a := e.AddressExp(ip.fastAccess);
    Pow2Sum(a, e.o);
    Pow2Sum(a + e.o, e.d);
    Pow2Sum(a + e.o + e.d, e.n);
  }

  /** With two or more subarrays the mat-output check already rules the clip out. */
  lemma ClipCondition(ip: Ip, p: Partition, e: Exps)
    requires ip.Positive() && p.Positive() && !ip.fullyAssoc && e.Of(ip, p)
    requires Accepted(ip, false, false, p)
    ensures e.PerMatExp() + e.ColsExp() >= e.MuxExp()
       <==> p.ndwl * p.ndbl >= 2 || p.ndcm * p.sam1 * p.sam2 <= Cols(ip, false, p)
    ensures e.PerMatExp() + e.ColsExp() < e.MuxExp() ==> e.wl + e.bl == 0
  {
    AcceptedExact(ip, p, e);
    MatsByExp(ip, p, e);
    MatOutByExp(ip, p, e);
    Pow2Sum(e.wl, e.bl);
    Pow2Sum(e.cm, e.s1);
    Pow2Sum(e.cm + e.s1, e.s2);
    if e.wl + e.bl >= 1 {
      Pow2Monotone(1, e.wl + e.bl);
      assert Pow2(1) == 2;
      assert e.PerMatExp() >= 1;
      if e.MatOutExp() < e.PerMatExp() {
        Pow2Increases(e.MatOutExp(), e.PerMatExp());
      }
    } else {
      assert e.PerMatExp() == 0;
      if e.MuxExp() <= e.ColsExp() {
        Pow2Monotone(e.MuxExp(), e.ColsExp());
      } else {
        Pow2Increases(e.ColsExp(), e.MuxExp());
      }
    }
  }

  // ----- both conditions bite: accepted arrays on which the laws fail -----

  const SMALL := Ip(64, 1, 1, 1, 1, 1, false, false, false, false, false, 0, 0, 0, 0, false, false, false, 0)
  const ONE_SUBARRAY := Partition(1.0, 1, 1, 16, 1, 1)

  /** One subarray, multiplexed sixteen ways over eight columns: accepted, and addressed twice over. */
  lemma ClippedArrayOvercounts()
    ensures SMALL.Positive() && ONE_SUBARRAY.Positive() && !SMALL.fullyAssoc
    ensures PowerOfTwoInputs(SMALL) && PowerOfTwoPartition(ONE_SUBARRAY)
    ensures Accepted(SMALL, false, false, ONE_SUBARRAY)
    ensures LoggedQuantitiesPositive(SMALL, false, false, ONE_SUBARRAY)
    ensures AddressedBits(SMALL, ONE_SUBARRAY) * SMALL.nbanks != 8 * SMALL.cacheSz
  {
    assert Rows(SMALL, false, ONE_SUBARRAY) == 64;
    assert Cols(SMALL, false, ONE_SUBARRAY) == 8;
    assert MatOutBits(SMALL, false, ONE_SUBARRAY) == 1;
    SmallIsPowers();
    AddressBitsConserved(SMALL, ONE_SUBARRAY);
  }

  lemma SmallIsPowers()
    ensures PowerOfTwoInputs(SMALL) && PowerOfTwoPartition(ONE_SUBARRAY)
  {
    assert Pow2(0) == 1 && Pow2(2) == 4 && Pow2(4) == 16 && Pow2(6) == 64;
    assert PowerOfTwo(1) && PowerOfTwo(16) && PowerOfTwo(64);
    assert NspdIs(1.0, 0, 0);
  }

  const ODD_SIZE := SMALL.(cacheSz := 1000, blockSz := 2, outW := 16)
  const TALL := Partition(1.0, 1, 32, 2, 1, 1)

  /** A capacity of 1000 bytes passes every check and is modelled as 1024 bytes. */
  lemma OddCapacityGrows()
    ensures ODD_SIZE.Positive() && TALL.Positive()
    ensures Accepted(ODD_SIZE, false, false, TALL)
    ensures Cells(ODD_SIZE, TALL) == 8 * 1024
  {
    assert Rows(ODD_SIZE, false, TALL) == 16;
    assert Cols(ODD_SIZE, false, TALL) == 16;
    assert MatOutBits(ODD_SIZE, false, TALL) == 16;
  }
}
