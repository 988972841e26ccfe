/**
 The grid of banks: every way of arranging a number of banks in rows and columns, the hops from the controller to
 each bank, and the arrangement with the least average access latency.
 */
module NucaGrid {
  import opened BasicCircuit

  // ----- sums over the banks of one grid -----

  /** 0 + 1 + ... + (n - 1). */
  function Below(n: nat): (s: real)
  {
    if n == 0 then 0.0 else Below(n - 1) + (n - 1) as real
  }

  lemma {:induction false} BelowClosed(n: nat)
    ensures 2.0 * Below(n) == n as real * (n as real - 1.0)
  {
    if n > 0 {
      BelowClosed(n - 1);
      var x := n as real;
      assert (n - 1) as real == x - 1.0;
      assert x * (x - 1.0) == (x - 1.0) * (x - 1.0 - 1.0) + 2.0 * (x - 1.0);
    }
  }

  /** Hops and latency from the controller, totalled over the banks of a grid. */
  datatype Totals = Totals(hops: real, hhops: real, vhops: real, lat: real)

  /** i whole rows of c columns, then j banks of the next row. */
  ghost predicate Summed(t: Totals, ver: int, hor: int, c: nat, i: nat, j: nat) {
    && t.hhops == i as real * Below(c) + Below(j)
    && t.vhops == c as real * Below(i + 1) + j as real * (i + 1) as real
    && t.hops == t.hhops + t.vhops
    && t.lat == ver as real * (c as real * Below(i) + j as real * i as real) + hor as real * t.hhops
  }

  lemma SummedBank(t: Totals, u: Totals, ver: int, hor: int, c: nat, i: nat, j: nat)
    requires Summed(t, ver, hor, c, i, j)
    requires u.hops == t.hops + ((i + 1) as real + j as real)
    requires u.hhops == t.hhops + j as real && u.vhops == t.vhops + (i + 1) as real
    requires u.lat == t.lat + (i * ver + j * hor) as real
    ensures Summed(u, ver, hor, c, i, j + 1)
  {
    var x, y := i as real, j as real;
    assert (j + 1) as real == y + 1.0 && (i + 1) as real == x + 1.0;
    NextMultiple(y, x + 1.0);
    ProductAsReal(i, ver);
    ProductAsReal(j, hor);
    LatencyStep(ver as real, hor as real, c as real * Below(i), x, y, t.hhops);
  }

  lemma NextMultiple(y: real, e: real)
    ensures (y + 1.0) * e == y * e + e
  {
  }

  lemma LatencyStep(v: real, h: real, k: real, x: real, y: real, q: real)
    ensures v * (k + y * x) + h * q + (x * v + y * h) == v * (k + (y + 1.0) * x) + h * (q + y)
  {
    NextMultiple(y, x);
    SplitSum(v, k + y * x, x);
    SplitSum(h, q, y);
  }

  lemma SummedRow(t: Totals, ver: int, hor: int, c: nat, i: nat)
    requires Summed(t, ver, hor, c, i, c)
    ensures Summed(t, ver, hor, c, i + 1, 0)
  {
    var x, y := i as real, c as real;
    assert (i + 1) as real == x + 1.0 && Below(i + 2) == Below(i + 1) + (i + 1) as real;
    assert (x + 1.0) * Below(c) == x * Below(c) + Below(c);
    assert y * (Below(i + 1) + (x + 1.0)) == y * Below(i + 1) + y * (x + 1.0);
    assert y * (Below(i) + x) == y * Below(i) + y * x;
  }

  /** Hop counts and latencies of every bank of the grid, added up bank by bank. */
  method SumGrid(ver: int, hor: int, r: nat, c: nat) returns (t: Totals)
    ensures Summed(t, ver, hor, c, r, 0)
  {
    hide Summed;
    t := Totals(0.0, 0.0, 0.0, 0.0);
    SummedNone(t, ver, hor, c);
    var i := 0;
    while i < r
      invariant 0 <= i <= r && Summed(t, ver, hor, c, i, 0)
    {
      var j := 0;
      while j < c
        invariant 0 <= j <= c && Summed(t, ver, hor, c, i, j)
      {
        ghost var before := t;
        var currHop := (i + 1) as real;
        currHop := currHop + j as real;
        t := t.(hhops := t.hhops + j as real);
        t := t.(vhops := t.vhops + (i + 1) as real);
        var currAcclat := (i * ver + j * hor) as real;
        t := t.(lat := t.lat + currAcclat);
        t := t.(hops := t.hops + currHop);
        SummedBank(before, t, ver, hor, c, i, j);
        j := j + 1;
      }
      SummedRow(t, ver, hor, c, i);
      i := i + 1;
    }
  }

  lemma SummedNone(t: Totals, ver: int, hor: int, c: nat)
    requires t == Totals(0.0, 0.0, 0.0, 0.0)
    ensures Summed(t, ver, hor, c, 0, 0)
  {
    assert Below(1) == 0.0;
  }

  lemma Quotient(p: real, n: real, q: real)
    requires n > 0.0 && 2.0 * p == n * q
    ensures p / n == q / 2.0
  {
    assert p == n * (q / 2.0);
    CancelFactor(q / 2.0, n);
  }

  lemma CancelFactor(q: real, n: real)
    requires n > 0.0
    ensures n * q / n == q
  {
  }

  /** m is the number of banks, as a real. */
  ghost predicate Area(m: real, r: nat, c: nat) {
    m == r as real * c as real
  }

  lemma WholeGrid(t: Totals, ver: int, hor: int, r: nat, c: nat)
    requires Summed(t, ver, hor, c, r, 0)
    ensures t.hhops == r as real * Below(c) && t.vhops == c as real * Below(r + 1) && t.hops == t.hhops + t.vhops
    ensures t.lat == ver as real * (c as real * Below(r)) + hor as real * t.hhops
  {
  }

  lemma DoubledColumns(x: real, y: real, b: real, e: real)
    requires 2.0 * b == y * e
    ensures 2.0 * (x * b) == x * y * e && 2.0 * (x * b) == y * x * e
  {
    Rearrange(x, y, e);
  }

  lemma DoubledHops(t: Totals, ver: int, hor: int, r: nat, c: nat, m: real)
    requires Summed(t, ver, hor, c, r, 0) && Area(m, r, c)
    ensures 2.0 * t.hhops == m * (c as real - 1.0)
    ensures 2.0 * t.vhops == m * (r as real + 1.0)
    ensures 2.0 * t.hops == m * (r as real + c as real)
  {
    var x, y := r as real, c as real;
    WholeGrid(t, ver, hor, r, c);
    hide Summed;
    BelowClosed(c);
    BelowClosed(r + 1);
    DoubledColumns(x, y, Below(c), y - 1.0);
    DoubledColumns(y, x, Below(r + 1), x + 1.0);
    SplitSum(m, y - 1.0, x + 1.0);
  }

  lemma SplitSum(m: real, p: real, q: real)
    ensures m * p + m * q == m * (p + q)
  {
  }

  lemma DoubledLatency(t: Totals, ver: int, hor: int, r: nat, c: nat, m: real)
    requires Summed(t, ver, hor, c, r, 0) && Area(m, r, c)
    ensures 2.0 * t.lat == m * (ver as real * (r as real - 1.0) + hor as real * (c as real - 1.0))
  {
    var x, y := r as real, c as real;
    WholeGrid(t, ver, hor, r, c);
    DoubledHops(t, ver, hor, r, c, m);
    hide Summed;
    BelowClosed(r);
    DoubledColumns(y, x, Below(r), x - 1.0);
    hide Area;
    LatencyTwice(ver as real, hor as real, y * Below(r), t.hhops, m, x - 1.0, y - 1.0);
  }

  /** Averages over a grid of r rows and c columns: hops grow with half its extents. */
  lemma AverageHops(t: Totals, ver: int, hor: int, r: nat, c: nat, n: real)
    requires r >= 1 && c >= 1 && Area(n, r, c) && n > 0.0 && Summed(t, ver, hor, c, r, 0)
    ensures t.hops == t.hhops + t.vhops
    ensures t.hhops / n == (c as real - 1.0) / 2.0
    ensures t.vhops / n == (r as real + 1.0) / 2.0
    ensures t.hops / n == (r as real + c as real) / 2.0
  {
    hide Summed;
    hide Area;
    WholeGrid(t, ver, hor, r, c);
    DoubledHops(t, ver, hor, r, c, n);
    Quotient(t.hhops, n, c as real - 1.0);
    Quotient(t.vhops, n, r as real + 1.0);
    Quotient(t.hops, n, r as real + c as real);
  }

  /** And so does latency. */
  lemma AverageLatency(t: Totals, ver: int, hor: int, r: nat, c: nat, n: real)
    requires r >= 1 && c >= 1 && Area(n, r, c) && n > 0.0 && Summed(t, ver, hor, c, r, 0)
    ensures t.lat / n == (ver as real * (r as real - 1.0) + hor as real * (c as real - 1.0)) / 2.0
  {
    hide Summed;
    hide Area;
    DoubledLatency(t, ver, hor, r, c, n);
    Quotient(t.lat, n, ver as real * (r as real - 1.0) + hor as real * (c as real - 1.0));
  }

  lemma AreaPositive(n: real, r: nat, c: nat)
    requires r >= 1 && c >= 1 && Area(n, r, c)
    ensures n > 0.0
  {
    PositiveFactors(r as real, c as real);
  }

  lemma PositiveFactors(a: real, b: real)
    requires a > 0.0 && b > 0.0
    ensures a * b > 0.0
  {
  }

  lemma Rearrange(a: real, b: real, e: real)
    ensures a * (b * e) == a * b * e && b * (a * e) == a * b * e
  {
  }

  lemma LatencyTwice(v: real, h: real, p: real, q: real, m: real, e: real, f: real)
    requires 2.0 * p == m * e && 2.0 * q == m * f
    ensures 2.0 * (v * p + h * q) == m * (v * e + h * f)
  {
    assert 2.0 * (v * p) == v * (m * e) && 2.0 * (h * q) == h * (m * f);
    Rearrange(v, m, e);
    Rearrange(h, m, f);
    assert m * (v * e) == v * (m * e) && m * (h * f) == h * (m * f);
  }

  // ----- the arrangements of n banks -----

  predicate Divides(c: nat, n: nat)
    requires c >= 1
  {
    n % c == 0
  }

  /** A divisor leaves no remainder: some number of columns of that many banks make up all of them. */
  lemma DividesExactly(c: nat, n: nat)
    requires c >= 1
    ensures Divides(c, n) <==> exists q: nat :: n == q * c
  {
    assert n == n / c * c + n % c;
    if q: nat :| n == q * c {
      QuotientBracket(n, c, q);
    }
  }

  function DivisorsFrom(n: nat, c: nat): seq<nat>
    requires c >= 1
    decreases n + 1 - c
  {
    if c > n then [] else if Divides(c, n) then [c] + DivisorsFrom(n, c + 1) else DivisorsFrom(n, c + 1)
  }

  /** Every divisor from c on. */
  lemma {:induction false} DivisorsSpec(n: nat, c: nat)
    requires c >= 1
    ensures forall d: nat :: d in DivisorsFrom(n, c) <==> c <= d <= n && Divides(d, n)
    decreases n + 1 - c
  {
    hide Divides;
    if c <= n {
      DivisorsSpec(n, c + 1);
    }
  }

  /** In increasing order, so each once. */
  lemma {:induction false} DivisorsIncrease(n: nat, c: nat)
    requires c >= 1
    ensures forall i, j :: 0 <= i < j < |DivisorsFrom(n, c)| ==> DivisorsFrom(n, c)[i] < DivisorsFrom(n, c)[j]
    decreases n + 1 - c
  {
    hide Divides;
    if c <= n {
      DivisorsIncrease(n, c + 1);
      DivisorsSpec(n, c + 1);
      var rest := DivisorsFrom(n, c + 1);
      assert forall j :: 0 <= j < |rest| ==> rest[j] in rest;
    }
  }

  /** What one wire type and router mean for the network: hop latencies, router delay, bank cycles, and its power. */
  datatype Network = Network(ver: int, hor: int, routerDelay: real, bankCycles: int,
                             dyn: (real, real, real) -> real, leak: (real, real, real) -> real)

  /** The running optimum. */
  datatype Best = Best(acclat: real, rows: nat, columns: nat, totLat: real, avgLat: real,
                       totHops: real, avgHop: real, dyn: real, leak: real)

  /** Round trip over the average bank, through the routers, plus the bank itself; in closed form. */
  function Access(net: Network, r: nat, c: nat): real {
    2.0 * ((net.ver as real * (r as real - 1.0) + net.hor as real * (c as real - 1.0)) / 2.0)
    + 2.0 * (net.routerDelay * ((r as real + c as real) / 2.0)) + net.bankCycles as real
  }

  /** b describes the grid of r rows and c columns. */
  ghost predicate Describes(b: Best, net: Network, r: nat, c: nat) {
    var avgHop, avgHhop, avgVhop := (r as real + c as real) / 2.0, (c as real - 1.0) / 2.0, (r as real + 1.0) / 2.0;
    && b.rows == r && b.columns == c && b.acclat == Access(net, r, c)
    && b.avgHop == avgHop && b.totHops == avgHop * (r as real * c as real)
    && b.avgLat == (net.ver as real * (r as real - 1.0) + net.hor as real * (c as real - 1.0)) / 2.0
    && b.totLat == b.avgLat * (r as real * c as real)
    && b.dyn == net.dyn(avgHop, avgHhop, avgVhop) && b.leak == net.leak(avgHop, avgHhop, avgVhop)
  }

  lemma Undivide(p: real, n: real)
    requires n > 0.0
    ensures p / n * n == p
  {
  }

  /** The figures of one arrangement. */
  method MeasureGrid(net: Network, n: nat, r: nat, c: nat) returns (b: Best)
    requires r >= 1 && c >= 1 && n == r * c
    ensures Describes(b, net, r, c)
  {
    hide Summed;
    var t := SumGrid(net.ver, net.hor, r, c);
    ProductAsReal(r, c);
    AreaPositive(n as real, r, c);
    AverageHops(t, net.ver, net.hor, r, c, n as real);
    AverageLatency(t, net.ver, net.hor, r, c, n as real);
    Undivide(t.lat, n as real);
    Undivide(t.hops, n as real);
    var avgLat, avgHop := t.lat / n as real, t.hops / n as real;
    var avgHhop, avgVhop := t.hhops / n as real, t.vhops / n as real;
    var currAcclat := 2.0 * avgLat + 2.0 * (net.routerDelay * avgHop) + net.bankCycles as real;
    b := Best(currAcclat, r, c, t.lat, avgLat, t.hops, avgHop,
              net.dyn(avgHop, avgHhop, avgVhop), net.leak(avgHop, avgHhop, avgVhop));
  }

  /** Entry k of ds is the first with the least access latency below the bound; -1 when none is below it. */
  ghost predicate FirstFastest(net: Network, n: nat, ds: seq<nat>, bound: real, k: int)
    requires forall i :: 0 <= i < |ds| ==> ds[i] >= 1
  {
    if k == -1 then
      forall i :: 0 <= i < |ds| ==> Access(net, n / ds[i], ds[i]) >= bound
    else
      && 0 <= k < |ds| && Access(net, n / ds[k], ds[k]) < bound
      && (forall i :: 0 <= i < |ds| ==> Access(net, n / ds[k], ds[k]) <= Access(net, n / ds[i], ds[i]))
      && (forall i :: 0 <= i < k ==> Access(net, n / ds[k], ds[k]) < Access(net, n / ds[i], ds[i]))
  }

  ghost predicate Found(net: Network, n: nat, ds: seq<nat>, start: Best, k: int, best: Best) {
    && (forall i :: 0 <= i < |ds| ==> ds[i] >= 1)
    && FirstFastest(net, n, ds, start.acclat, k)
    && (if k == -1 then best == start else Describes(best, net, n / ds[k], ds[k]))
  }

  lemma FoundNext(net: Network, n: nat, ds: seq<nat>, c: nat, start: Best, k: int, best: Best, b: Best)
    requires Found(net, n, ds, start, k, best) && c >= 1 && Describes(b, net, n / c, c)
    ensures Found(net, n, ds + [c], start, if b.acclat < best.acclat then |ds| else k,
                  if b.acclat < best.acclat then b else best)
  {
    hide Access;
    var es := ds + [c];
    assert forall i :: 0 <= i < |ds| ==> es[i] == ds[i];
    assert es[|ds|] == c;
  }

  /**
   The grid search: the column counter skips ahead to the next divisor, so each arrangement is measured once, and
   the first with the least access latency below the starting value is kept.
   */
  method SearchGrid(net: Network, n: nat, start: Best) returns (best: Best, ghost k: int)
    requires n >= 1
    ensures Found(net, n, DivisorsFrom(n, 1), start, k, best)
    ensures best == start || best.rows * best.columns == n
    ensures best.acclat <= start.acclat
    ensures forall c: nat :: 1 <= c <= n && Divides(c, n) ==> best.acclat <= Access(net, n / c, c)
  {
    hide Access;
    hide Divides;
    hide Describes;
    hide Found;
    best, k := start, -1;
    ghost var ds: seq<nat> := [];
    FoundNone(net, n, start);
    var c := 1;
    while c <= n
      invariant 1 <= c <= n + 1
      invariant ds + DivisorsFrom(n, c) == DivisorsFrom(n, 1) && Found(net, n, ds, start, k, best)
      decreases n + 1 - c
    {
      while !Divides(c, n)
        invariant 1 <= c <= n && ds + DivisorsFrom(n, c) == DivisorsFrom(n, 1)
        decreases n - c
      {
        SelfDivides(n, c);
        c := c + 1;
      }
      var r := n / c;
      ExactQuotient(n, c);
      var b := MeasureGrid(net, n, r, c);
      FoundNext(net, n, ds, c, start, k, best, b);
      if b.acclat < best.acclat {
        best, k := b, |ds|;
      }
      assert ds + ([c] + DivisorsFrom(n, c + 1)) == ds + [c] + DivisorsFrom(n, c + 1);
      ds := ds + [c];
      c := c + 1;
    }
    assert ds + [] == ds;
    FoundBest(net, n, start, k, best);
  }

  lemma FoundBest(net: Network, n: nat, start: Best, k: int, best: Best)
    requires n >= 1 && Found(net, n, DivisorsFrom(n, 1), start, k, best)
    ensures best == start || best.rows * best.columns == n
    ensures best.acclat <= start.acclat
    ensures forall c: nat :: 1 <= c <= n && Divides(c, n) ==> best.acclat <= Access(net, n / c, c)
  {
    hide Access;
    hide Divides;
    var ds := DivisorsFrom(n, 1);
    DivisorsSpec(n, 1);
    if k != -1 {
      assert ds[k] in ds;
      ExactQuotient(n, ds[k]);
    }
    forall c: nat | 1 <= c <= n && Divides(c, n) ensures best.acclat <= Access(net, n / c, c) {
      assert c in ds;
      var i :| 0 <= i < |ds| && ds[i] == c;
    }
  }

  lemma FoundNone(net: Network, n: nat, start: Best)
    ensures Found(net, n, [], start, -1, start)
  {
  }

  lemma SelfDivides(n: nat, c: nat)
    requires 1 <= c <= n && !Divides(c, n)
    ensures c < n
  {
    if c == n {
      OneTimes(n);
    }
  }

  lemma OneTimes(n: nat)
    requires n >= 1
    ensures n % n == 0
  {
  }

  lemma ExactQuotient(n: nat, c: nat)
    requires 1 <= c <= n && Divides(c, n)
    ensures n / c >= 1 && n == n / c * c
  {
    assert n == n / c * c + n % c;
  }

  // ----- equal hop latencies -----

  lemma AccessWhenEqual(net: Network, r: nat, c: nat)
    requires net.ver == net.hor
    ensures Access(net, r, c) == (net.hor as real + net.routerDelay) * (r as real + c as real)
                                 + (net.bankCycles as real - 2.0 * net.hor as real)
  {
    var h, x, y, d := net.hor as real, r as real, c as real, net.routerDelay;
    assert h * (x - 1.0) + h * (y - 1.0) == h * (x + y) - 2.0 * h;
    assert (h + d) * (x + y) == h * (x + y) + d * (x + y);
    assert d * ((x + y) / 2.0) == d * (x + y) / 2.0;
  }

  lemma AccessFollowsSum(net: Network, r: nat, c: nat, r2: nat, c2: nat)
    requires net.ver == net.hor && net.hor as real + net.routerDelay > 0.0
    ensures Access(net, r, c) < Access(net, r2, c2) <==> r + c < r2 + c2
  {
    AccessWhenEqual(net, r, c);
    AccessWhenEqual(net, r2, c2);
    ScaleOrder(r as real + c as real, r2 as real + c2 as real, net.hor as real + net.routerDelay);
  }

  /** Of two factorizations, the one nearer the square has the smaller sum. */
  lemma NearerSquare(r: nat, c: nat, r2: nat, c2: nat)
    requires r * c == r2 * c2 && 1 <= c < c2 <= r2
    ensures r + c > r2 + c2
  {
    MulLess(c, c2, r2);
    assert r > r2 by {
      if r <= r2 {
        MulLeq(r, r2, c);
      }
    }
    assert (r - r2) * c == r2 * (c2 - c);
    MulLess(c, r2, c2 - c);
    if r - r2 <= c2 - c {
      MulLeq(r - r2, c2 - c, c);
    }
  }

  lemma MulLess(a: int, b: int, m: nat)
    requires a < b && m >= 1
    ensures a * m < b * m
  {
  }

  lemma MulLeq(a: int, b: int, m: nat)
    requires a <= b
    ensures a * m <= b * m
  {
  }

  /** The arrangement found has the least sum of rows and columns, and the first such. */
  lemma LeastSum(net: Network, n: nat, start: Best, k: int, best: Best, e: nat)
    requires n >= 1 && net.ver == net.hor && net.hor as real + net.routerDelay > 0.0
    requires k != -1 && Found(net, n, DivisorsFrom(n, 1), start, k, best)
    requires 1 <= e <= n && Divides(e, n)
    ensures best.rows * best.columns == n && best.rows >= 1 && 1 <= best.columns <= n && Divides(best.columns, n)
    ensures best.rows + best.columns <= n / e + e
    ensures e < best.columns ==> best.rows + best.columns < n / e + e
  {
    hide Access;
    var ds := DivisorsFrom(n, 1);
    DivisorsSpec(n, 1);
    DivisorsIncrease(n, 1);
    assert ds[k] in ds;
    ExactQuotient(n, ds[k]);
    assert e in ds;
    var i :| 0 <= i < |ds| && ds[i] == e;
    AccessFollowsSum(net, n / e, e, n / ds[k], ds[k]);
    AccessFollowsSum(net, n / ds[k], ds[k], n / e, e);
  }

  /**
   With equal hop latencies the grid kept is the squarest: least rows plus columns, no more columns than rows, and
   its column count the largest divisor not above the square root.
   */
  lemma SquarestGrid(net: Network, n: nat, start: Best, k: int, best: Best)
    requires n >= 1 && net.ver == net.hor && net.hor as real + net.routerDelay > 0.0
    requires k != -1 && Found(net, n, DivisorsFrom(n, 1), start, k, best)
    ensures best.rows * best.columns == n && 1 <= best.columns <= best.rows
    ensures forall e: nat :: 1 <= e <= n && Divides(e, n) ==> best.rows + best.columns <= n / e + e
    ensures forall e: nat :: 1 <= e && Divides(e, n) && e * e <= n ==> e <= best.columns
  {
    hide Found;
    OneDivides(n);
    LeastSum(net, n, start, k, best, 1);
    var r, c := best.rows, best.columns;
    forall e: nat | 1 <= e <= n && Divides(e, n) ensures r + c <= n / e + e {
      LeastSum(net, n, start, k, best, e);
    }
    assert c <= r by {
      Cofactor(n, r, c);
      LeastSum(net, n, start, k, best, r);
    }
    forall e: nat | 1 <= e && Divides(e, n) && e * e <= n ensures e <= c {
      SquareBound(n, e);
      ExactQuotient(n, e);
      LeastSum(net, n, start, k, best, e);
      if e > c {
        NearerSquare(r, c, n / e, e);
      }
    }
  }

  lemma OneDivides(n: nat)
    ensures Divides(1, n)
  {
  }

  lemma Cofactor(n: nat, r: nat, c: nat)
    requires 1 <= r && 1 <= c && n == r * c
    ensures Divides(r, n) && n / r == c && r <= n
  {
    MulLeq(1, c, r);
    RemainderZero(n, r, c);
  }

  lemma RemainderZero(n: nat, r: nat, c: nat)
    requires r >= 1 && n == r * c
    ensures n % r == 0 && n / r == c
  {
    assert n == n / r * r + n % r;
    var e := c - n / r;
    assert e * r == n % r;
    if e >= 1 {
      MulLeq(1, e, r);
    } else if e <= -1 {
      MulLeq(e, -1, r);
    }
  }

  lemma SquareBound(n: nat, e: nat)
    requires e >= 1 && e * e <= n && Divides(e, n)
    ensures e <= n && e <= n / e
  {
    MulLeq(1, e, e);
    ExactQuotient(n, e);
    if n / e < e {
      MulLess(n / e, e, e);
    }
  }
}
