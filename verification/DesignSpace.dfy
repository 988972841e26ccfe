/**
 The design space one worker enumerates, in loop order, and the proof that the strided workers together enumerate
 every point exactly once.
 */
module DesignSpace {
  import opened BasicCircuit
  import opened Parameter

  /** Loop bounds: MAXDATAN = 2^dn, MAX_COL_MUX = 2^cm, Nspd doubling from spdMin to spdMax, wire types. */
  datatype Space = Space(dn: nat, cm: nat, spdMin: real, spdMax: real, wtMin: nat, wtMax: nat)
  {
    function NdblIter(): nat { dn + 1 }
    function NdcmIter(): nat { cm + 1 }
    function Niter(): nat { (dn + 1) * (dn + 1) * (cm + 1) }
  }

  /** One point of the search; the circuit model never sees the wire type. */
  datatype Config = Config(part: Partition, wt: nat)

  // ----- mixed-radix decoding of the loop index -----

  function WlExp(sp: Space, iter: nat): nat {
    PositiveProduct(sp.NdblIter(), sp.NdcmIter());
    iter / (sp.NdblIter() * sp.NdcmIter())
  }
  function BlExp(sp: Space, iter: nat): nat { iter / sp.NdcmIter() % sp.NdblIter() }
  function CmExp(sp: Space, iter: nat): nat { iter % sp.NdcmIter() }

  function Encode(sp: Space, a: nat, b: nat, c: nat): nat {
    (a * sp.NdblIter() + b) * sp.NdcmIter() + c
  }

  lemma DivideTwice(n: nat, x: nat, y: nat)
    requires x > 0 && y > 0
    ensures x * y > 0 && n / (y * x) == n / x / y
  {
    PositiveProduct(x, y);
    var q, q2 := n / x, n / x / y;
    assert q * x <= n < (q + 1) * x;
    assert q2 * y <= q < (q2 + 1) * y;
    MulMonotone(q2 * y, q, x);
    MulMonotone(q + 1, (q2 + 1) * y, x);
    MulAssoc(q2, y, x);
    MulAssoc(q2 + 1, y, x);
    QuotientBracket(n, y * x, q2);
  }

  lemma MulAssoc(a: int, b: int, c: int)
    ensures a * b * c == a * (b * c)
  {
  }

  /** Decoding inverts encoding. */
  lemma DecodeEncode(sp: Space, a: nat, b: nat, c: nat)
    requires b <= sp.dn && c <= sp.cm
    ensures WlExp(sp, Encode(sp, a, b, c)) == a
    ensures BlExp(sp, Encode(sp, a, b, c)) == b
    ensures CmExp(sp, Encode(sp, a, b, c)) == c
  {
    var nb, nc := sp.NdblIter(), sp.NdcmIter();
    var q := a * nb + b;
    var n := q * nc + c;
    QuotientBracket(n, nc, q);
    RemainderOf(n, nc, q, c);
    QuotientBracket(q, nb, a);
    RemainderOf(q, nb, a, b);
    DivideTwice(n, nc, nb);
  }

  lemma RemainderOf(n: nat, d: nat, q: nat, r: nat)
    requires d > 0 && r < d && n == q * d + r
    ensures n % d == r
  {
    QuotientBracket(n, d, q);
    assert n == n / d * d + n % d;
  }

  /** Encoding inverts decoding, and the indices below Niter are the triples within bounds. */
  lemma EncodeDecode(sp: Space, iter: nat)
    ensures Encode(sp, WlExp(sp, iter), BlExp(sp, iter), CmExp(sp, iter)) == iter
    ensures iter < sp.Niter() <==> WlExp(sp, iter) <= sp.dn
  {
    var nb, nc := sp.NdblIter(), sp.NdcmIter();
    DivideTwice(iter, nc, nb);
    var q := iter / nc;
    assert iter == q * nc + iter % nc;
    assert q == q / nb * nb + q % nb;
    var block := nb * nc;
    PositiveProduct(nb, nc);
    BoundByQuotient(iter, block, nb);
    assert nb * block == sp.Niter() by {
      assert nb * (nb * nc) == nb * nb * nc;
    }
  }

  lemma BoundByQuotient(n: nat, d: nat, k: nat)
    requires d > 0
    ensures n < k * d <==> n / d < k
  {
    var q := n / d;
    assert n == q * d + n % d;
    if q < k {
      assert (q + 1) * d <= k * d by { MulMonotone(q + 1, k, d); }
      assert (q + 1) * d == q * d + d;
    } else {
      MulMonotone(k, q, d);
    }
  }

  lemma MulMonotone(a: int, b: int, d: nat)
    requires a <= b
    ensures a * d <= b * d
  {
    assert b * d == a * d + (b - a) * d;
  }

  // ----- the loops, as the sequence of points still to be visited -----

  function Point(sp: Space, nspd: real, wt: nat, iter: nat, j: nat, k: nat): Config {
    Config(Partition(nspd, Pow2(WlExp(sp, iter)), Pow2(BlExp(sp, iter)), Pow2(CmExp(sp, iter)), Pow2(j), Pow2(k)), wt)
  }

  function Sam2From(sp: Space, nspd: real, wt: nat, iter: nat, j: nat, k: nat): seq<Config>
    decreases sp.cm + 1 - k
  {
    if k > sp.cm then [] else [Point(sp, nspd, wt, iter, j, k)] + Sam2From(sp, nspd, wt, iter, j, k + 1)
  }

  function Sam1From(sp: Space, nspd: real, wt: nat, iter: nat, j: nat): seq<Config>
    decreases sp.cm + 1 - j
  {
    if j > sp.cm then [] else Sam2From(sp, nspd, wt, iter, j, 0) + Sam1From(sp, nspd, wt, iter, j + 1)
  }

  function IterFrom(sp: Space, nspd: real, wt: nat, iter: nat, n: nat): seq<Config>
    requires n >= 1
    decreases sp.Niter() - iter
  {
    if iter >= sp.Niter() then [] else Sam1From(sp, nspd, wt, iter, 0) + IterFrom(sp, nspd, wt, iter + n, n)
  }

  function WtFrom(sp: Space, nspd: real, wt: nat, tid: nat, n: nat): seq<Config>
    requires n >= 1
    decreases sp.wtMax + 1 - wt
  {
    if wt > sp.wtMax then [] else IterFrom(sp, nspd, wt, tid, n) + WtFrom(sp, nspd, wt + 1, tid, n)
  }

  /** Doublings left before Nspd passes its maximum; the loop needs a positive start to terminate. */
  function Doublings(nspd: real, max: real): (q: nat) {
    if 0.0 < nspd <= max then
      RatioBracket(max, nspd);
      Quotient(max, nspd)
    else 0
  }

  function Quotient(max: real, nspd: real): int
    requires nspd > 0.0
  {
    (max / nspd).Floor
  }

  lemma RatioBracket(a: real, b: real)
    requires 0.0 < b <= a
    ensures Quotient(a, b) >= 1
    ensures Bracketed(a, b, Quotient(a, b) as real)
  {
    var r := a / b;
    assert r * b == a;
    if r < 1.0 {
      assert (1.0 - r) * b > 0.0;
    }
    FloorBracket(a, b, r, r.Floor as real);
  }

  ghost predicate Bracketed(a: real, b: real, q: real) {
    q * b <= a < (q + 1.0) * b
  }

  lemma FloorBracket(a: real, b: real, r: real, f: real)
    requires b > 0.0 && f <= r < f + 1.0 && r * b == a
    ensures Bracketed(a, b, f)
  {
    ScaleOrder(r, f, b);
    ScaleOrder(r, f + 1.0, b);
  }

  lemma DoublingShrinks(nspd: real, max: real)
    requires 0.0 < nspd <= max
    ensures Doublings(2.0 * nspd, max) < Doublings(nspd, max)
  {
    RatioBracket(max, nspd);
    if 2.0 * nspd <= max {
      RatioBracket(max, 2.0 * nspd);
      HalfTheQuotient(Quotient(max, 2.0 * nspd) as real, Quotient(max, nspd) as real, nspd, max);
    }
  }

  lemma HalfTheQuotient(h: real, q: real, nspd: real, max: real)
    requires q >= 1.0 && nspd > 0.0 && Bracketed(max, 2.0 * nspd, h) && Bracketed(max, nspd, q)
    ensures h < q
  {
    assert h * (2.0 * nspd) == (2.0 * h) * nspd;
    ScaleOrder(2.0 * h, q + 1.0, nspd);
  }

  function SpdFrom(sp: Space, nspd: real, tid: nat, n: nat): seq<Config>
    requires n >= 1 && nspd > 0.0
    decreases Doublings(nspd, sp.spdMax)
  {
    if nspd > sp.spdMax then []
    else
      DoublingShrinks(nspd, sp.spdMax);
      WtFrom(sp, nspd, sp.wtMin, tid, n) + SpdFrom(sp, 2.0 * nspd, tid, n)
  }

  /** Everything worker tid of n visits, in order. */
  function Configs(sp: Space, tid: nat, n: nat): seq<Config>
    requires n >= 1 && sp.spdMin > 0.0
  {
    SpdFrom(sp, sp.spdMin, tid, n)
  }

  // ----- coverage -----

  ghost predicate IsSpd(sp: Space, start: real, nspd: real)
    requires start > 0.0
    decreases Doublings(start, sp.spdMax)
  {
    if start > sp.spdMax then false
    else
      DoublingShrinks(start, sp.spdMax);
      nspd == start || IsSpd(sp, 2.0 * start, nspd)
  }

  /** A point within all loop bounds, given by its index and exponents. */
  ghost predicate InSpace(sp: Space, nspd: real, wt: nat, iter: nat, j: nat, k: nat)
    requires sp.spdMin > 0.0
  {
    IsSpd(sp, sp.spdMin, nspd) && sp.wtMin <= wt <= sp.wtMax && iter < sp.Niter() && j <= sp.cm && k <= sp.cm
  }

  ghost function Count(s: seq<Config>, c: Config): nat {
    if s == [] then 0 else (if s[0] == c then 1 else 0) + Count(s[1..], c)
  }

  lemma {:induction false} CountConcat(a: seq<Config>, b: seq<Config>, c: Config)
    ensures Count(a + b, c) == Count(a, c) + Count(b, c)
  {
    if a == [] {
      assert a + b == b;
    } else {
      assert (a + b)[1..] == a[1..] + b;
      CountConcat(a[1..], b, c);
    }
  }

  lemma PointInjective(sp: Space, s1: real, w1: nat, i1: nat, j1: nat, k1: nat,
                       s2: real, w2: nat, i2: nat, j2: nat, k2: nat)
    requires Point(sp, s1, w1, i1, j1, k1) == Point(sp, s2, w2, i2, j2, k2)
    ensures s1 == s2 && w1 == w2 && i1 == i2 && j1 == j2 && k1 == k2
  {
    Pow2Injective(WlExp(sp, i1), WlExp(sp, i2));
    Pow2Injective(BlExp(sp, i1), BlExp(sp, i2));
    Pow2Injective(CmExp(sp, i1), CmExp(sp, i2));
    Pow2Injective(j1, j2);
    Pow2Injective(k1, k2);
    EncodeDecode(sp, i1);
    EncodeDecode(sp, i2);
  }

  /** The point whose occurrences are counted. */
  datatype Target = Target(nspd: real, wt: nat, iter: nat, j: nat, k: nat)
  {
    function In(sp: Space): Config { Point(sp, nspd, wt, iter, j, k) }
  }

  lemma {:induction false} CountSam2(sp: Space, nspd: real, wt: nat, iter: nat, j: nat, k: nat, t: Target)
    ensures Count(Sam2From(sp, nspd, wt, iter, j, k), t.In(sp))
         == if nspd == t.nspd && wt == t.wt && iter == t.iter && j == t.j && k <= t.k <= sp.cm then 1 else 0
    decreases sp.cm + 1 - k
  {
    if k <= sp.cm {
      CountSam2(sp, nspd, wt, iter, j, k + 1, t);
      if Point(sp, nspd, wt, iter, j, k) == t.In(sp) {
        PointInjective(sp, nspd, wt, iter, j, k, t.nspd, t.wt, t.iter, t.j, t.k);
      }
      CountConcat([Point(sp, nspd, wt, iter, j, k)], Sam2From(sp, nspd, wt, iter, j, k + 1), t.In(sp));
    }
  }

  lemma {:induction false} CountSam1(sp: Space, nspd: real, wt: nat, iter: nat, j: nat, t: Target)
    requires t.k <= sp.cm
    ensures Count(Sam1From(sp, nspd, wt, iter, j), t.In(sp))
         == if nspd == t.nspd && wt == t.wt && iter == t.iter && j <= t.j <= sp.cm then 1 else 0
    decreases sp.cm + 1 - j
  {
    if j <= sp.cm {
      CountSam2(sp, nspd, wt, iter, j, 0, t);
      CountSam1(sp, nspd, wt, iter, j + 1, t);
      CountConcat(Sam2From(sp, nspd, wt, iter, j, 0), Sam1From(sp, nspd, wt, iter, j + 1), t.In(sp));
    }
  }

  /** The index is reached by striding from i by n. */
  ghost predicate Reaches(i: nat, n: nat, target: nat)
    requires n >= 1
    decreases target - i
  {
    i == target || (i < target && Reaches(i + n, n, target))
  }

  lemma {:induction false} CountIter(sp: Space, nspd: real, wt: nat, iter: nat, n: nat, t: Target)
    requires n >= 1 && t.k <= sp.cm && t.j <= sp.cm && t.iter < sp.Niter()
    ensures Count(IterFrom(sp, nspd, wt, iter, n), t.In(sp))
         == if nspd == t.nspd && wt == t.wt && Reaches(iter, n, t.iter) then 1 else 0
    decreases sp.Niter() - iter
  {
    if iter < sp.Niter() {
      CountSam1(sp, nspd, wt, iter, 0, t);
      CountIter(sp, nspd, wt, iter + n, n, t);
      CountConcat(Sam1From(sp, nspd, wt, iter, 0), IterFrom(sp, nspd, wt, iter + n, n), t.In(sp));
    }
  }

  lemma {:induction false} CountWt(sp: Space, nspd: real, wt: nat, tid: nat, n: nat, t: Target)
    requires n >= 1 && t.k <= sp.cm && t.j <= sp.cm && t.iter < sp.Niter()
    ensures Count(WtFrom(sp, nspd, wt, tid, n), t.In(sp))
         == if nspd == t.nspd && wt <= t.wt <= sp.wtMax && Reaches(tid, n, t.iter) then 1 else 0
    decreases sp.wtMax + 1 - wt
  {
    if wt <= sp.wtMax {
      CountIter(sp, nspd, wt, tid, n, t);
      CountWt(sp, nspd, wt + 1, tid, n, t);
      CountConcat(IterFrom(sp, nspd, wt, tid, n), WtFrom(sp, nspd, wt + 1, tid, n), t.In(sp));
    }
  }

  lemma {:induction false} SpdAtLeast(sp: Space, start: real, nspd: real)
    requires start > 0.0 && IsSpd(sp, start, nspd)
    ensures nspd >= start
    decreases Doublings(start, sp.spdMax)
  {
    if nspd != start {
      DoublingShrinks(start, sp.spdMax);
      SpdAtLeast(sp, 2.0 * start, nspd);
    }
  }

  lemma {:induction false} CountSpd(sp: Space, nspd: real, tid: nat, n: nat, t: Target)
    requires n >= 1 && nspd > 0.0 && t.k <= sp.cm && t.j <= sp.cm && t.iter < sp.Niter()
    requires sp.wtMin <= t.wt <= sp.wtMax
    ensures Count(SpdFrom(sp, nspd, tid, n), t.In(sp))
         == if IsSpd(sp, nspd, t.nspd) && Reaches(tid, n, t.iter) then 1 else 0
    decreases Doublings(nspd, sp.spdMax)
  {
    if nspd <= sp.spdMax {
      DoublingShrinks(nspd, sp.spdMax);
      CountWt(sp, nspd, sp.wtMin, tid, n, t);
      CountSpd(sp, 2.0 * nspd, tid, n, t);
      if IsSpd(sp, 2.0 * nspd, t.nspd) {
        SpdAtLeast(sp, 2.0 * nspd, t.nspd);
      }
      CountConcat(WtFrom(sp, nspd, sp.wtMin, tid, n), SpdFrom(sp, 2.0 * nspd, tid, n), t.In(sp));
    }
  }

  lemma {:induction false} ReachesIsCongruent(i: nat, n: nat, target: nat)
    requires n >= 1
    ensures Reaches(i, n, target) <==> i <= target && (target - i) % n == 0
    decreases target - i
  {
    if i + n <= target {
      ReachesIsCongruent(i + n, n, target);
      ModShift(target - i - n, n);
    } else if i < target {
      SmallMod(target - i, n);
    } else if i == target {
      SmallMod(0, n);
    }
  }

  lemma ModShift(x: nat, n: nat)
    requires n >= 1
    ensures (x + n) % n == x % n
  {
    assert x == x / n * n + x % n;
    assert (x / n + 1) * n == x / n * n + n;
    RemainderOf(x + n, n, x / n + 1, x % n);
  }

  lemma SmallMod(x: nat, n: nat)
    requires x < n
    ensures x % n == x
  {
  }

  lemma ReachesFromBelow(tid: nat, n: nat, iter: nat)
    requires tid < n
    ensures Reaches(tid, n, iter) <==> iter % n == tid
  {
    ReachesIsCongruent(tid, n, iter);
    var q, r := iter / n, iter % n;
    assert iter == q * n + r;
    if r == tid {
      if iter < tid {
        SmallMod(iter, n);
      }
      RemainderOf(q * n, n, q, 0);
    } else if tid <= iter && (iter - tid) % n == 0 {
      var d := iter - tid;
      assert d == d / n * n + d % n;
      RemainderOf(iter, n, d / n, tid);
    }
  }

  lemma CoverageByIndex(sp: Space, tid: nat, n: nat, nspd: real, wt: nat, iter: nat, j: nat, k: nat)
    requires tid < n && sp.spdMin > 0.0 && InSpace(sp, nspd, wt, iter, j, k)
    ensures Count(Configs(sp, tid, n), Point(sp, nspd, wt, iter, j, k)) == if iter % n == tid then 1 else 0
  {
    var t := Target(nspd, wt, iter, j, k);
    CountSpd(sp, sp.spdMin, tid, n, t);
    ReachesFromBelow(tid, n, iter);
  }

  /**
   Search-space coverage.  For every Nspd and wire type of the loops, each triple of powers of two within bounds
   (and each pair of sense-amplifier multiplexings) is visited exactly once, by exactly one of the n workers.
   */
  lemma Coverage(sp: Space, tid: nat, n: nat, nspd: real, wt: nat, a: nat, b: nat, c: nat, j: nat, k: nat)
    requires tid < n && sp.spdMin > 0.0 && IsSpd(sp, sp.spdMin, nspd) && sp.wtMin <= wt <= sp.wtMax
    requires a <= sp.dn && b <= sp.dn && c <= sp.cm && j <= sp.cm && k <= sp.cm
    ensures Count(Configs(sp, tid, n), Config(Partition(nspd, Pow2(a), Pow2(b), Pow2(c), Pow2(j), Pow2(k)), wt))
         == if Encode(sp, a, b, c) % n == tid then 1 else 0
  {
    DecodeEncode(sp, a, b, c);
    EncodeDecode(sp, Encode(sp, a, b, c));
    CoverageByIndex(sp, tid, n, nspd, wt, Encode(sp, a, b, c), j, k);
  }

  // ----- and nothing else is visited -----

  ghost predicate AllInBounds(sp: Space, s: seq<Config>)
    requires sp.spdMin > 0.0
  {
    forall x :: 0 <= x < |s| ==> Bounded(sp, s[x])
  }

  ghost predicate Bounded(sp: Space, c: Config)
    requires sp.spdMin > 0.0
  {
    exists nspd, wt, iter, j, k :: InSpace(sp, nspd, wt, iter, j, k) && c == Point(sp, nspd, wt, iter, j, k)
  }

  lemma {:induction false} BoundsSam2(sp: Space, nspd: real, wt: nat, iter: nat, j: nat, k: nat)
    requires sp.spdMin > 0.0 && InSpace(sp, nspd, wt, iter, j, 0)
    ensures AllInBounds(sp, Sam2From(sp, nspd, wt, iter, j, k))
    decreases sp.cm + 1 - k
  {
    if k <= sp.cm {
      assert InSpace(sp, nspd, wt, iter, j, k);
      assert Bounded(sp, Point(sp, nspd, wt, iter, j, k));
      BoundsSam2(sp, nspd, wt, iter, j, k + 1);
    }
  }

  lemma {:induction false} BoundsSam1(sp: Space, nspd: real, wt: nat, iter: nat, j: nat)
    requires sp.spdMin > 0.0 && InSpace(sp, nspd, wt, iter, 0, 0)
    ensures AllInBounds(sp, Sam1From(sp, nspd, wt, iter, j))
    decreases sp.cm + 1 - j
  {
    if j <= sp.cm {
      BoundsSam2(sp, nspd, wt, iter, j, 0);
      BoundsSam1(sp, nspd, wt, iter, j + 1);
    }
  }

  lemma {:induction false} BoundsIter(sp: Space, nspd: real, wt: nat, iter: nat, n: nat)
    requires n >= 1 && sp.spdMin > 0.0 && IsSpd(sp, sp.spdMin, nspd) && sp.wtMin <= wt <= sp.wtMax
    ensures AllInBounds(sp, IterFrom(sp, nspd, wt, iter, n))
    decreases sp.Niter() - iter
  {
    if iter < sp.Niter() {
      BoundsSam1(sp, nspd, wt, iter, 0);
      BoundsIter(sp, nspd, wt, iter + n, n);
    }
  }

  lemma {:induction false} BoundsWt(sp: Space, nspd: real, wt: nat, tid: nat, n: nat)
    requires n >= 1 && sp.spdMin > 0.0 && IsSpd(sp, sp.spdMin, nspd) && sp.wtMin <= wt
    ensures AllInBounds(sp, WtFrom(sp, nspd, wt, tid, n))
    decreases sp.wtMax + 1 - wt
  {
    if wt <= sp.wtMax {
      BoundsIter(sp, nspd, wt, tid, n);
      BoundsWt(sp, nspd, wt + 1, tid, n);
    }
  }

  lemma {:induction false} SpdChain(sp: Space, start: real, nspd: real)
    requires start > 0.0 && IsSpd(sp, start, nspd) && 2.0 * nspd <= sp.spdMax
    ensures IsSpd(sp, start, 2.0 * nspd)
    decreases Doublings(start, sp.spdMax)
  {
    DoublingShrinks(start, sp.spdMax);
    if nspd != start {
      SpdChain(sp, 2.0 * start, nspd);
    }
  }

  lemma {:induction false} BoundsSpd(sp: Space, nspd: real, tid: nat, n: nat)
    requires n >= 1 && nspd > 0.0 && sp.spdMin > 0.0
    requires nspd <= sp.spdMax ==> IsSpd(sp, sp.spdMin, nspd)
    ensures AllInBounds(sp, SpdFrom(sp, nspd, tid, n))
    decreases Doublings(nspd, sp.spdMax)
  {
    if nspd <= sp.spdMax {
      DoublingShrinks(nspd, sp.spdMax);
      BoundsWt(sp, nspd, sp.wtMin, tid, n);
      if 2.0 * nspd <= sp.spdMax {
        SpdChain(sp, sp.spdMin, nspd);
      }
      BoundsSpd(sp, 2.0 * nspd, tid, n);
    }
  }

  /** No worker leaves the bounds. */
  lemma NothingElse(sp: Space, tid: nat, n: nat)
    requires n >= 1 && sp.spdMin > 0.0
    ensures AllInBounds(sp, Configs(sp, tid, n))
  {
    BoundsSpd(sp, sp.spdMin, tid, n);
  }
}
