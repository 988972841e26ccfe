/**
 What the search compares: the performance of an organization, the running minima, the deviation checks and
 weighted costs, and the sort key of a memory array.
 */
module MemArray {

  const BIGNUM := 1000000000000000000000000000000.0

  /** The five numbers every selection looks at. */
  datatype Perf = Perf(delay: real, dyn: real, leak: real, area: real, cyc: real)
  {
    predicate Positive() {
      delay > 0.0 && dyn > 0.0 && leak > 0.0 && area > 0.0 && cyc > 0.0
    }
  }

  function MinReal(a: real, b: real): real { if a > b then b else a }

  /** Running minima; both overloads of the update are the componentwise minimum. */
  datatype Minima = Minima(delay: real, dyn: real, leak: real, area: real, cyc: real)
  {
    function Update(p: Perf): Minima {
      Minima(MinReal(delay, p.delay), MinReal(dyn, p.dyn), MinReal(leak, p.leak), MinReal(area, p.area),
             MinReal(cyc, p.cyc))
    }

    function Merge(m: Minima): Minima {
      Minima(MinReal(delay, m.delay), MinReal(dyn, m.dyn), MinReal(leak, m.leak), MinReal(area, m.area),
             MinReal(cyc, m.cyc))
    }

    predicate Positive() {
      delay > 0.0 && dyn > 0.0 && leak > 0.0 && area > 0.0 && cyc > 0.0
    }
  }

  const NO_MINIMA := Minima(BIGNUM, BIGNUM, BIGNUM, BIGNUM, BIGNUM)

  /** Percent deviations allowed, and objective weights. */
  datatype Objective = Objective(devDelay: real, devDyn: real, devLeak: real, devCyc: real, devArea: real,
                                 wtDelay: real, wtDyn: real, wtLeak: real, wtCyc: real, wtArea: real)

  /** The deviation check, shared in form by the cache, array and NUCA searches. */
  predicate Within(u: Perf, m: Minima, o: Objective)
    requires m.Positive()
  {
    && (u.delay - m.delay) * 100.0 / m.delay <= o.devDelay
    && (u.dyn - m.dyn) / m.dyn * 100.0 <= o.devDyn
    && (u.leak - m.leak) / m.leak * 100.0 <= o.devLeak
    && (u.cyc - m.cyc) / m.cyc * 100.0 <= o.devCyc
    && (u.area - m.area) / m.area * 100.0 <= o.devArea
  }

  function WeightedCost(u: Perf, m: Minima, o: Objective): real
    requires m.Positive()
  {
    o.wtDelay * (u.delay / m.delay) + o.wtCyc * (u.cyc / m.cyc) + o.wtDyn * (u.dyn / m.dyn)
      + o.wtLeak * (u.leak / m.leak) + o.wtArea * (u.area / m.area)
  }

  function EdCost(u: Perf, m: Minima): real
    requires m.Positive()
  {
    (u.delay / m.delay) * (u.dyn / m.dyn)
  }

  function Ed2Cost(u: Perf, m: Minima): real
    requires m.Positive()
  {
    (u.delay / m.delay) * EdCost(u, m)
  }

  // ----- memory arrays -----

  datatype Metrics = Metrics(perf: Perf, height: real, width: real,
                             muxDecoder: real, beforeDriver: real, fromDriver: real)

  datatype MemArray = MemArray(key: Key, metrics: Metrics, wt: nat)

  /** The fields the sort looks at, in order of significance. */
  datatype Key = Key(nspd: real, ndwl: nat, ndbl: nat, deg: nat, sam1: nat, sam2: nat)

  predicate Lt(m1: Key, m2: Key) {
    if m1.nspd < m2.nspd then true
    else if m1.nspd > m2.nspd then false
    else if m1.ndwl < m2.ndwl then true
    else if m1.ndwl > m2.ndwl then false
    else if m1.ndbl < m2.ndbl then true
    else if m1.ndbl > m2.ndbl then false
    else if m1.deg < m2.deg then true
    else if m1.deg > m2.deg then false
    else if m1.sam1 < m2.sam1 then true
    else if m1.sam1 > m2.sam1 then false
    else if m1.sam2 < m2.sam2 then true
    else false
  }

  /** The comparison is a strict total order on keys. */
  lemma LtTotal(a: Key, b: Key)
    ensures !(Lt(a, b) && Lt(b, a))
    ensures Lt(a, b) || Lt(b, a) || a == b
  {
  }

  lemma LtTransitive(a: Key, b: Key, c: Key)
    requires Lt(a, b) && Lt(b, c)
    ensures Lt(a, c)
  {
  }

  // ----- minima over a list -----

  function MinOver(s: seq<Perf>, start: Minima): Minima {
    if s == [] then start else MinOver(s[1..], start.Update(s[0]))
  }

  ghost predicate Below(m: Minima, p: Perf) {
    m.delay <= p.delay && m.dyn <= p.dyn && m.leak <= p.leak && m.area <= p.area && m.cyc <= p.cyc
  }

  ghost predicate BelowAll(m: Minima, s: seq<Perf>) {
    forall i :: 0 <= i < |s| ==> Below(m, s[i])
  }

  /** Each component is either still the start value or is attained in the list. */
  ghost predicate Attained(m: Minima, s: seq<Perf>, start: Minima) {
    && (m.delay == start.delay || exists i :: 0 <= i < |s| && s[i].delay == m.delay)
    && (m.dyn == start.dyn || exists i :: 0 <= i < |s| && s[i].dyn == m.dyn)
    && (m.leak == start.leak || exists i :: 0 <= i < |s| && s[i].leak == m.leak)
    && (m.area == start.area || exists i :: 0 <= i < |s| && s[i].area == m.area)
    && (m.cyc == start.cyc || exists i :: 0 <= i < |s| && s[i].cyc == m.cyc)
  }

  ghost predicate BelowStart(m: Minima, start: Minima) {
    m.delay <= start.delay && m.dyn <= start.dyn && m.leak <= start.leak && m.area <= start.area && m.cyc <= start.cyc
  }

  lemma {:induction false} MinOverIsBelow(s: seq<Perf>, start: Minima)
    ensures BelowAll(MinOver(s, start), s) && BelowStart(MinOver(s, start), start)
  {
    if s != [] {
      var m := start.Update(s[0]);
      MinOverIsBelow(s[1..], m);
      assert Below(MinOver(s, start), s[0]);
      forall i | 0 <= i < |s| ensures Below(MinOver(s, start), s[i]) {
        if i > 0 { assert s[i] == s[1..][i - 1]; }
      }
    }
  }

  lemma {:induction false} MinOverIsAttained(s: seq<Perf>, start: Minima)
    ensures Attained(MinOver(s, start), s, start)
  {
    if s != [] {
      var rest, m := s[1..], start.Update(s[0]);
      MinOverIsAttained(rest, m);
      assert forall i :: 0 <= i < |rest| ==> rest[i] == s[i + 1];
      var r := MinOver(s, start);
      if exists i :: 0 <= i < |rest| && rest[i].delay == r.delay {
        var i :| 0 <= i < |rest| && rest[i].delay == r.delay;
        assert s[i + 1].delay == r.delay;
      }
      if exists i :: 0 <= i < |rest| && rest[i].dyn == r.dyn {
        var i :| 0 <= i < |rest| && rest[i].dyn == r.dyn;
        assert s[i + 1].dyn == r.dyn;
      }
      if exists i :: 0 <= i < |rest| && rest[i].leak == r.leak {
        var i :| 0 <= i < |rest| && rest[i].leak == r.leak;
        assert s[i + 1].leak == r.leak;
      }
      if exists i :: 0 <= i < |rest| && rest[i].area == r.area {
        var i :| 0 <= i < |rest| && rest[i].area == r.area;
        assert s[i + 1].area == r.area;
      }
      if exists i :: 0 <= i < |rest| && rest[i].cyc == r.cyc {
        var i :| 0 <= i < |rest| && rest[i].cyc == r.cyc;
        assert s[i + 1].cyc == r.cyc;
      }
    }
  }

  ghost predicate Members(s: seq<Perf>, t: seq<Perf>) {
    forall i :: 0 <= i < |s| ==> s[i] in t
  }

  /** A lower bound that is attained is unique, so the minima do not depend on the order of the list. */
  lemma MinimaUnique(s: seq<Perf>, t: seq<Perf>, start: Minima)
    requires Members(s, t) && Members(t, s)
    ensures MinOver(s, start) == MinOver(t, start)
  {
    MinOverIsBelow(s, start);
    MinOverIsBelow(t, start);
    MinOverIsAttained(s, start);
    MinOverIsAttained(t, start);
  }

  lemma {:induction false} MinOverAppend(s: seq<Perf>, t: seq<Perf>, start: Minima)
    ensures MinOver(s + t, start) == MinOver(t, MinOver(s, start))
  {
    if s == [] {
      assert s + t == t;
    } else {
      assert (s + t)[1..] == s[1..] + t;
      MinOverAppend(s[1..], t, start.Update(s[0]));
    }
  }

  /** Merging a worker's minima is the same as folding in everything the worker saw. */
  lemma {:induction false} MergeIsFold(s: seq<Perf>, m: Minima)
    requires BelowStart(m, NO_MINIMA)
    ensures m.Merge(MinOver(s, NO_MINIMA)) == MinOver(s, m)
  {
    MergeFold(s, m, NO_MINIMA);
    assert m.Merge(NO_MINIMA) == m;
  }

  lemma {:induction false} MergeFold(s: seq<Perf>, m: Minima, start: Minima)
    ensures m.Merge(MinOver(s, start)) == MinOver(s, m.Merge(start))
  {
    if s != [] {
      MergeFold(s[1..], m, start.Update(s[0]));
      assert m.Merge(start.Update(s[0])) == m.Merge(start).Update(s[0]);
    }
  }

  lemma {:induction false} MinOverPositive(s: seq<Perf>, start: Minima)
    requires start.Positive() && forall i :: 0 <= i < |s| ==> s[i].Positive()
    ensures MinOver(s, start).Positive()
  {
    if s != [] {
      MinOverPositive(s[1..], start.Update(s[0]));
    }
  }

  // ----- the normalizers of the product costs cancel -----

  lemma RatioProduct(a: real, b: real, m: real, n: real)
    requires m > 0.0 && n > 0.0
    ensures (a / m) * (b / n) == (a * b) / (m * n)
  {
    var x, y := a / m, b / n;
    assert a == x * m && b == y * n;
    assert a * b == (x * y) * (m * n) by { FourFactors(x, m, y, n); }
    DivideOut(x * y, m * n);
  }

  lemma FourFactors(x: real, m: real, y: real, n: real)
    ensures (x * m) * (y * n) == (x * y) * (m * n)
  {
    calc {
      (x * m) * (y * n);
      x * (m * (y * n));
      { assert m * (y * n) == y * (m * n); }
      x * (y * (m * n));
      (x * y) * (m * n);
    }
  }

  lemma DivideOut(q: real, d: real)
    requires d > 0.0
    ensures (q * d) / d == q
  {
  }

  lemma RatioOrder(a: real, b: real, d: real)
    requires d > 0.0
    ensures a / d < b / d <==> a < b
  {
    var x, y := a / d, b / d;
    assert a == x * d && b == y * d;
    if x < y {
      assert (y - x) * d > 0.0;
    } else {
      assert (x - y) * d >= 0.0;
    }
  }

  /** The energy-delay products, free of normalizers. */
  function EdProduct(delay: real, dyn: real): real { delay * dyn }
  function Ed2Product(delay: real, dyn: real): real { delay * EdProduct(delay, dyn) }

  lemma PositiveMul(a: real, b: real)
    requires a > 0.0 && b > 0.0
    ensures a * b > 0.0
  {
  }

  lemma EdAsRatio(u: Perf, m: Minima)
    requires m.Positive()
    ensures EdProduct(m.delay, m.dyn) > 0.0
    ensures EdCost(u, m) == EdProduct(u.delay, u.dyn) / EdProduct(m.delay, m.dyn)
  {
    PositiveMul(m.delay, m.dyn);
    RatioProduct(u.delay, u.dyn, m.delay, m.dyn);
  }

  lemma Ed2AsRatio(u: Perf, m: Minima)
    requires m.Positive()
    ensures Ed2Product(m.delay, m.dyn) > 0.0
    ensures Ed2Cost(u, m) == Ed2Product(u.delay, u.dyn) / Ed2Product(m.delay, m.dyn)
  {
    EdAsRatio(u, m);
    PositiveMul(m.delay, EdProduct(m.delay, m.dyn));
    RatioProduct(u.delay, EdProduct(u.delay, u.dyn), m.delay, EdProduct(m.delay, m.dyn));
  }

  /** In the energy-delay modes the order is that of the plain products, whatever the minima. */
  lemma EdOrder(u: Perf, v: Perf, m: Minima)
    requires m.Positive()
    ensures EdCost(u, m) < EdCost(v, m) <==> EdProduct(u.delay, u.dyn) < EdProduct(v.delay, v.dyn)
  {
    EdAsRatio(u, m);
    EdAsRatio(v, m);
    RatioOrder(EdProduct(u.delay, u.dyn), EdProduct(v.delay, v.dyn), EdProduct(m.delay, m.dyn));
  }

  lemma Ed2Order(u: Perf, v: Perf, m: Minima)
    requires m.Positive()
    ensures Ed2Cost(u, m) < Ed2Cost(v, m) <==> Ed2Product(u.delay, u.dyn) < Ed2Product(v.delay, v.dyn)
  {
    Ed2AsRatio(u, m);
    Ed2AsRatio(v, m);
    RatioOrder(Ed2Product(u.delay, u.dyn), Ed2Product(v.delay, v.dyn), Ed2Product(m.delay, m.dyn));
  }
}
