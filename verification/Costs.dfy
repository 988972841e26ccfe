/**
 What deviations and weights mean for the figures of an organization, stated on the figures: what is within the
 deviations, which of two organizations is dearer, and what that says of every weighted selection.
 */
module Costs {
  import opened BasicCircuit
  import opened MemArray
  import opened StableMerge
  import opened Select
  import opened Filters
  import opened Nuca

  // ----- deviations -----

  /** Each figure is at most its own allowance above its own minimum. */
  ghost predicate Allowed(u: Perf, m: Minima, o: Objective) {
    && u.delay <= m.delay * (1.0 + o.devDelay / 100.0)
    && u.dyn <= m.dyn * (1.0 + o.devDyn / 100.0)
    && u.leak <= m.leak * (1.0 + o.devLeak / 100.0)
    && u.cyc <= m.cyc * (1.0 + o.devCyc / 100.0)
    && u.area <= m.area * (1.0 + o.devArea / 100.0)
  }

  lemma Allowance(x: real, min: real, dev: real)
    requires min > 0.0
    ensures (x - min) * 100.0 / min <= dev <==> x <= min * (1.0 + dev / 100.0)
    ensures (x - min) / min * 100.0 <= dev <==> x <= min * (1.0 + dev / 100.0)
  {
    var q, share := (x - min) / min, dev / 100.0;
    assert q * min == x - min && share * 100.0 == dev;
    DivideOut(q * 100.0, min);
    assert (x - min) * 100.0 == q * 100.0 * min;
    ScaleOrder(q, share, min);
    assert min * (1.0 + share) == min + share * min;
  }

  lemma WithinIsAllowed(u: Perf, m: Minima, o: Objective)
    requires m.Positive()
    ensures Within(u, m, o) <==> Allowed(u, m, o)
  {
    Allowance(u.delay, m.delay, o.devDelay);
    Allowance(u.dyn, m.dyn, o.devDyn);
    Allowance(u.leak, m.leak, o.devLeak);
    Allowance(u.cyc, m.cyc, o.devCyc);
    Allowance(u.area, m.area, o.devArea);
  }

  // ----- weights -----

  /** What w has over u, each figure in shares of its minimum and by its weight. */
  ghost function Surplus(u: Perf, w: Perf, m: Minima, o: Objective): real
    requires m.Positive()
  {
    o.wtDelay * ((w.delay - u.delay) / m.delay) + o.wtDyn * ((w.dyn - u.dyn) / m.dyn)
    + o.wtLeak * ((w.leak - u.leak) / m.leak) + o.wtArea * ((w.area - u.area) / m.area)
    + o.wtCyc * ((w.cyc - u.cyc) / m.cyc)
  }

  lemma Share(weight: real, x: real, y: real, min: real)
    requires min > 0.0
    ensures weight * (y / min) - weight * (x / min) == weight * ((y - x) / min)
  {
    var p, q := x / min, y / min;
    assert p * min == x && q * min == y;
    DivideOut(q - p, min);
    assert (q - p) * min == y - x;
  }

  /** Costs differ by the surplus. */
  lemma CostIsSurplus(u: Perf, w: Perf, m: Minima, o: Objective)
    requires m.Positive()
    ensures WeightedCost(w, m, o) - WeightedCost(u, m, o) == Surplus(u, w, m, o)
  {
    Share(o.wtDelay, u.delay, w.delay, m.delay);
    Share(o.wtCyc, u.cyc, w.cyc, m.cyc);
    Share(o.wtDyn, u.dyn, w.dyn, m.dyn);
    Share(o.wtLeak, u.leak, w.leak, m.leak);
    Share(o.wtArea, u.area, w.area, m.area);
    FiveDifferences(
      o.wtDelay * (u.delay / m.delay), o.wtDelay * (w.delay / m.delay), o.wtDelay * ((w.delay - u.delay) / m.delay),
      o.wtCyc * (u.cyc / m.cyc), o.wtCyc * (w.cyc / m.cyc), o.wtCyc * ((w.cyc - u.cyc) / m.cyc),
      o.wtDyn * (u.dyn / m.dyn), o.wtDyn * (w.dyn / m.dyn), o.wtDyn * ((w.dyn - u.dyn) / m.dyn),
      o.wtLeak * (u.leak / m.leak), o.wtLeak * (w.leak / m.leak), o.wtLeak * ((w.leak - u.leak) / m.leak),
      o.wtArea * (u.area / m.area), o.wtArea * (w.area / m.area), o.wtArea * ((w.area - u.area) / m.area));
  }

  lemma FiveDifferences(a1: real, b1: real, c1: real, a2: real, b2: real, c2: real, a3: real, b3: real, c3: real,
                        a4: real, b4: real, c4: real, a5: real, b5: real, c5: real)
    requires b1 - a1 == c1 && b2 - a2 == c2 && b3 - a3 == c3 && b4 - a4 == c4 && b5 - a5 == c5
    ensures b1 + b2 + b3 + b4 + b5 - (a1 + a2 + a3 + a4 + a5) == c1 + c3 + c4 + c5 + c2
  {
  }

  /** The cost of an organization at the minima is the sum of the weights. */
  lemma CostAtMinima(m: Minima, o: Objective)
    requires m.Positive()
    ensures WeightedCost(Perf(m.delay, m.dyn, m.leak, m.area, m.cyc), m, o)
         == o.wtDelay + o.wtDyn + o.wtLeak + o.wtArea + o.wtCyc
  {
    WholeShare(o.wtDelay, m.delay);
    WholeShare(o.wtCyc, m.cyc);
    WholeShare(o.wtDyn, m.dyn);
    WholeShare(o.wtLeak, m.leak);
    WholeShare(o.wtArea, m.area);
  }

  lemma WholeShare(weight: real, min: real)
    requires min > 0.0
    ensures weight * (min / min) == weight
  {
    assert min / min == 1.0;
  }

  /** The cost of an organization is the sum of the weights plus its surplus over the minima. */
  lemma CostFromMinima(u: Perf, m: Minima, o: Objective)
    requires m.Positive()
    ensures WeightedCost(u, m, o)
         == o.wtDelay + o.wtDyn + o.wtLeak + o.wtArea + o.wtCyc
            + Surplus(Perf(m.delay, m.dyn, m.leak, m.area, m.cyc), u, m, o)
  {
    hide Surplus;
    hide WeightedCost;
    CostAtMinima(m, o);
    CostIsSurplus(Perf(m.delay, m.dyn, m.leak, m.area, m.cyc), u, m, o);
  }

  lemma ShareSign(weight: real, x: real, y: real, min: real)
    requires min > 0.0
    ensures weight == 0.0 || x == y ==> weight * ((y - x) / min) == 0.0
    ensures weight > 0.0 ==> (weight * ((y - x) / min) >= 0.0 <==> y >= x)
    ensures weight > 0.0 ==> (weight * ((y - x) / min) > 0.0 <==> y > x)
    ensures weight >= 0.0 && y >= x ==> weight * ((y - x) / min) >= 0.0
  {
    var q := (y - x) / min;
    assert q * min == y - x;
    ScaleOrder(0.0, q, min);
    ScaleOrder(q, 0.0, min);
    if weight > 0.0 {
      ScaleOrder(0.0, q, weight);
      ScaleOrder(q, 0.0, weight);
      assert q * weight == weight * q;
    }
  }

  lemma AllShareSigns(u: Perf, w: Perf, m: Minima, o: Objective)
    requires m.Positive()
    ensures o.wtDelay == 0.0 || u.delay == w.delay ==> o.wtDelay * ((w.delay - u.delay) / m.delay) == 0.0
    ensures o.wtDelay > 0.0 ==> (o.wtDelay * ((w.delay - u.delay) / m.delay) >= 0.0 <==> w.delay >= u.delay)
    ensures o.wtDyn == 0.0 || u.dyn == w.dyn ==> o.wtDyn * ((w.dyn - u.dyn) / m.dyn) == 0.0
    ensures o.wtDyn > 0.0 ==> (o.wtDyn * ((w.dyn - u.dyn) / m.dyn) >= 0.0 <==> w.dyn >= u.dyn)
    ensures o.wtLeak == 0.0 || u.leak == w.leak ==> o.wtLeak * ((w.leak - u.leak) / m.leak) == 0.0
    ensures o.wtLeak > 0.0 ==> (o.wtLeak * ((w.leak - u.leak) / m.leak) >= 0.0 <==> w.leak >= u.leak)
    ensures o.wtArea == 0.0 || u.area == w.area ==> o.wtArea * ((w.area - u.area) / m.area) == 0.0
    ensures o.wtArea > 0.0 ==> (o.wtArea * ((w.area - u.area) / m.area) >= 0.0 <==> w.area >= u.area)
    ensures o.wtCyc == 0.0 || u.cyc == w.cyc ==> o.wtCyc * ((w.cyc - u.cyc) / m.cyc) == 0.0
    ensures o.wtCyc > 0.0 ==> (o.wtCyc * ((w.cyc - u.cyc) / m.cyc) >= 0.0 <==> w.cyc >= u.cyc)
  {
    ShareSign(o.wtDelay, u.delay, w.delay, m.delay);
    ShareSign(o.wtDyn, u.dyn, w.dyn, m.dyn);
    ShareSign(o.wtLeak, u.leak, w.leak, m.leak);
    ShareSign(o.wtArea, u.area, w.area, m.area);
    ShareSign(o.wtCyc, u.cyc, w.cyc, m.cyc);
  }

  /** When a single weight is positive that one figure decides. */
  ghost predicate DecidedByOne(u: Perf, w: Perf, o: Objective, noDearer: bool) {
    && (o.wtDelay > 0.0 && o.wtDyn == 0.0 && o.wtLeak == 0.0 && o.wtArea == 0.0 && o.wtCyc == 0.0 ==>
          (noDearer <==> u.delay <= w.delay))
    && (o.wtDyn > 0.0 && o.wtDelay == 0.0 && o.wtLeak == 0.0 && o.wtArea == 0.0 && o.wtCyc == 0.0 ==>
          (noDearer <==> u.dyn <= w.dyn))
    && (o.wtLeak > 0.0 && o.wtDelay == 0.0 && o.wtDyn == 0.0 && o.wtArea == 0.0 && o.wtCyc == 0.0 ==>
          (noDearer <==> u.leak <= w.leak))
    && (o.wtArea > 0.0 && o.wtDelay == 0.0 && o.wtDyn == 0.0 && o.wtLeak == 0.0 && o.wtCyc == 0.0 ==>
          (noDearer <==> u.area <= w.area))
    && (o.wtCyc > 0.0 && o.wtDelay == 0.0 && o.wtDyn == 0.0 && o.wtLeak == 0.0 && o.wtArea == 0.0 ==>
          (noDearer <==> u.cyc <= w.cyc))
  }

  lemma OneWeightDecides(u: Perf, w: Perf, m: Minima, o: Objective)
    requires m.Positive()
    ensures DecidedByOne(u, w, o, Surplus(u, w, m, o) >= 0.0)
  {
    AllShareSigns(u, w, m, o);
  }

  /** Organizations that differ in one figure are ordered by it when its weight is positive, and tie when it is zero. */
  ghost predicate DecidedByDifference(u: Perf, w: Perf, o: Objective, noDearer: bool) {
    && (w == u.(delay := w.delay) ==>
          (o.wtDelay > 0.0 ==> (noDearer <==> u.delay <= w.delay)) && (o.wtDelay == 0.0 ==> noDearer))
    && (w == u.(dyn := w.dyn) ==>
          (o.wtDyn > 0.0 ==> (noDearer <==> u.dyn <= w.dyn)) && (o.wtDyn == 0.0 ==> noDearer))
    && (w == u.(leak := w.leak) ==>
          (o.wtLeak > 0.0 ==> (noDearer <==> u.leak <= w.leak)) && (o.wtLeak == 0.0 ==> noDearer))
    && (w == u.(area := w.area) ==>
          (o.wtArea > 0.0 ==> (noDearer <==> u.area <= w.area)) && (o.wtArea == 0.0 ==> noDearer))
    && (w == u.(cyc := w.cyc) ==>
          (o.wtCyc > 0.0 ==> (noDearer <==> u.cyc <= w.cyc)) && (o.wtCyc == 0.0 ==> noDearer))
  }

  lemma DifferenceDecides(u: Perf, w: Perf, m: Minima, o: Objective)
    requires m.Positive()
    ensures DecidedByDifference(u, w, o, Surplus(u, w, m, o) >= 0.0)
  {
    AllShareSigns(u, w, m, o);
  }

  // ----- the selections -----

  /** c is allowed and no allowed x is cheaper, nor as cheap where ties go to x. */
  ghost predicate Preferred(c: Perf, x: Perf, m: Minima, o: Objective, tiesToX: bool)
    requires m.Positive()
  {
    && Allowed(c, m, o)
    && (Allowed(x, m, o) ==>
          && Surplus(c, x, m, o) >= 0.0
          && (tiesToX ==> Surplus(x, c, m, o) < 0.0)
          && DecidedByOne(c, x, o, true) && DecidedByDifference(c, x, o, true))
  }

  lemma CheaperIsPreferred(c: Perf, x: Perf, m: Minima, o: Objective, tiesToX: bool)
    requires m.Positive() && Within(c, m, o)
    requires Within(x, m, o) ==> WeightedCost(c, m, o) <= WeightedCost(x, m, o)
    requires Within(x, m, o) && tiesToX ==> WeightedCost(c, m, o) < WeightedCost(x, m, o)
    ensures Preferred(c, x, m, o, tiesToX)
  {
    hide Surplus;
    hide WeightedCost;
    hide Within;
    hide Allowed;
    WithinIsAllowed(c, m, o);
    WithinIsAllowed(x, m, o);
    CostIsSurplus(c, x, m, o);
    CostIsSurplus(x, c, m, o);
    if Within(x, m, o) {
      OneWeightDecides(c, x, m, o);
      DifferenceDecides(c, x, m, o);
    }
  }

  /** find_optimal_uca: the chosen one is preferred to every other that the walk looks at, the first winning ties. */
  lemma ChosenIsPreferred(perfs: seq<Perf>, m: Minima, o: Objective, r: int, i: nat)
    requires m.Positive() && IsChoice(Weighted, perfs, m, o, r) && r != -1
    requires i < |perfs| && i != Overlooked(Scores(Weighted, perfs, m, o))
    ensures 0 <= r < |perfs| && Preferred(perfs[r], perfs[i], m, o, i < r)
  {
    hide WeightedCost;
    hide Within;
    var s := Scores(Weighted, perfs, m, o);
    var v := Hide(s, Overlooked(s));
    assert v[i] == s[i] && v[r] == s[r];
    CheaperIsPreferred(perfs[r], perfs[i], m, o, i < r);
  }

  /** And when nothing is chosen, everything allowed that the walk looks at costs BIGNUM or more. */
  lemma NoneAffordable(perfs: seq<Perf>, m: Minima, o: Objective, i: nat)
    requires m.Positive() && IsChoice(Weighted, perfs, m, o, -1)
    requires i < |perfs| && i != Overlooked(Scores(Weighted, perfs, m, o)) && Allowed(perfs[i], m, o)
    ensures o.wtDelay + o.wtDyn + o.wtLeak + o.wtArea + o.wtCyc
            + Surplus(Perf(m.delay, m.dyn, m.leak, m.area, m.cyc), perfs[i], m, o) >= BIGNUM
  {
    hide WeightedCost;
    hide Within;
    hide Allowed;
    hide Surplus;
    WithinIsAllowed(perfs[i], m, o);
    CostFromMinima(perfs[i], m, o);
    var s := Scores(Weighted, perfs, m, o);
    assert Hide(s, Overlooked(s))[i] == s[i];
  }

  /** filter_tag_arr: the array kept is preferred to every other, the one nearest the back winning ties. */
  lemma KeptIsPreferred(s: seq<Cell>, m: Minima, o: Objective, r: int, i: nat)
    requires m.Positive() && IsLastBest(TagScores(s, m, o), 0, r) && r != -1 && i < |s|
    ensures 0 <= r < |s| && Preferred(s[r].arr.metrics.perf, s[i].arr.metrics.perf, m, o, i > r)
  {
    hide WeightedCost;
    hide Within;
    var t := TagScores(s, m, o);
    assert t[i] == ScoreOf(Weighted, s[i].arr.metrics.perf, m, o);
    CheaperIsPreferred(s[r].arr.metrics.perf, s[i].arr.metrics.perf, m, o, i > r);
  }

  /** find_optimal_nuca: the chosen one is preferred to every other but the second behind an infeasible first. */
  lemma NucaChosenIsPreferred(orgs: seq<NucaOrg>, m: Minima, o: Objective, r: int, res: NucaChoice, i: nat)
    requires m.Positive() && IsNucaChoice(Weighted, orgs, m, o, r, res) && r != -1 && i < |orgs|
    requires i != 1 || Allowed(orgs[0].perf, m, o)
    ensures res.Picked? && Preferred(res.org.perf, orgs[i].perf, m, o, i < r)
  {
    hide WeightedCost;
    hide Within;
    hide Allowed;
    var s := Scores(Weighted, NucaPerfs(orgs), m, o);
    WithinIsAllowed(orgs[0].perf, m, o);
    assert s[i] == ScoreOf(Weighted, orgs[i].perf, m, o) && s[0] == ScoreOf(Weighted, orgs[0].perf, m, o);
    var v := NucaSeen(Weighted, s);
    assert 0 <= r < |v|;
    assert v[i] == s[i] && v[r] == s[r];
    CheaperIsPreferred(orgs[r].perf, orgs[i].perf, m, o, i < r);
  }
}
