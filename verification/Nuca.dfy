/**
 The search over non-uniform caches: every bank count, wire type and router, each with its best grid, and the choice
 of one organization from the list, erasing infeasible entries on the way.
 */
module Nuca {
  import opened BasicCircuit
  import opened MemArray
  import opened Select
  import opened StdList

  // ----- latencies in cycles -----

  const LATCH_DELAY := 0.000000000028
  const FIXED_OVERHEAD := 0.000000000055
  const GIGA := 1000000000.0

  function UsableCycle(operFreq: real): real
    requires operFreq > 0.0
  {
    1.0 / (operFreq * GIGA) - LATCH_DELAY - FIXED_OVERHEAD
  }

  function Ceil(x: real): int {
    -((-x).Floor)
  }

  function CalcCycles(lat: real, operFreq: real): int
    requires operFreq > 0.0 && UsableCycle(operFreq) != 0.0
  {
    Ceil(lat / UsableCycle(operFreq))
  }

  lemma UsableIs(operFreq: real)
    requires operFreq > 0.0
    ensures UsableCycle(operFreq) == 1.0 / (operFreq * 1000000000.0) - 0.000000000028 - 0.000000000055
  {
  }

  /** The least number of cycles whose usable part covers the latency. */
  lemma CyclesCover(lat: real, operFreq: real, n: int)
    requires operFreq > 0.0 && UsableCycle(operFreq) > 0.0
    ensures n >= CalcCycles(lat, operFreq)
       <==> n as real * (1.0 / (operFreq * 1000000000.0) - 0.000000000028 - 0.000000000055) >= lat
  {
    UsableIs(operFreq);
    hide UsableCycle;
    hide Ceil;
    var t := UsableCycle(operFreq);
    QuotientOrder(lat, t, n as real);
    CeilOrder(lat / t, n);
  }

  lemma QuotientOrder(p: real, t: real, x: real)
    requires t > 0.0
    ensures x >= p / t <==> x * t >= p
  {
    var q := p / t;
    assert q * t == p;
    ScaleOrder(q, x, t);
  }

  lemma CeilOrder(x: real, n: int)
    ensures n >= Ceil(x) <==> n as real >= x
  {
    var f := (-x).Floor;
    assert f as real <= -x < f as real + 1.0;
    if n >= -f {
      assert n as real >= (-f) as real;
    } else {
      assert n + 1 <= -f;
      assert (n + 1) as real <= (-f) as real;
    }
  }

  // ----- organizations -----

  datatype NucaOrg = NucaOrg(perf: Perf, rows: nat, columns: nat, bankCount: nat)

  function NucaPerfs(s: seq<NucaOrg>): (r: seq<Perf>)
    ensures |r| == |s| && forall i :: 0 <= i < |s| ==> r[i] == s[i].perf
  {
    seq(|s|, i requires 0 <= i < |s| => s[i].perf)
  }

  datatype NucaChoice = Picked(org: NucaOrg) | NothingFits

  // ----- find_optimal_nuca -----

  /** The entry the weighted walk passes over: the second, exactly when the first is infeasible. */
  ghost function PassedOver(s: seq<Score>): (o: int)
    ensures o == -1 || o == 1 < |s|
  {
    if |s| > 1 && s[0].Infeasible? then 1 else -1
  }

  ghost function NucaSeen(mode: Mode, s: seq<Score>): (r: seq<Score>)
    ensures |r| == |s|
  {
    if mode == Weighted then Hide(s, PassedOver(s)) else s
  }

  ghost predicate IsNucaChoice(mode: Mode, orgs: seq<NucaOrg>, m: Minima, o: Objective, r: int, res: NucaChoice)
    requires m.Positive()
  {
    && IsFirstBest(NucaSeen(mode, Scores(mode, NucaPerfs(orgs), m, o)), r)
    && res == (if 0 <= r < |orgs| then Picked(orgs[r]) else NothingFits)
  }

  /** i entries are behind the cursor, kept are those of them still in the list; r is the best of those seen. */
  ghost predicate NucaWalk(orgs: seq<NucaOrg>, seen: seq<Score>, kept: seq<NucaOrg>, i: nat, r: int,
                           elems: seq<NucaOrg>, p: nat, minCost: real, res: NucaChoice) {
    && |seen| == |orgs| && i <= |orgs| && elems == kept + orgs[i..] && p == |kept|
    && (kept == [] ==> i == 0 || i == |orgs|) && (kept != [] ==> i > 0)
    && IsFirstBest(seen[..i], r)
    && minCost == (if r == -1 then BIGNUM else seen[r].c)
    && res == (if r == -1 then NothingFits else Picked(orgs[r]))
  }

  lemma NucaAt(orgs: seq<NucaOrg>, seen: seq<Score>, kept: seq<NucaOrg>, i: nat, r: int,
               elems: seq<NucaOrg>, p: nat, minCost: real, res: NucaChoice)
    requires NucaWalk(orgs, seen, kept, i, r, elems, p, minCost, res)
    ensures p <= |elems| && (p < |elems| ==> i < |orgs| && elems[p] == orgs[i])
    ensures p < |elems| ==> (p == 0 <==> i == 0)
    ensures p == |elems| ==>
              i == |orgs| && IsFirstBest(seen, r) && res == (if 0 <= r < |orgs| then Picked(orgs[r]) else NothingFits)
  {
    if p == |elems| {
      assert orgs[i..] == [];
      assert seen[..i] == seen;
    }
  }

  /** The entry under the cursor, scored, is kept. */
  lemma NucaKeep(orgs: seq<NucaOrg>, seen: seq<Score>, kept: seq<NucaOrg>, i: nat, r: int,
                 elems: seq<NucaOrg>, p: nat, minCost: real, res: NucaChoice)
    requires NucaWalk(orgs, seen, kept, i, r, elems, p, minCost, res) && p < |elems| && i < |orgs|
    ensures var better := seen[i].Cost? && seen[i].c < minCost;
            NucaWalk(orgs, seen, kept + [orgs[i]], i + 1, if better then i else r, elems, p + 1,
                     if better then seen[i].c else minCost, if better then Picked(orgs[i]) else res)
  {
    FirstBestExtend(seen[..i], seen[i], r);
    assert seen[..i] + [seen[i]] == seen[..i + 1];
    assert orgs[i..] == [orgs[i]] + orgs[i + 1..];
  }

  /** An infeasible entry behind a kept one is erased. */
  lemma NucaErase(orgs: seq<NucaOrg>, seen: seq<Score>, kept: seq<NucaOrg>, i: nat, r: int,
                  elems: seq<NucaOrg>, p: nat, minCost: real, res: NucaChoice)
    requires NucaWalk(orgs, seen, kept, i, r, elems, p, minCost, res) && 0 < p < |elems| && i < |orgs|
    requires seen[i].Infeasible?
    ensures NucaWalk(orgs, seen, kept, i + 1, r, elems[..p] + elems[p + 1..], p, minCost, res)
  {
    FirstBestExtend(seen[..i], seen[i], r);
    assert seen[..i] + [seen[i]] == seen[..i + 1];
    assert elems[..p] == kept && elems[p + 1..] == orgs[i + 1..];
  }

  /** An infeasible first entry is erased; the cursor then passes over the second, which is never scored. */
  lemma NucaFront(orgs: seq<NucaOrg>, seen: seq<Score>, kept: seq<NucaOrg>, r: int,
                  elems: seq<NucaOrg>, minCost: real, res: NucaChoice)
    requires NucaWalk(orgs, seen, kept, 0, r, elems, 0, minCost, res) && elems != []
    requires seen != [] && seen[0].Infeasible? && (|seen| > 1 ==> seen[1].Infeasible?)
    ensures |orgs| > 1 ==> NucaWalk(orgs, seen, [orgs[1]], 2, r, elems[1..], 1, minCost, res)
    ensures |orgs| == 1 ==> NucaWalk(orgs, seen, [], 1, r, elems[1..], 0, minCost, res)
  {
    assert kept == [] && elems == orgs;
    FirstBestExtend(seen[..0], seen[0], r);
    assert seen[..0] + [seen[0]] == seen[..1];
    if |orgs| > 1 {
      FirstBestExtend(seen[..1], seen[1], r);
      assert seen[..1] + [seen[1]] == seen[..2];
      assert elems[1..] == [orgs[1]] + orgs[2..];
    }
  }

  lemma NucaStart(orgs: seq<NucaOrg>, seen: seq<Score>)
    requires |seen| == |orgs|
    ensures NucaWalk(orgs, seen, [], 0, -1, orgs, 0, BIGNUM, NothingFits)
  {
    assert [] + orgs[0..] == orgs;
  }

  ghost function OrgScores(mode: Mode, orgs: seq<NucaOrg>, m: Minima, o: Objective): (r: seq<Score>)
    requires m.Positive()
    ensures |r| == |orgs|
  {
    Scores(mode, NucaPerfs(orgs), m, o)
  }

  lemma ScoreSeen(mode: Mode, orgs: seq<NucaOrg>, m: Minima, o: Objective, i: nat)
    requires m.Positive() && i < |orgs|
    ensures var s := OrgScores(mode, orgs, m, o);
            && s[i] == ScoreOf(mode, orgs[i].perf, m, o)
            && (i != PassedOver(s) || mode != Weighted ==> NucaSeen(mode, s)[i] == s[i])
  {
    hide ScoreOf;
  }

  lemma FrontSeen(s: seq<Score>)
    requires s != [] && s[0].Infeasible?
    ensures NucaSeen(Weighted, s)[0].Infeasible? && (|s| > 1 ==> NucaSeen(Weighted, s)[1].Infeasible?)
    ensures PassedOver(s) < 2
  {
  }

  /** The weighted walk: feasible entries stay, infeasible ones are erased. */
  method SelectNuca(minval: Minima, o: Objective, n: List<NucaOrg>) returns (res: NucaChoice, ghost r: int)
    requires minval.Positive()
    modifies n
    ensures IsNucaChoice(Weighted, old(n.elems), minval, o, r, res)
  {
    hide NucaWalk;
    hide WeightedCost;
    hide Within;
    hide IsFirstBest;
    hide Scores;
    hide OrgScores;
    hide NucaSeen;
    hide PassedOver;
    ghost var orgs := n.elems;
    ghost var s := OrgScores(Weighted, orgs, minval, o);
    ghost var seen := NucaSeen(Weighted, s);
    ghost var kept: seq<NucaOrg>, i: nat := [], 0;
    r := -1;
    var minCost := BIGNUM;
    res := NothingFits;
    var niter := n.Begin();
    NucaStart(orgs, seen);
    while niter != n.End()
      invariant 0 <= niter <= |n.elems| && NucaWalk(orgs, seen, kept, i, r, n.elems, niter, minCost, res)
      invariant i == 0 || (i == 1 && PassedOver(s) == -1) || i > 1
      decreases |n.elems| - niter
    {
      NucaAt(orgs, seen, kept, i, r, n.elems, niter, minCost, res);
      PassedOverFacts(s);
      ScoreSeen(Weighted, orgs, minval, o, i);
      ghost var elems := n.elems;
      var org := n.At(niter);
      if Within(org.perf, minval, o) {
        var cost := WeightedCost(org.perf, minval, o);
        NucaKeep(orgs, seen, kept, i, r, elems, niter, minCost, res);
        if minCost > cost {
          minCost, res, r := cost, Picked(org), i;
        }
        kept, i := kept + [org], i + 1;
      } else {
        if niter > 0 {
          NucaErase(orgs, seen, kept, i, r, elems, niter, minCost, res);
          i := i + 1;
        } else {
          FrontSeen(s);
          NucaFront(orgs, seen, kept, r, elems, minCost, res);
          assert elems[..0] + elems[1..] == elems[1..];
          kept, i := if |orgs| > 1 then [orgs[1]] else [], if |orgs| > 1 then 2 else 1;
        }
        niter := n.Erase(niter);
        if niter != n.Begin() {
          niter := n.Prev(niter);
        }
      }
      niter := n.Next(niter);
    }
    NucaAt(orgs, seen, kept, i, r, n.elems, niter, minCost, res);
    NucaDone(Weighted, orgs, minval, o, r, res);
  }

  lemma PassedOverFacts(s: seq<Score>)
    ensures |s| <= 1 ==> PassedOver(s) == -1
    ensures s != [] && s[0].Cost? ==> PassedOver(s) == -1
    ensures PassedOver(s) == -1 || PassedOver(s) == 1
  {
  }

  lemma NucaDone(mode: Mode, orgs: seq<NucaOrg>, m: Minima, o: Objective, r: int, res: NucaChoice)
    requires m.Positive() && IsFirstBest(NucaSeen(mode, OrgScores(mode, orgs, m, o)), r)
    requires res == (if 0 <= r < |orgs| then Picked(orgs[r]) else NothingFits)
    ensures IsNucaChoice(mode, orgs, m, o, r, res)
  {
  }

  /** In the product modes nothing is passed over: the first global minimizer of the product is returned. */
  lemma NucaProductOptimal(mode: Mode, orgs: seq<NucaOrg>, m: Minima, o: Objective, r: int, res: NucaChoice)
    requires mode != Weighted && m.Positive() && IsNucaChoice(mode, orgs, m, o, r, res) && res.Picked?
    ensures res.org in orgs
    ensures forall x :: x in orgs ==> Product(mode, res.org.perf) <= Product(mode, x.perf)
    ensures forall i :: 0 <= i < |orgs| && i < r ==> Product(mode, res.org.perf) < Product(mode, orgs[i].perf)
  {
    hide Product;
    var perfs := NucaPerfs(orgs);
    ProductOptimal(mode, perfs, m, o, r);
    forall x | x in orgs ensures Product(mode, res.org.perf) <= Product(mode, x.perf) {
      var i :| 0 <= i < |orgs| && orgs[i] == x;
      assert perfs[i] == x.perf;
    }
  }

  /** The product modes only walk. */
  method SelectNucaByProduct(mode: Mode, minval: Minima, o: Objective, n: List<NucaOrg>)
    returns (res: NucaChoice, ghost r: int)
    requires mode != Weighted && minval.Positive()
    ensures IsNucaChoice(mode, n.elems, minval, o, r, res)
    ensures res.Picked? ==>
              res.org in n.elems && forall x :: x in n.elems ==> Product(mode, res.org.perf) <= Product(mode, x.perf)
  {
    hide Product;
    hide NucaWalk;
    hide EdCost;
    hide Ed2Cost;
    hide IsFirstBest;
    hide OrgScores;
    hide NucaSeen;
    hide PassedOver;
    ghost var orgs := n.elems;
    ghost var seen := NucaSeen(mode, OrgScores(mode, orgs, minval, o));
    ghost var kept: seq<NucaOrg>, i: nat := [], 0;
    r := -1;
    var minCost := BIGNUM;
    res := NothingFits;
    var niter := n.Begin();
    NucaStart(orgs, seen);
    while niter != n.End()
      invariant 0 <= niter <= |n.elems| && NucaWalk(orgs, seen, kept, i, r, n.elems, niter, minCost, res)
      decreases |n.elems| - niter
    {
      NucaAt(orgs, seen, kept, i, r, n.elems, niter, minCost, res);
      ScoreSeen(mode, orgs, minval, o, i);
      var org := n.At(niter);
      var cost := ProductCost(mode, org.perf, minval);
      NucaKeep(orgs, seen, kept, i, r, n.elems, niter, minCost, res);
      if minCost > cost {
        minCost, res, r := cost, Picked(org), i;
      }
      kept, i := kept + [org], i + 1;
      niter := n.Next(niter);
    }
    NucaAt(orgs, seen, kept, i, r, n.elems, niter, minCost, res);
    NucaDone(mode, orgs, minval, o, r, res);
    if res.Picked? {
      NucaProductOptimal(mode, orgs, minval, o, r, res);
    }
  }

  /** find_optimal_nuca. */
  method FindOptimalNuca(mode: Mode, minval: Minima, o: Objective, n: List<NucaOrg>)
    returns (res: NucaChoice, ghost r: int)
    requires minval.Positive()
    modifies n
    ensures IsNucaChoice(mode, old(n.elems), minval, o, r, res)
  {
    if mode == Weighted {
      res, r := SelectNuca(minval, o, n);
    } else {
      res, r := SelectNucaByProduct(mode, minval, o, n);
    }
  }

  /** The true first optimum is found unless it is the second entry behind an infeasible first. */
  lemma NucaExactOptimality(s: seq<Score>, best: int, found: int)
    requires IsFirstBest(s, best) && IsFirstBest(NucaSeen(Weighted, s), found)
    ensures found == best <==> !(best == 1 && s[0].Infeasible?)
  {
    var o := PassedOver(s);
    if o != -1 && best != o {
      var v := Hide(s, o);
      if best != -1 {
        assert v[best] == s[best];
      }
      assert IsFirstBest(v, best);
      FirstBestUnique(v, best, found);
    }
  }

  /** Of the three organizations overlooked by the cache search too, the walk picks the third; the second costs less. */
  lemma SecondPassedOver()
    ensures var m := MinOver(ThreePerfs(), NO_MINIMA);
            && m.Positive() && IsFirstBest(Scores(Weighted, ThreePerfs(), m, SHIPPED), 1)
            && IsFirstBest(NucaSeen(Weighted, Scores(Weighted, ThreePerfs(), m, SHIPPED)), 2)
  {
    OverlookedWitness();
  }
}
