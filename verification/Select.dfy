/**
 The selections: the weighted and product searches that pick one organization while erasing others from the list
 they walk, and the two filters over memory arrays.
 */
module Select {
  import opened MemArray
  import opened StableMerge
  import opened StdList

  /** How one organization fares: outside the allowed deviations, or inside at a cost. */
  datatype Score = Infeasible | Cost(c: real)

  /** r is the first least-cost entry below BIGNUM; -1 when there is none. */
  ghost predicate IsFirstBest(s: seq<Score>, r: int) {
    if r == -1 then
      forall i :: 0 <= i < |s| && s[i].Cost? ==> s[i].c >= BIGNUM
    else
      && 0 <= r < |s| && s[r].Cost? && s[r].c < BIGNUM
      && (forall i :: 0 <= i < |s| && s[i].Cost? ==> s[r].c <= s[i].c)
      && (forall i :: 0 <= i < r && s[i].Cost? ==> s[r].c < s[i].c)
  }

  lemma FirstBestUnique(s: seq<Score>, q: int, r: int)
    requires IsFirstBest(s, q) && IsFirstBest(s, r)
    ensures q == r
  {
  }

  lemma FirstBestExtend(s: seq<Score>, x: Score, r: int)
    requires IsFirstBest(s, r)
    ensures IsFirstBest(s + [x],
              if x.Cost? && x.c < (if r == -1 then BIGNUM else s[r].c) then |s| else r)
  {
    var t := s + [x];
    assert forall i :: 0 <= i < |s| ==> t[i] == s[i];
    assert t[|s|] == x;
  }

  /** The first best once x is appended. */
  ghost function BestAfter(s: seq<Score>, x: Score, r: int): (q: int)
    requires IsFirstBest(s, r)
    ensures IsFirstBest(s + [x], q)
  {
    FirstBestExtend(s, x, r);
    if x.Cost? && x.c < (if r == -1 then BIGNUM else s[r].c) then |s| else r
  }

  ghost function FirstBest(s: seq<Score>): (r: int)
    ensures IsFirstBest(s, r)
  {
    if s == [] then -1
    else
      var front, x := s[..|s| - 1], s[|s| - 1];
      assert s == front + [x];
      BestAfter(front, x, FirstBest(front))
  }

  // ----- what the erasing walk overlooks -----

  /** Length of the longest prefix of feasible entries each strictly cheaper than all before (and than bound). */
  ghost function PrefixLen(s: seq<Score>, bound: real): (k: nat)
    ensures k <= |s|
  {
    if s == [] || s[0].Infeasible? || s[0].c >= bound then 0 else 1 + PrefixLen(s[1..], s[0].c)
  }

  /** The index the weighted cache search never looks at, or -1. */
  ghost function Overlooked(s: seq<Score>): (o: int)
    ensures -1 <= o < |s| || o == -1
  {
    var k := PrefixLen(s, BIGNUM);
    if k + 1 < |s| && s[k].Infeasible? then k + 1 else -1
  }

  ghost function Hide(s: seq<Score>, i: int): (r: seq<Score>)
    requires -1 <= i < |s|
    ensures |r| == |s|
  {
    if i == -1 then s else s[i := Infeasible]
  }

  /** The first entry after the prefix is infeasible or not cheaper than the last of the prefix. */
  lemma {:induction false} PrefixStops(s: seq<Score>, bound: real, k: nat)
    requires k == PrefixLen(s, bound)
    ensures forall i :: 0 <= i < k ==> s[i].Cost? && s[i].c < bound
    ensures forall i, j :: 0 <= i < j < k ==> s[j].c < s[i].c
    ensures k < |s| && s[k].Cost? ==> s[k].c >= (if k == 0 then bound else s[k - 1].c)
  {
    if k > 0 {
      PrefixStops(s[1..], s[0].c, k - 1);
      forall i | 0 <= i < k ensures s[i].Cost? && s[i].c < bound {
        if i > 0 { assert s[i] == s[1..][i - 1]; }
      }
      forall i, j | 0 <= i < j < k ensures s[j].c < s[i].c {
        assert s[j] == s[1..][j - 1];
        if i > 0 { assert s[i] == s[1..][i - 1]; }
      }
    }
  }

  /** Cost of the entry just before i, as the bound the entry at i has to beat. */
  ghost function LastCost(s: seq<Score>, i: nat): real
    requires i <= |s|
  {
    if i == 0 || s[i - 1].Infeasible? then BIGNUM else s[i - 1].c
  }

  lemma PrefixEntry(s: seq<Score>, i: nat)
    requires i < |s|
    ensures i < PrefixLen(s, BIGNUM) ==> s[i].Cost? && s[i].c < LastCost(s, i)
    ensures i == PrefixLen(s, BIGNUM) && s[i].Cost? ==> s[i].c >= LastCost(s, i)
  {
    PrefixStops(s, BIGNUM, PrefixLen(s, BIGNUM));
  }

  /**
   The overlooked entry matters exactly when it is the answer: the walk finds the true first optimum if and only if
   the true first optimum is not the entry after an infeasible one that ends the improving prefix.
   */
  lemma ExactOptimality(s: seq<Score>, best: int, found: int)
    requires IsFirstBest(s, best) && IsFirstBest(Hide(s, Overlooked(s)), found)
    ensures found == best <==> best == -1 || best != Overlooked(s)
  {
    var o := Overlooked(s);
    if o != -1 && best != o {
      var v := Hide(s, o);
      if best == -1 {
        assert IsFirstBest(v, -1);
      } else {
        assert v[best] == s[best];
        assert IsFirstBest(v, best);
      }
      FirstBestUnique(v, best, found);
    }
  }

  /** In particular nothing is lost when the first entry outside the improving prefix is feasible, or is the last. */
  lemma NothingOverlooked(s: seq<Score>, found: int)
    requires IsFirstBest(Hide(s, Overlooked(s)), found)
    requires var k := PrefixLen(s, BIGNUM); k + 1 >= |s| || s[k].Cost?
    ensures IsFirstBest(s, found)
  {
  }

  // ----- organizations -----

  datatype TagPtr = NoTag | Tag(cell: Cell)

  datatype Org = Org(tag: TagPtr, data: Cell, perf: Perf)

  datatype Mode = Ed | Ed2 | Weighted

  function ScoreOf(mode: Mode, p: Perf, m: Minima, o: Objective): Score
    requires m.Positive()
  {
    match mode
    case Ed => Cost(EdCost(p, m))
    case Ed2 => Cost(Ed2Cost(p, m))
    case Weighted => if Within(p, m, o) then Cost(WeightedCost(p, m, o)) else Infeasible
  }

  ghost function Scores(mode: Mode, s: seq<Perf>, m: Minima, o: Objective): (r: seq<Score>)
    requires m.Positive()
    ensures |r| == |s| && forall i :: 0 <= i < |s| ==> r[i] == ScoreOf(mode, s[i], m, o)
  {
    seq(|s|, i requires 0 <= i < |s| => ScoreOf(mode, s[i], m, o))
  }

  function OrgPerfs(s: seq<Org>): (r: seq<Perf>)
    ensures |r| == |s| && forall i :: 0 <= i < |s| ==> r[i] == s[i].perf
  {
    seq(|s|, i requires 0 <= i < |s| => s[i].perf)
  }

  datatype Choice = Chosen(org: Org) | EmptyList | NoneMeetsCriteria

  /** What the walk can see: everything in the product modes, all but the overlooked entry in the weighted mode. */
  ghost function Seen(mode: Mode, s: seq<Score>): (r: seq<Score>)
    ensures |r| == |s|
  {
    if mode == Weighted then Hide(s, Overlooked(s)) else s
  }

  /** The index the selection settles on, -1 for none. */
  ghost predicate IsChoice(mode: Mode, perfs: seq<Perf>, m: Minima, o: Objective, i: int)
    requires m.Positive()
  {
    IsFirstBest(Seen(mode, Scores(mode, perfs, m, o)), i)
  }

  ghost function ChoiceAt(orgs: seq<Org>, i: int): Choice {
    if orgs == [] then EmptyList else if 0 <= i < |orgs| then Chosen(orgs[i]) else NoneMeetsCriteria
  }

  // ----- something can be overlooked -----

  /** The weights and deviations of the configuration file that comes with the program: no delay to spare. */
  const SHIPPED := Objective(0.0, 100000.0, 100000.0, 100000.0, 1000000.0, 0.0, 100.0, 100.0, 0.0, 100.0)

  /** Three organizations: one too slow, one that is best, and one that takes twice the energy. */
  function ThreePerfs(): seq<Perf> {
    [Perf(2.0, 1.0, 1.0, 1.0, 1.0), Perf(1.0, 1.0, 1.0, 1.0, 1.0), Perf(1.0, 2.0, 1.0, 1.0, 1.0)]
  }

  lemma ThreeMinima()
    ensures MinOver(ThreePerfs(), NO_MINIMA) == Minima(1.0, 1.0, 1.0, 1.0, 1.0)
  {
    var s := ThreePerfs();
    assert s[1..] == [s[1], s[2]] && s[1..][1..] == [s[2]] && s[1..][1..][1..] == [];
    var m := Minima(2.0, 1.0, 1.0, 1.0, 1.0);
    assert MinOver(s, NO_MINIMA) == MinOver(s[1..], m);
    assert MinOver(s[1..], m) == MinOver([s[2]], m.Update(s[1]));
    assert MinOver([s[2]], m.Update(s[1])) == MinOver([], m.Update(s[1]).Update(s[2]));
  }

  /** Under the shipped weights the walk settles on the third, though the second is feasible and costs less. */
  lemma OverlookedWitness()
    ensures var m := MinOver(ThreePerfs(), NO_MINIMA);
            && m.Positive() && IsFirstBest(Scores(Weighted, ThreePerfs(), m, SHIPPED), 1)
            && IsChoice(Weighted, ThreePerfs(), m, SHIPPED, 2)
  {
    hide IsFirstBest;
    hide Within;
    hide WeightedCost;
    ThreeMinima();
    ThreeFigures();
    var s := Scores(Weighted, ThreePerfs(), MinOver(ThreePerfs(), NO_MINIMA), SHIPPED);
    assert s == [Infeasible, Cost(300.0), Cost(400.0)];
    ThreeScores();
  }

  lemma ThreeFigures()
    ensures var s, m := ThreePerfs(), Minima(1.0, 1.0, 1.0, 1.0, 1.0);
            && !Within(s[0], m, SHIPPED) && Within(s[1], m, SHIPPED) && Within(s[2], m, SHIPPED)
            && WeightedCost(s[1], m, SHIPPED) == 300.0 && WeightedCost(s[2], m, SHIPPED) == 400.0
  {
  }

  lemma ThreeScores()
    ensures IsFirstBest([Infeasible, Cost(300.0), Cost(400.0)], 1)
    ensures var s := [Infeasible, Cost(300.0), Cost(400.0)]; IsFirstBest(Hide(s, Overlooked(s)), 2)
  {
    var s := [Infeasible, Cost(300.0), Cost(400.0)];
    assert PrefixLen(s, BIGNUM) == 0;
    assert Hide(s, Overlooked(s)) == [Infeasible, Infeasible, Cost(400.0)];
  }

  /**
   Where the weighted walk stands.  i entries of the original list are behind it; kept are those still in the list.
   While nothing has been kept, everything behind was a new best and was erased, so the cursor is at the front.
   */
  ghost predicate Walking(orgs: seq<Org>, s: seq<Score>, kept: seq<Org>, i: nat, elems: seq<Org>, p: nat) {
    && |s| == |orgs| && i <= |orgs| && elems == kept + orgs[i..] && p == |kept|
    && (kept == [] ==> i <= PrefixLen(s, BIGNUM) || i == |orgs|)
    && (kept != [] ==> i > PrefixLen(s, BIGNUM))
  }

  /** Best so far among what has been seen. */
  ghost predicate BestSoFar(orgs: seq<Org>, seen: seq<Score>, i: nat, r: int, minCost: real, res: Choice)
    requires |seen| == |orgs| && i <= |orgs|
  {
    && IsFirstBest(seen[..i], r)
    && minCost == (if r == -1 then BIGNUM else seen[r].c)
    && res == (if r == -1 then NoneMeetsCriteria else Chosen(orgs[r]))
  }

  lemma BestStep(orgs: seq<Org>, seen: seq<Score>, i: nat, r: int, minCost: real, res: Choice)
    requires |seen| == |orgs| && i < |orgs| && BestSoFar(orgs, seen, i, r, minCost, res)
    ensures if seen[i].Cost? && seen[i].c < minCost then BestSoFar(orgs, seen, i + 1, i, seen[i].c, Chosen(orgs[i]))
            else BestSoFar(orgs, seen, i + 1, r, minCost, res)
  {
    FirstBestExtend(seen[..i], seen[i], r);
    assert seen[..i] + [seen[i]] == seen[..i + 1];
  }

  /** While the front is still being erased, the least cost is that of the last entry behind. */
  lemma PrefixBest(orgs: seq<Org>, s: seq<Score>, i: nat, r: int, minCost: real, res: Choice)
    requires |s| == |orgs| && i <= PrefixLen(s, BIGNUM) && i <= |orgs|
    requires BestSoFar(orgs, Hide(s, Overlooked(s)), i, r, minCost, res)
    ensures minCost == LastCost(s, i)
  {
    PrefixStops(s, BIGNUM, PrefixLen(s, BIGNUM));
    var seen := Hide(s, Overlooked(s))[..i];
    if i > 0 {
      assert seen[i - 1] == s[i - 1];
    }
  }

  /** Erasing the entry under the cursor, when something was kept or the entry improves the prefix. */
  lemma WalkErase(orgs: seq<Org>, s: seq<Score>, kept: seq<Org>, i: nat, elems: seq<Org>, p: nat)
    requires Walking(orgs, s, kept, i, elems, p) && p < |elems|
    requires kept == [] ==> s[i].Cost? && s[i].c < LastCost(s, i)
    ensures Walking(orgs, s, kept, i + 1, elems[..p] + elems[p + 1..], p)
  {
    PrefixEntry(s, i);
    assert elems[..p] == kept && elems[p + 1..] == orgs[i + 1..];
  }

  /** Stepping over a feasible entry that is no cheaper. */
  lemma WalkKeep(orgs: seq<Org>, s: seq<Score>, kept: seq<Org>, i: nat, elems: seq<Org>, p: nat)
    requires Walking(orgs, s, kept, i, elems, p) && p < |elems|
    requires kept == [] ==> s[i].Cost? && s[i].c >= LastCost(s, i)
    ensures Walking(orgs, s, kept + [elems[p]], i + 1, elems, p + 1)
  {
    PrefixEntry(s, i);
    assert orgs[i..] == [elems[p]] + orgs[i + 1..];
  }

  /** Erasing an infeasible entry at the front: the cursor then passes over the next entry, which stays unseen. */
  lemma WalkFront(orgs: seq<Org>, s: seq<Score>, kept: seq<Org>, i: nat, elems: seq<Org>)
    requires Walking(orgs, s, kept, i, elems, 0) && elems != [] && s[i].Infeasible?
    ensures i + 1 < |orgs| ==>
              Overlooked(s) == i + 1 && Walking(orgs, s, [orgs[i + 1]], i + 2, elems[1..], 1)
    ensures i + 1 == |orgs| ==> Walking(orgs, s, [], i + 1, elems[1..], 0)
  {
    PrefixEntry(s, i);
    assert kept == [];
    assert elems[1..] == orgs[i + 1..];
    if i + 1 < |orgs| {
      assert orgs[i + 1..] == [orgs[i + 1]] + orgs[i + 2..];
    }
  }

  lemma AtCursor(orgs: seq<Org>, s: seq<Score>, kept: seq<Org>, i: nat, elems: seq<Org>, p: nat)
    requires Walking(orgs, s, kept, i, elems, p)
    ensures p <= |elems| && (p == |elems| <==> i == |orgs|)
    ensures p < |elems| ==> elems[p] == orgs[i]
    ensures p == 0 <==> kept == []
    ensures kept == [] && i < |orgs| ==> i <= PrefixLen(s, BIGNUM)
    ensures i < |orgs| && Overlooked(s) == i ==> s[i].Infeasible? || kept != []
  {
  }

  /** Away from the front nothing is hidden. */
  lemma SeenAt(orgs: seq<Org>, s: seq<Score>, kept: seq<Org>, i: nat, elems: seq<Org>, p: nat)
    requires Walking(orgs, s, kept, i, elems, p) && i < |orgs|
    requires kept != [] ==> i != Overlooked(s)
    ensures Hide(s, Overlooked(s))[i] == s[i]
  {
  }

  /** The loop invariant of the weighted walk. */
  ghost predicate At(orgs: seq<Org>, s: seq<Score>, kept: seq<Org>, i: nat, r: int,
                     elems: seq<Org>, p: nat, minCost: real, res: Choice) {
    && |s| == |orgs| && i <= |orgs| && Walking(orgs, s, kept, i, elems, p)
    && BestSoFar(orgs, Hide(s, Overlooked(s)), i, r, minCost, res)
    && (kept != [] ==> Overlooked(s) < i)
  }

  /** What the cursor sees: the score of entry i, to be compared with the least cost so far. */
  lemma AtFacts(orgs: seq<Org>, s: seq<Score>, kept: seq<Org>, i: nat, r: int,
                elems: seq<Org>, p: nat, minCost: real, res: Choice)
    requires At(orgs, s, kept, i, r, elems, p, minCost, res)
    ensures p <= |elems| && |s| == |orgs| && (p < |elems| ==> i < |orgs| && elems[p] == orgs[i])
    ensures p == |elems| ==> i == |orgs|
    ensures p == 0 <==> kept == []
    ensures p < |elems| && kept == [] ==> minCost == LastCost(s, i)
    ensures p < |elems| ==> Hide(s, Overlooked(s))[i] == s[i]
  {
    AtCursor(orgs, s, kept, i, elems, p);
    if p < |elems| {
      SeenAt(orgs, s, kept, i, elems, p);
      if kept == [] {
        PrefixBest(orgs, s, i, r, minCost, res);
      }
    }
  }

  lemma AtBest(orgs: seq<Org>, s: seq<Score>, kept: seq<Org>, i: nat, r: int,
               elems: seq<Org>, p: nat, minCost: real, res: Choice)
    requires At(orgs, s, kept, i, r, elems, p, minCost, res) && p < |elems| && i < |s|
    requires s[i].Cost? && s[i].c < minCost
    ensures At(orgs, s, kept, i + 1, i, elems[..p] + elems[p + 1..], p, s[i].c, Chosen(elems[p]))
  {
    AtFacts(orgs, s, kept, i, r, elems, p, minCost, res);
    WalkErase(orgs, s, kept, i, elems, p);
    BestStep(orgs, Hide(s, Overlooked(s)), i, r, minCost, res);
  }

  lemma AtKeep(orgs: seq<Org>, s: seq<Score>, kept: seq<Org>, i: nat, r: int,
               elems: seq<Org>, p: nat, minCost: real, res: Choice)
    requires At(orgs, s, kept, i, r, elems, p, minCost, res) && p < |elems| && i < |s|
    requires s[i].Cost? && s[i].c >= minCost
    ensures At(orgs, s, kept + [elems[p]], i + 1, r, elems, p + 1, minCost, res)
  {
    AtFacts(orgs, s, kept, i, r, elems, p, minCost, res);
    WalkKeep(orgs, s, kept, i, elems, p);
    BestStep(orgs, Hide(s, Overlooked(s)), i, r, minCost, res);
    if kept == [] {
      PrefixEntry(s, i);
    }
  }

  lemma AtErase(orgs: seq<Org>, s: seq<Score>, kept: seq<Org>, i: nat, r: int,
                elems: seq<Org>, p: nat, minCost: real, res: Choice)
    requires At(orgs, s, kept, i, r, elems, p, minCost, res) && 0 < p < |elems| && i < |s| && s[i].Infeasible?
    ensures At(orgs, s, kept, i + 1, r, elems[..p] + elems[p + 1..], p, minCost, res)
  {
    AtFacts(orgs, s, kept, i, r, elems, p, minCost, res);
    WalkErase(orgs, s, kept, i, elems, p);
    BestStep(orgs, Hide(s, Overlooked(s)), i, r, minCost, res);
  }

  lemma AtFront(orgs: seq<Org>, s: seq<Score>, kept: seq<Org>, i: nat, r: int,
                elems: seq<Org>, minCost: real, res: Choice)
    requires At(orgs, s, kept, i, r, elems, 0, minCost, res) && elems != [] && i < |s| && s[i].Infeasible?
    ensures |elems| > 1 ==> i + 1 < |orgs| && At(orgs, s, [orgs[i + 1]], i + 2, r, elems[1..], 1, minCost, res)
    ensures |elems| == 1 ==> At(orgs, s, [], i + 1, r, elems[1..], 0, minCost, res)
  {
    AtFacts(orgs, s, kept, i, r, elems, 0, minCost, res);
    WalkFront(orgs, s, kept, i, elems);
    var seen := Hide(s, Overlooked(s));
    BestStep(orgs, seen, i, r, minCost, res);
    if i + 1 < |orgs| {
      BestStep(orgs, seen, i + 1, r, minCost, res);
    }
  }

  /** The weighted walk: a new best and an infeasible entry are both erased, with different cursor rules. */
  method SelectWeighted(minval: Minima, o: Objective, ulist: List<Org>) returns (res: Choice, ghost r: int)
    requires minval.Positive() && ulist.elems != []
    modifies ulist
    ensures IsChoice(Weighted, OrgPerfs(old(ulist.elems)), minval, o, r) && res == ChoiceAt(old(ulist.elems), r)
  {
    hide At;
    hide Within;
    hide WeightedCost;
    hide PrefixLen;
    hide Overlooked;
    ghost var orgs := ulist.elems;
    ghost var s := Scores(Weighted, OrgPerfs(orgs), minval, o);
    ghost var kept: seq<Org>, i: nat := [], 0;
    r := -1;
    var minCost := BIGNUM;
    res := NoneMeetsCriteria;
    var niter := ulist.Begin();
    WalkStart(orgs, s);
    while niter != ulist.End()
      invariant 0 <= niter <= |ulist.elems| && At(orgs, s, kept, i, r, ulist.elems, niter, minCost, res)
      decreases |ulist.elems| - niter
    {
      ghost var elems := ulist.elems;
      AtFacts(orgs, s, kept, i, r, elems, niter, minCost, res);
      var org := ulist.At(niter);
      if Within(org.perf, minval, o) {
        var cost := WeightedCost(org.perf, minval, o);
        if minCost > cost {
          AtBest(orgs, s, kept, i, r, elems, niter, minCost, res);
          minCost := cost;
          res := Chosen(org);
          niter := ulist.Erase(niter);
          niter := ulist.Prev(niter);
          i, r := i + 1, i;
        } else {
          AtKeep(orgs, s, kept, i, r, elems, niter, minCost, res);
          kept, i := kept + [org], i + 1;
        }
      } else {
        if niter > 0 {
          AtErase(orgs, s, kept, i, r, elems, niter, minCost, res);
          i := i + 1;
        } else {
          AtFront(orgs, s, kept, i, r, elems, minCost, res);
          if |elems| > 1 {
            kept, i := [orgs[i + 1]], i + 2;
          } else {
            kept, i := [], i + 1;
          }
          assert elems[..0] + elems[1..] == elems[1..];
        }
        niter := ulist.Erase(niter);
        if niter != ulist.Begin() {
          niter := ulist.Prev(niter);
        }
      }
      niter := ulist.Next(niter);
    }
    WalkEnd(orgs, s, kept, i, r, ulist.elems, niter, minCost, res);
  }

  lemma WalkStart(orgs: seq<Org>, s: seq<Score>)
    requires |s| == |orgs|
    ensures At(orgs, s, [], 0, -1, orgs, 0, BIGNUM, NoneMeetsCriteria)
    ensures BestSoFar(orgs, s, 0, -1, BIGNUM, NoneMeetsCriteria)
  {
    assert [] + orgs[0..] == orgs;
  }

  lemma WalkEnd(orgs: seq<Org>, s: seq<Score>, kept: seq<Org>, i: nat, r: int,
                elems: seq<Org>, p: nat, minCost: real, res: Choice)
    requires At(orgs, s, kept, i, r, elems, p, minCost, res) && p == |elems|
    ensures |s| == |orgs| && IsFirstBest(Hide(s, Overlooked(s)), r)
    ensures res == if 0 <= r < |orgs| then Chosen(orgs[r]) else NoneMeetsCriteria
  {
    AtFacts(orgs, s, kept, i, r, elems, p, minCost, res);
    BestAtEnd(orgs, Hide(s, Overlooked(s)), r, minCost, res);
  }

  lemma BestAtEnd(orgs: seq<Org>, seen: seq<Score>, r: int, minCost: real, res: Choice)
    requires |seen| == |orgs| && BestSoFar(orgs, seen, |orgs|, r, minCost, res)
    ensures IsFirstBest(seen, r)
    ensures res == if 0 <= r < |orgs| then Chosen(orgs[r]) else NoneMeetsCriteria
  {
    assert seen[..|orgs|] == seen;
  }

  function Product(mode: Mode, p: Perf): real {
    if mode == Ed then EdProduct(p.delay, p.dyn) else Ed2Product(p.delay, p.dyn)
  }

  /** The product modes return the first global minimizer of the product itself: the normalizers cancel. */
  lemma ProductOptimal(mode: Mode, perfs: seq<Perf>, m: Minima, o: Objective, r: int)
    requires mode != Weighted && m.Positive() && IsChoice(mode, perfs, m, o, r) && r != -1
    ensures 0 <= r < |perfs|
    ensures forall i :: 0 <= i < |perfs| ==> Product(mode, perfs[r]) <= Product(mode, perfs[i])
    ensures forall i :: 0 <= i < r ==> Product(mode, perfs[r]) < Product(mode, perfs[i])
  {
    hide EdCost;
    hide Ed2Cost;
    hide EdProduct;
    hide Ed2Product;
    var s := Scores(mode, perfs, m, o);
    forall i | 0 <= i < |perfs|
      ensures Product(mode, perfs[r]) <= Product(mode, perfs[i])
      ensures i < r ==> Product(mode, perfs[r]) < Product(mode, perfs[i])
    {
      assert s[i].Cost? && s[r].Cost?;
      EdOrder(perfs[i], perfs[r], m);
      EdOrder(perfs[r], perfs[i], m);
      Ed2Order(perfs[i], perfs[r], m);
      Ed2Order(perfs[r], perfs[i], m);
    }
  }

  lemma ProductChoice(mode: Mode, orgs: seq<Org>, m: Minima, o: Objective, r: int)
    requires mode != Weighted && m.Positive() && IsChoice(mode, OrgPerfs(orgs), m, o, r) && 0 <= r < |orgs|
    ensures forall x :: x in orgs ==> Product(mode, orgs[r].perf) <= Product(mode, x.perf)
  {
    hide Product;
    hide IsChoice;
    var perfs := OrgPerfs(orgs);
    ProductOptimal(mode, perfs, m, o, r);
    forall x | x in orgs ensures Product(mode, orgs[r].perf) <= Product(mode, x.perf) {
      var i :| 0 <= i < |orgs| && orgs[i] == x;
      assert perfs[i] == x.perf && perfs[r] == orgs[r].perf;
    }
  }

  /** Energy times delay, or times delay squared, each in terms of its minimum. */
  method ProductCost(mode: Mode, p: Perf, m: Minima) returns (cost: real)
    requires mode != Weighted && m.Positive()
    ensures cost == if mode == Ed then EdCost(p, m) else Ed2Cost(p, m)
  {
    var delay, dyn := p.delay / m.delay, p.dyn / m.dyn;
    cost := delay * dyn;
    if mode == Ed2 {
      cost := delay * cost;
    }
  }

  /** The product modes walk the list without erasing. */
  method SelectByProduct(mode: Mode, minval: Minima, o: Objective, ulist: List<Org>) returns (res: Choice, ghost r: int)
    requires mode != Weighted && minval.Positive() && ulist.elems != []
    ensures IsChoice(mode, OrgPerfs(ulist.elems), minval, o, r) && res == ChoiceAt(ulist.elems, r)
    ensures res.Chosen? ==>
              res.org in ulist.elems && forall x :: x in ulist.elems ==>
                                                  Product(mode, res.org.perf) <= Product(mode, x.perf)
  {
    hide Product;
    hide BestSoFar;
    hide EdCost;
    hide Ed2Cost;
    ghost var orgs := ulist.elems;
    ghost var seen := Scores(mode, OrgPerfs(orgs), minval, o);
    r := -1;
    var minCost := BIGNUM;
    res := NoneMeetsCriteria;
    var niter := ulist.Begin();
    WalkStart(orgs, seen);
    while niter != ulist.End()
      invariant niter <= |orgs| && BestSoFar(orgs, seen, niter, r, minCost, res)
      decreases |ulist.elems| - niter
    {
      var org := ulist.At(niter);
      BestStep(orgs, seen, niter, r, minCost, res);
      var cost := ProductCost(mode, org.perf, minval);
      if minCost > cost {
        minCost := cost;
        res := Chosen(org);
        r := niter;
      }
      niter := ulist.Next(niter);
    }
    BestAtEnd(orgs, seen, r, minCost, res);
    if 0 <= r < |orgs| {
      ProductChoice(mode, orgs, minval, o, r);
    }
  }

  /** find_optimal_uca. */
  method FindOptimalUca(mode: Mode, minval: Minima, o: Objective, ulist: List<Org>) returns (res: Choice, ghost r: int)
    requires minval.Positive()
    modifies ulist
    ensures IsChoice(mode, OrgPerfs(old(ulist.elems)), minval, o, r) && res == ChoiceAt(old(ulist.elems), r)
  {
    if ulist.Empty() {
      return EmptyList, -1;
    }
    if mode == Weighted {
      res, r := SelectWeighted(minval, o, ulist);
    } else {
      res, r := SelectByProduct(mode, minval, o, ulist);
    }
  }
}
