/**
 Whether a run delivers the best organization it combined: the exact condition on what the erasing walk overlooks,
 lifted from the walk to the whole run.
 */
module RunOptimality {
  import opened DesignSpace
  import opened MemArray
  import opened StableMerge
  import opened Schedule
  import opened Copies
  import opened Select
  import opened Filters
  import opened Solve
  import opened WireTypes
  import opened Costs

  /** A run with n threads comes to choose among the near data arrays, combined with tag choice t. */
  ghost predicate Selecting(f: Circuit, prob: Problem, n: nat, t: TagChoice, near: seq<MemArray>)
    requires n >= 1 && prob.Searchable()
  {
    var data, tag := DataList(f, prob, n), TagList(f, prob, n);
    var m := MinOver(Perfs(data), NO_MINIMA);
    && data != [] && m.Positive() && near == NearArrays(data, m)
    && if prob.isCache then exists r :: PicksTag(prob, tag, r) && 0 <= r < |tag| && t == TagArray(tag[r])
       else t == NoTagArray
  }

  /** The scores of all the organizations combined. */
  ghost function ScoresOf(prob: Problem, t: TagChoice, near: seq<MemArray>): (s: seq<Score>)
    requires prob.isCache ==> t.TagArray?
    requires MinOver(Combined(prob, t, near), NO_MINIMA).Positive()
    ensures |s| == |near|
  {
    var perfs := Combined(prob, t, near);
    Scores(prob.mode, perfs, MinOver(perfs, NO_MINIMA), prob.objective)
  }

  /** What the walk of this mode never looks at, -1 for nothing. */
  ghost function OverlookedIn(mode: Mode, s: seq<Score>): int {
    if mode == Weighted then Overlooked(s) else -1
  }

  /** The choice a run makes, given that it comes to choose. */
  lemma SelectingPicks(f: Circuit, prob: Problem, n: nat, t: TagChoice, near: seq<MemArray>, v: Solve.Verdict)
    returns (i: int)
    requires n >= 1 && prob.Searchable() && Selecting(f, prob, n, t, near) && Outcome(f, prob, n, v)
    ensures (prob.isCache ==> t.TagArray?) && PicksWith(prob, t, near, i, v)
  {
    hide PicksWith;
    hide PerfOf;
    if prob.isCache {
      var tag := TagList(f, prob, n);
      var q :| PicksTag(prob, tag, q) && 0 <= q < |tag| && t == TagArray(tag[q]);
      var r :| PicksTag(prob, tag, r) && TagThenData(prob, tag, r, near, v);
      LastBestUnique(Scores(Weighted, Perfs(tag), MinOver(Perfs(tag), NO_MINIMA), prob.objective), q, r);
      i :| PicksWith(prob, TagArray(tag[r]), near, i, v);
    } else {
      i :| PicksWith(prob, NoTagArray, near, i, v);
    }
  }

  /** Behind the overlooked best entry sits a copy of it. */
  ghost predicate CopyBehind(near: seq<MemArray>, best: int) {
    0 <= best && best + 1 < |near| && near[best + 1] == near[best]
  }

  /** A copy right behind the overlooked best entry is found in its place. */
  lemma CopyIsFound(s: seq<Score>, best: int, found: int)
    requires IsFirstBest(s, best) && IsFirstBest(Hide(s, Overlooked(s)), found)
    requires best != -1 && best == Overlooked(s)
    ensures best + 1 < |s| && s[best + 1] == s[best] ==> found == best + 1
    ensures found != best && (found != -1 && s[found] == s[best] ==> found > best)
    ensures best + 1 < |s| && found == best + 1 ==> s[found].Cost?
  {
    var v := Hide(s, best);
    if best + 1 < |s| && s[best + 1] == s[best] {
      assert v[best + 1] == s[best + 1];
      assert IsFirstBest(v, best + 1);
      FirstBestUnique(v, best + 1, found);
    }
    if found != -1 {
      assert v[found] == s[found];
    }
  }

  /** An entry equal to the best one, further back, means the next one is equal too. */
  lemma EqualMeansNext(sp: Space, near: seq<MemArray>, best: int, found: int)
    requires CopyList(sp, near) && 0 <= best < found < |near| && near[found] == near[best]
    ensures near[best + 1].metrics == near[best].metrics && near[best + 1].key == near[best].key
  {
    LtTotal(near[best].key, near[best + 1].key);
  }

  /** The positions at which the choice and the best entry hold the same verdict. */
  lemma SameVerdictExactly(sp: Space, prob: Problem, t: TagChoice, near: seq<MemArray>, best: int, found: int)
    requires (prob.isCache ==> t.TagArray?) && MinOver(Combined(prob, t, near), NO_MINIMA).Positive()
    requires CopyList(sp, near) && IsFirstBest(ScoresOf(prob, t, near), best)
    requires IsFirstBest(Seen(prob.mode, ScoresOf(prob, t, near)), found)
    ensures VerdictAt(t, near, found) == VerdictAt(t, near, best)
       <==> best == -1 || best != OverlookedIn(prob.mode, ScoresOf(prob, t, near)) || CopyBehind(near, best)
  {
    hide PerfOf;
    hide CopyList;
    hide ScoreOf;
    var s := ScoresOf(prob, t, near);
    if prob.mode != Weighted || best == -1 || best != Overlooked(s) {
      if prob.mode == Weighted {
        ExactOptimality(s, best, found);
      } else {
        FirstBestUnique(s, best, found);
      }
    } else {
      CopyIsFound(s, best, found);
      if CopyBehind(near, best) {
        assert s[best + 1] == s[best];
      } else if 0 <= found < |near| && near[found] == near[best] {
        assert s[found] == s[best];
        EqualMeansNext(sp, near, best, found);
        SamePerf(prob, t, near[best], near[best + 1]);
      }
    }
  }

  /**
   A whole run, exactly: what it delivers is the first least-cost organization among all it combined, if and only if
   that one is not the overlooked entry, or a copy of it comes next.
   */
  lemma OptimalExactly(f: Circuit, prob: Problem, n: nat, t: TagChoice, near: seq<MemArray>, v: Solve.Verdict)
    requires n >= 1 && prob.Searchable() && KeyFaithful(f, true) && KeyFaithful(f, false)
    requires Selecting(f, prob, n, t, near) && Outcome(f, prob, n, v)
    ensures (prob.isCache ==> t.TagArray?) && MinOver(Combined(prob, t, near), NO_MINIMA).Positive()
    ensures var s := ScoresOf(prob, t, near);
            var best := FirstBest(s);
            v == VerdictAt(t, near, best)
            <==> best == -1 || best != OverlookedIn(prob.mode, s) || CopyBehind(near, best)
  {
    hide KeyFaithful;
    hide CopyList;
    hide PerfOf;
    hide ScoreOf;
    var i := SelectingPicks(f, prob, n, t, near, v);
    ListsOfCopies(f, prob, n);
    var data := DataList(f, prob, n);
    NearIsCopyList(DataSpace(prob), data, MinOver(Perfs(data), NO_MINIMA));
    SameVerdictExactly(DataSpace(prob), prob, t, near, FirstBest(ScoresOf(prob, t, near)), i);
  }

  /**
   What a run delivers, in figures: with every figure of an organization as its arrays give it, the one delivered is
   within the deviations, and no other within them is cheaper by the weights - the overlooked one excepted.
   */
  lemma DeliveredIsPreferred(f: Circuit, prob: Problem, n: nat, t: TagChoice, near: seq<MemArray>, v: Solve.Verdict,
                             j: nat, p: Perf, q: Perf)
    requires n >= 1 && prob.Searchable() && prob.mode == Weighted && v.Solved?
    requires Selecting(f, prob, n, t, near) && Outcome(f, prob, n, v) && j < |near|
    requires (prob.isCache ==> t.TagArray?) && Figured(prob, t, v.data, p) && Figured(prob, t, near[j], q)
    ensures MinOver(Combined(prob, t, near), NO_MINIMA).Positive()
    ensures j != Overlooked(ScoresOf(prob, t, near)) ==>
              Preferred(p, q, MinOver(Combined(prob, t, near), NO_MINIMA), prob.objective, false)
  {
    hide PerfOf;
    hide Figured;
    hide Preferred;
    var i := SelectingPicks(f, prob, n, t, near, v);
    FiguredExactly(prob, t, v.data, p);
    FiguredExactly(prob, t, near[j], q);
    var perfs := Combined(prob, t, near);
    if j != Overlooked(ScoresOf(prob, t, near)) {
      PreferredAtLeast(perfs, MinOver(perfs, NO_MINIMA), prob.objective, i, j);
    }
  }

  lemma PreferredAtLeast(perfs: seq<Perf>, m: Minima, o: Objective, i: int, j: nat)
    requires m.Positive() && IsChoice(Weighted, perfs, m, o, i) && i != -1
    requires j < |perfs| && j != Overlooked(Scores(Weighted, perfs, m, o))
    ensures 0 <= i < |perfs| && Preferred(perfs[i], perfs[j], m, o, false)
  {
    hide IsChoice;
    hide Allowed;
    hide Surplus;
    ChosenIsPreferred(perfs, m, o, i, j);
  }
}
