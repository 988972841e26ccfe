/**
 A consequence of how the parts fit together.  The circuit model is never told the wire type, so every accepted
 partition enters the list once per wire type with identical metrics, side by side.  Hence the entry the weighted
 walk overlooks is a copy of an infeasible one whenever there are several wire types; the wire type of the result is
 fixed in advance; and the result depends on neither schedule nor number of workers.
 */
module WireTypes {
  import opened MemArray
  import opened DesignSpace
  import opened StableMerge
  import opened Schedule
  import opened ThreadCount
  import opened Copies
  import opened Select
  import opened Filters
  import opened Solve

  // ----- the data filter on lists of copies -----

  lemma {:induction false} NearView(s: seq<MemArray>, m: Minima, k: Key)
    requires m.Positive()
    requires forall i, j :: 0 <= i < |s| && 0 <= j < |s| && s[i].key == s[j].key ==> s[i].metrics == s[j].metrics
    ensures OfKey(NearArrays(s, m), k) == OfKey(s, k) || OfKey(NearArrays(s, m), k) == []
    ensures OfKey(NearArrays(s, m), k) == [] ==>
              OfKey(s, k) == [] || forall i :: 0 <= i < |s| && s[i].key == k ==> Far(s[i].metrics.perf, m)
    ensures OfKey(NearArrays(s, m), k) != [] ==> exists i :: 0 <= i < |s| && s[i].key == k && !Far(s[i].metrics.perf, m)
  {
    if s != [] {
      var rest := s[1..];
      assert forall i :: 0 <= i < |rest| ==> rest[i] == s[i + 1];
      NearView(rest, m, k);
      var far := Far(s[0].metrics.perf, m);
      OfKeyAppend(if far then [] else [s[0]], NearArrays(rest, m), k);
      if s[0].key == k {
        if OfKey(NearArrays(rest, m), k) != [] {
          var i :| 0 <= i < |rest| && rest[i].key == k && !Far(rest[i].metrics.perf, m);
          assert s[i + 1].metrics == s[0].metrics;
        } else if !far {
          if OfKey(rest, k) != [] {
            KeyOccurs(rest, k);
            var i :| 0 <= i < |rest| && rest[i].key == k;
            assert s[i + 1].metrics == s[0].metrics;
          }
          assert s[0].key == k && !Far(s[0].metrics.perf, m);
        }
        OfKeyCons(s[0], [], k);
        assert [s[0]] + [] == [s[0]];
      } else {
        OfKeyNone(if far then [] else [s[0]], k);
        if OfKey(NearArrays(rest, m), k) != [] {
          var i :| 0 <= i < |rest| && rest[i].key == k && !Far(rest[i].metrics.perf, m);
          assert s[i + 1].key == k;
        }
      }
    }
  }

  lemma {:induction false} KeyOccurs(s: seq<MemArray>, k: Key)
    requires OfKey(s, k) != []
    ensures exists i :: 0 <= i < |s| && s[i].key == k
  {
    if s[0].key != k {
      KeyOccurs(s[1..], k);
      var i :| 0 <= i < |s[1..]| && s[1..][i].key == k;
      assert s[i + 1].key == k;
    }
  }

  lemma {:induction false} NearMembers(s: seq<MemArray>, m: Minima)
    requires m.Positive()
    ensures forall x :: x in NearArrays(s, m) ==> x in s
  {
    if s != [] {
      NearMembers(s[1..], m);
    }
  }

  lemma {:induction false} NearSorted(s: seq<MemArray>, m: Minima)
    requires m.Positive() && Sorted(s)
    ensures Sorted(NearArrays(s, m))
  {
    if s != [] {
      NearSorted(s[1..], m);
      NearMembers(s[1..], m);
      var rest := NearArrays(s[1..], m);
      forall j | 0 <= j < |rest| ensures !Lt(rest[j].key, s[0].key) {
        assert rest[j] in s[1..];
        var i :| 0 <= i < |s[1..]| && s[1..][i] == rest[j];
        assert s[i + 1] == rest[j];
      }
    }
  }

  /** The data filter keeps or drops all copies of a partition together. */
  lemma NearIsCopyList(sp: Space, s: seq<MemArray>, m: Minima)
    requires m.Positive() && CopyList(sp, s)
    ensures CopyList(sp, NearArrays(s, m))
  {
    var near := NearArrays(s, m);
    NearSorted(s, m);
    NearMembers(s, m);
    forall i, j | 0 <= i < |near| && 0 <= j < |near| && near[i].key == near[j].key
      ensures near[i].metrics == near[j].metrics
    {
      assert near[i] in s && near[j] in s;
    }
    forall k ensures Spans(sp, OfKey(near, k)) {
      NearView(s, m, k);
    }
  }

  // ----- consequences for the selection -----

  /** With two or more wire types, the first two entries are copies of one partition. */
  lemma FirstTwoAreCopies(sp: Space, s: seq<MemArray>)
    requires CopyList(sp, s) && sp.wtMin < sp.wtMax && |s| >= 2
    ensures s[0].metrics == s[1].metrics
  {
    var k := s[0].key;
    assert Spans(sp, OfKey(s, k));
    OfKeyMember(s, 0);
    assert OfKey(s, k) == [s[0]] + OfKey(s[1..], k);
    KeyOccurs(s[1..], k);
    var i :| 0 <= i < |s[1..]| && s[1..][i].key == k;
    LtTotal(s[0].key, s[1].key);
    assert s[i + 1].key == k;
    assert s[1].key == k;
  }

  /** Then the overlooked entry, if any, is as infeasible as the one before it: hiding it changes nothing. */
  lemma SkipIsHarmless(s: seq<Score>)
    requires |s| >= 2 ==> s[0] == s[1]
    ensures Hide(s, Overlooked(s)) == s
  {
    var k := PrefixLen(s, BIGNUM);
    PrefixStops(s, BIGNUM, k);
    assert |s| >= 2 ==> k < 2;
  }

  lemma {:induction false} FirstOfKey(s: seq<MemArray>, i: nat) returns (j: nat)
    requires i < |s|
    ensures j <= i && s[j].key == s[i].key && OfKey(s, s[i].key) != [] && s[j] == OfKey(s, s[i].key)[0]
  {
    if s[0].key == s[i].key {
      j := 0;
    } else {
      j := FirstOfKey(s[1..], i - 1);
      j := j + 1;
    }
  }

  lemma {:induction false} LastOfKey(s: seq<MemArray>, i: nat) returns (j: nat)
    requires i < |s|
    ensures i <= j < |s| && s[j].key == s[i].key
    ensures OfKey(s, s[i].key) != [] && s[j] == OfKey(s, s[i].key)[|OfKey(s, s[i].key)| - 1]
  {
    var last := |s| - 1;
    var front := s[..last];
    var k := s[i].key;
    assert s == front + [s[last]];
    OfKeyAppend(front, [s[last]], k);
    OfKeyCons(s[last], [], k);
    assert [s[last]] + [] == [s[last]];
    if s[last].key == k {
      j := last;
    } else {
      j := LastOfKey(front, i);
    }
  }

  /** A first best entry is the first copy of its partition. */
  lemma FirstBestIsFirstCopy(sp: Space, prob: Problem, t: TagChoice, near: seq<MemArray>, m: Minima, i: int)
    requires prob.isCache ==> t.TagArray?
    requires CopyList(sp, near) && m.Positive() && 0 <= i < |near|
    requires IsFirstBest(Scores(prob.mode, Combined(prob, t, near), m, prob.objective), i)
    ensures near[i].wt == sp.wtMin
  {
    hide PerfOf;
    var j := FirstOfKey(near, i);
    var s := Scores(prob.mode, Combined(prob, t, near), m, prob.objective);
    SamePerf(prob, t, near[i], near[j]);
    assert s[j] == s[i];
    assert j == i;
    assert Spans(sp, OfKey(near, near[i].key));
  }

  lemma SamePerf(prob: Problem, t: TagChoice, a: MemArray, b: MemArray)
    requires prob.isCache ==> t.TagArray?
    requires a.metrics == b.metrics
    ensures PerfOf(prob, t, a) == PerfOf(prob, t, b)
  {
  }

  /**
   Wherever the search ranges over several wire types, the weighted search is exactly optimal: what solve picks is
   the first least-cost feasible organization among all it combined, with nothing overlooked.  And over any range
   its data array carries the first wire type.
   */
  lemma SolvePicksTrueOptimum(sp: Space, prob: Problem, t: TagChoice, data: seq<MemArray>, m: Minima, i: int)
    requires prob.isCache ==> t.TagArray?
    requires CopyList(sp, data) && m.Positive() && sp.wtMin < sp.wtMax
    requires Picks(prob, t, NearArrays(data, m), i)
    ensures var near := NearArrays(data, m);
            var perfs := Combined(prob, t, near);
            && IsFirstBest(Scores(prob.mode, perfs, MinOver(perfs, NO_MINIMA), prob.objective), i)
            && (0 <= i < |near| ==> near[i].wt == sp.wtMin)
  {
    hide PerfOf;
    var near := NearArrays(data, m);
    NearIsCopyList(sp, data, m);
    var perfs := Combined(prob, t, near);
    var s := Scores(prob.mode, perfs, MinOver(perfs, NO_MINIMA), prob.objective);
    if |near| >= 2 {
      FirstTwoAreCopies(sp, near);
      SamePerf(prob, t, near[0], near[1]);
    }
    SkipIsHarmless(s);
    if 0 <= i < |near| {
      FirstBestIsFirstCopy(sp, prob, t, near, MinOver(perfs, NO_MINIMA), i);
    }
  }

  /** The tag filter, scanning from the back, keeps the last copy. */
  lemma TagCarriesLastWire(sp: Space, prob: Problem, tag: seq<MemArray>, r: int)
    requires CopyList(sp, tag) && PicksTag(prob, tag, r) && 0 <= r < |tag|
    ensures tag[r].wt == sp.wtMax
  {
    var j := LastOfKey(tag, r);
    assert tag[j].metrics == tag[r].metrics;
    assert Perfs(tag)[j] == Perfs(tag)[r];
    assert Spans(sp, OfKey(tag, tag[r].key));
  }

  /** Over any range, what solve picks carries the first wire type. */
  lemma PickIsFirstWire(sp: Space, prob: Problem, t: TagChoice, data: seq<MemArray>, m: Minima, i: int)
    requires prob.isCache ==> t.TagArray?
    requires CopyList(sp, data) && m.Positive() && Picks(prob, t, NearArrays(data, m), i)
    ensures 0 <= i < |NearArrays(data, m)| ==> NearArrays(data, m)[i].wt == sp.wtMin
  {
    hide CopyList;
    hide Picks;
    if sp.wtMin < sp.wtMax {
      SolvePicksTrueOptimum(sp, prob, t, data, m, i);
    } else if 0 <= i < |NearArrays(data, m)| {
      NearIsCopyList(sp, data, m);
      WiresInRange(sp, NearArrays(data, m), i);
    }
  }

  /** What solve would deliver if no entry were ever overlooked. */
  ghost predicate IdealPick(prob: Problem, t: TagChoice, near: seq<MemArray>, i: int)
    requires prob.isCache ==> t.TagArray?
  {
    var perfs := Combined(prob, t, near);
    var m := MinOver(perfs, NO_MINIMA);
    m.Positive() && IsFirstBest(Scores(prob.mode, perfs, m, prob.objective), i)
  }

  /** The whole run: with several wire types, a solved problem is solved optimally, with both wire types foregone. */
  lemma SolvedOptimally(f: Circuit, prob: Problem, n: nat, v: Verdict)
    requires n >= 1 && prob.Searchable() && Outcome(f, prob, n, v) && v.Solved?
    requires KeyFaithful(f, true) && KeyFaithful(f, false)
    requires prob.tagSpace.wtMin < prob.tagSpace.wtMax && prob.dataSpace.wtMin < prob.dataSpace.wtMax
    ensures var data := DataList(f, prob, n);
            var m := MinOver(Perfs(data), NO_MINIMA);
            && m.Positive()
            && (prob.isCache ==> v.tag.TagArray? && v.tag.arr.wt == prob.tagSpace.wtMax)
            && (exists i :: 0 <= i < |NearArrays(data, m)| && NearArrays(data, m)[i] == v.data
                            && IdealPick(prob, v.tag, NearArrays(data, m), i))
            && v.data.wt == DataSpace(prob).wtMin
  {
    hide KeyFaithful;
    var sp := DataSpace(prob);
    var data, tag := DataList(f, prob, n), TagList(f, prob, n);
    var m := MinOver(Perfs(data), NO_MINIMA);
    var near := NearArrays(data, m);
    ListsOfCopies(f, prob, n);
    if prob.isCache {
      var r :| PicksTag(prob, tag, r) && TagThenData(prob, tag, r, near, v);
      TagCarriesLastWire(prob.tagSpace, prob, tag, r);
      var i :| PicksWith(prob, TagArray(tag[r]), near, i, v);
      SolvePicksTrueOptimum(sp, prob, TagArray(tag[r]), data, m, i);
      assert IdealPick(prob, v.tag, near, i);
    } else {
      var i :| PicksWith(prob, NoTagArray, near, i, v);
      SolvePicksTrueOptimum(sp, prob, NoTagArray, data, m, i);
      assert IdealPick(prob, v.tag, near, i);
    }
  }

  /** The space whose points the data list comes from. */
  function DataSpace(prob: Problem): Space {
    if prob.fullyAssoc then prob.tagSpace else prob.dataSpace
  }

  lemma ListsOfCopies(f: Circuit, prob: Problem, n: nat)
    requires n >= 1 && prob.Searchable() && KeyFaithful(f, true) && KeyFaithful(f, false)
    ensures CopyList(DataSpace(prob), DataList(f, prob, n)) && CopyList(prob.tagSpace, TagList(f, prob, n))
  {
    hide KeyFaithful;
    hide CopyList;
    ParallelIsCopyList(prob.tagSpace, f, true, n);
    ParallelIsCopyList(prob.dataSpace, f, false, n);
    EmptyCopyList(prob.tagSpace);
  }

  lemma EmptyCopyList(sp: Space)
    ensures CopyList(sp, [])
  {
  }

  // ----- the number of threads -----

  lemma AlikePerfs(a: seq<MemArray>, b: seq<MemArray>)
    requires Alike(a, b)
    ensures Perfs(a) == Perfs(b)
  {
  }

  lemma {:induction false} AlikeNear(a: seq<MemArray>, b: seq<MemArray>, m: Minima)
    requires m.Positive() && Alike(a, b)
    ensures Alike(NearArrays(a, m), NearArrays(b, m))
  {
    hide Far;
    if a != [] {
      AlikeNear(a[1..], b[1..], m);
    }
  }

  lemma AlikeCombined(prob: Problem, t: TagChoice, a: seq<MemArray>, b: seq<MemArray>)
    requires (prob.isCache ==> t.TagArray?) && Alike(a, b)
    ensures Combined(prob, t, a) == Combined(prob, t, b)
  {
    forall i | 0 <= i < |a| ensures PerfOf(prob, t, a[i]) == PerfOf(prob, t, b[i]) {
      SamePerf(prob, t, a[i], b[i]);
    }
  }

  /** Alike data lists of copies lead to the same verdict. */
  lemma SameVerdict(sp: Space, prob: Problem, t: TagChoice, a: seq<MemArray>, b: seq<MemArray>, m: Minima,
                    i: int, v: Verdict)
    requires (prob.isCache ==> t.TagArray?) && m.Positive() && Alike(a, b) && CopyList(sp, a) && CopyList(sp, b)
    requires PicksWith(prob, t, NearArrays(a, m), i, v)
    ensures PicksWith(prob, t, NearArrays(b, m), i, v)
  {
    hide CopyList;
    hide PerfOf;
    AlikeNear(a, b, m);
    var x, y := NearArrays(a, m), NearArrays(b, m);
    AlikeCombined(prob, t, x, y);
    assert Picks(prob, t, y, i);
    if 0 <= i < |x| {
      PickIsFirstWire(sp, prob, t, a, m, i);
      PickIsFirstWire(sp, prob, t, b, m, i);
      assert x[i] == y[i];
    }
  }

  lemma SameTag(sp: Space, prob: Problem, a: seq<MemArray>, b: seq<MemArray>, r: int)
    requires Alike(a, b) && CopyList(sp, a) && CopyList(sp, b) && PicksTag(prob, a, r)
    ensures PicksTag(prob, b, r) && (0 <= r < |a| ==> a[r] == b[r])
  {
    hide CopyList;
    AlikePerfs(a, b);
    if 0 <= r < |a| {
      TagCarriesLastWire(sp, prob, a, r);
      TagCarriesLastWire(sp, prob, b, r);
    }
  }

  lemma OutcomeCarriesOver(f: Circuit, prob: Problem, n: nat, m: nat, v: Verdict)
    requires n >= 1 && m >= 1 && prob.Searchable() && KeyFaithful(f, true) && KeyFaithful(f, false)
    requires Outcome(f, prob, n, v)
    ensures Outcome(f, prob, m, v)
  {
    hide KeyFaithful;
    hide CopyList;
    hide PicksWith;
    hide PicksTag;
    hide Alike;
    var a, b := DataList(f, prob, n), DataList(f, prob, m);
    var s, t := TagList(f, prob, n), TagList(f, prob, m);
    ListsAlike(f, prob, n, m);
    ListsOfCopies(f, prob, n);
    ListsOfCopies(f, prob, m);
    AlikePerfs(a, b);
    AlikeEmpty(a, b);
    AlikeEmpty(s, t);
    var min := MinOver(Perfs(a), NO_MINIMA);
    if a != [] {
      if prob.isCache {
        var r :| PicksTag(prob, s, r) && TagThenData(prob, s, r, NearArrays(a, min), v);
        SameTag(prob.tagSpace, prob, s, t, r);
        if 0 <= r < |s| {
          var i :| PicksWith(prob, TagArray(s[r]), NearArrays(a, min), i, v);
          SameVerdict(DataSpace(prob), prob, TagArray(s[r]), a, b, min, i, v);
        }
        assert TagThenData(prob, t, r, NearArrays(b, min), v);
      } else {
        var i :| PicksWith(prob, NoTagArray, NearArrays(a, min), i, v);
        SameVerdict(DataSpace(prob), prob, NoTagArray, a, b, min, i, v);
      }
    }
  }

  lemma AlikeEmpty(a: seq<MemArray>, b: seq<MemArray>)
    requires Alike(a, b)
    ensures |a| == |b|
  {
  }

  lemma ListsAlike(f: Circuit, prob: Problem, n: nat, m: nat)
    requires n >= 1 && m >= 1 && prob.Searchable() && KeyFaithful(f, true) && KeyFaithful(f, false)
    ensures Alike(DataList(f, prob, n), DataList(f, prob, m)) && Alike(TagList(f, prob, n), TagList(f, prob, m))
  {
    hide KeyFaithful;
    ParallelAlike(prob.tagSpace, f, true, n, m);
    ParallelAlike(prob.dataSpace, f, false, n, m);
  }

  /**
   The verdict of a run does not depend on the number of threads, DRAM tags included: the merged lists may differ,
   but only in the order of wire types within one key, and what is picked carries the first or the last of them.
   */
  lemma OutcomeThreadIndependent(f: Circuit, prob: Problem, n: nat, m: nat, v: Verdict)
    requires n >= 1 && m >= 1 && prob.Searchable() && KeyFaithful(f, true) && KeyFaithful(f, false)
    ensures Outcome(f, prob, n, v) <==> Outcome(f, prob, m, v)
  {
    hide KeyFaithful;
    hide Outcome;
    if Outcome(f, prob, n, v) {
      OutcomeCarriesOver(f, prob, n, m, v);
    }
    if Outcome(f, prob, m, v) {
      OutcomeCarriesOver(f, prob, m, n, v);
    }
  }
}
