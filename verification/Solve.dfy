/**
 The whole run: search the tag arrays, search the data arrays, merge, filter, combine, choose, free.

 The result is characterized without pointers, threads or schedules, and is unique; the run is then proved to
 deliver it from any number of threads under any scheduling, and to leave exactly the chosen arrays allocated.
 */
module Solve {
  import opened Parameter
  import opened DesignSpace
  import opened MemArray
  import opened StableMerge
  import opened Schedule
  import opened Workers
  import opened StdList
  import opened Select
  import opened Filters

  datatype Problem = Problem(isCache: bool, fullyAssoc: bool, fastAccess: bool, isSeqAcc: bool,
                             mode: Mode, objective: Objective, tagSpace: Space, dataSpace: Space)
  {
    predicate Searchable() { tagSpace.spdMin > 0.0 && dataSpace.spdMin > 0.0 }
  }

  datatype TagChoice = NoTagArray | TagArray(arr: MemArray)

  function MaxReal(a: real, b: real): real { if a > b then a else b }

  /** find_delay: how tag and data access times combine in each access mode. */
  function FindDelay(prob: Problem, t: TagChoice, d: MemArray): real
    requires prob.isCache ==> t.TagArray?
  {
    if !prob.isCache then d.metrics.perf.delay
    else if prob.fastAccess then MaxReal(t.arr.metrics.perf.delay, d.metrics.perf.delay)
    else if prob.isSeqAcc then t.arr.metrics.perf.delay + d.metrics.perf.delay
    else MaxReal(t.arr.metrics.perf.delay + d.metrics.muxDecoder, d.metrics.beforeDriver) + d.metrics.fromDriver
  }

  function FindArea(prob: Problem, t: TagChoice, d: MemArray): real
    requires prob.isCache ==> t.TagArray?
  {
    if !prob.isCache then d.metrics.height * d.metrics.width
    else MaxReal(t.arr.metrics.height, d.metrics.height) * (t.arr.metrics.width + d.metrics.width)
  }

  /** find_delay, find_energy, find_area and find_cyc. */
  function PerfOf(prob: Problem, t: TagChoice, d: MemArray): Perf
    requires prob.isCache ==> t.TagArray?
  {
    var dp := d.metrics.perf;
    if !prob.isCache then
      Perf(FindDelay(prob, t, d), dp.dyn, dp.leak, FindArea(prob, t, d), dp.cyc)
    else
      var tp := t.arr.metrics.perf;
      Perf(FindDelay(prob, t, d), dp.dyn + tp.dyn, dp.leak + tp.leak, FindArea(prob, t, d), MaxReal(tp.cyc, dp.cyc))
  }

  // ----- what the figures of an organization are, in terms of its arrays -----

  /** x is the larger of a and b. */
  predicate IsLarger(x: real, a: real, b: real) {
    x >= a && x >= b && (x == a || x == b)
  }

  /**
   Without a cache the data array's delay counts alone.  In fast access the slower array decides; in sequential access
   the data array follows the tag array; otherwise the data leave the subarray once they are there and the way is
   known.
   */
  ghost predicate DelayOf(prob: Problem, t: TagChoice, d: MemArray, delay: real)
    requires prob.isCache ==> t.TagArray?
  {
    var own := d.metrics.perf.delay;
    && (!prob.isCache ==> delay == own)
    && (prob.isCache && prob.fastAccess ==> IsLarger(delay, t.arr.metrics.perf.delay, own))
    && (prob.isCache && !prob.fastAccess && prob.isSeqAcc ==> delay - t.arr.metrics.perf.delay == own)
    && (prob.isCache && !prob.fastAccess && !prob.isSeqAcc ==>
          IsLarger(delay - d.metrics.fromDriver, d.metrics.beforeDriver,
                   t.arr.metrics.perf.delay + d.metrics.muxDecoder))
  }

  /** Energy and leakage add up; the cycle is the longer one; the arrays stand side by side under the taller one. */
  ghost predicate Figured(prob: Problem, t: TagChoice, d: MemArray, p: Perf)
    requires prob.isCache ==> t.TagArray?
  {
    var own := d.metrics.perf;
    && DelayOf(prob, t, d, p.delay)
    && (!prob.isCache ==>
          && p.dyn == own.dyn && p.leak == own.leak && p.cyc == own.cyc
          && p.area == d.metrics.height * d.metrics.width)
    && (prob.isCache ==>
          var tag := t.arr.metrics;
          && p.dyn - own.dyn == tag.perf.dyn && p.leak - own.leak == tag.perf.leak
          && IsLarger(p.cyc, tag.perf.cyc, own.cyc)
          && (tag.height >= d.metrics.height ==> p.area == tag.height * (tag.width + d.metrics.width))
          && (d.metrics.height >= tag.height ==> p.area == d.metrics.height * (tag.width + d.metrics.width)))
  }

  /** The figures determine the performance. */
  lemma FiguredExactly(prob: Problem, t: TagChoice, d: MemArray, p: Perf)
    requires prob.isCache ==> t.TagArray?
    ensures Figured(prob, t, d, p) <==> p == PerfOf(prob, t, d)
  {
  }

  // ----- the circuit model is a positive oracle -----

  ghost predicate PositiveMetrics(m: Metrics) {
    m.perf.Positive() && m.height > 0.0 && m.width > 0.0 &&
    m.muxDecoder >= 0.0 && m.beforeDriver >= 0.0 && m.fromDriver >= 0.0
  }

  ghost predicate PositiveCircuit(f: Circuit) {
    forall isTag: bool, p: Partition :: f(isTag, p).Valid? ==> PositiveMetrics(f(isTag, p).metrics)
  }

  ghost predicate PositiveArrays(s: seq<MemArray>) {
    forall i :: 0 <= i < |s| ==> PositiveMetrics(s[i].metrics)
  }

  lemma {:induction false} EvalPositive(f: Circuit, isTag: bool, cs: seq<Config>)
    requires PositiveCircuit(f)
    ensures PositiveArrays(Eval(f, isTag, cs))
  {
    if cs != [] {
      EvalPositive(f, isTag, cs[1..]);
      var v := f(isTag, cs[0].part);
      if v.Valid? {
        assert PositiveMetrics(v.metrics);
      }
    }
  }

  lemma ParallelPositive(sp: Space, f: Circuit, isTag: bool, n: nat)
    requires PositiveCircuit(f) && n >= 1 && sp.spdMin > 0.0
    ensures PositiveArrays(ParallelList(sp, f, isTag, n))
  {
    hide PositiveMetrics;
    var s := ParallelList(sp, f, isTag, n);
    forall i | 0 <= i < |s| ensures PositiveMetrics(s[i].metrics) {
      ParallelMember(sp, f, isTag, n, s[i]);
      var t :| 0 <= t < n && s[i] in Eval(f, isTag, Configs(sp, t, n));
      EvalPositive(f, isTag, Configs(sp, t, n));
      var j :| 0 <= j < |Eval(f, isTag, Configs(sp, t, n))| && Eval(f, isTag, Configs(sp, t, n))[j] == s[i];
    }
  }

  lemma MinimaPositive(s: seq<MemArray>)
    requires PositiveArrays(s)
    ensures MinOver(Perfs(s), NO_MINIMA).Positive()
  {
    MinOverPositive(Perfs(s), NO_MINIMA);
  }

  lemma PerfPositive(prob: Problem, t: TagChoice, d: MemArray)
    requires prob.isCache ==> t.TagArray? && PositiveMetrics(t.arr.metrics)
    requires PositiveMetrics(d.metrics)
    ensures PerfOf(prob, t, d).Positive()
  {
    if prob.isCache {
      PositiveMul(MaxReal(t.arr.metrics.height, d.metrics.height), t.arr.metrics.width + d.metrics.width);
    } else {
      PositiveMul(d.metrics.height, d.metrics.width);
    }
  }

  // ----- the result, without pointers, threads or schedules -----

  ghost function TagList(f: Circuit, prob: Problem, n: nat): seq<MemArray>
    requires n >= 1 && prob.Searchable()
  {
    if prob.isCache then ParallelList(prob.tagSpace, f, true, n) else []
  }

  /** A fully associative cache takes its data arrays from the tag search; a fully associative RAM has none. */
  ghost function DataList(f: Circuit, prob: Problem, n: nat): seq<MemArray>
    requires n >= 1 && prob.Searchable()
  {
    if prob.fullyAssoc then TagList(f, prob, n) else ParallelList(prob.dataSpace, f, false, n)
  }

  datatype Verdict =
    | NoDataArrays
    | NoTagArrays
    | NoOrganizations
    | NothingMeetsCriteria
    | Solved(data: MemArray, tag: TagChoice)

  ghost function Combined(prob: Problem, t: TagChoice, near: seq<MemArray>): (r: seq<Perf>)
    requires prob.isCache ==> t.TagArray?
    ensures |r| == |near| && forall i :: 0 <= i < |near| ==> r[i] == PerfOf(prob, t, near[i])
  {
    seq(|near|, i requires 0 <= i < |near| => PerfOf(prob, t, near[i]))
  }

  /** The minimum is taken over the combined organizations, and the selection made among them. */
  ghost predicate Picks(prob: Problem, t: TagChoice, near: seq<MemArray>, i: int)
    requires prob.isCache ==> t.TagArray?
  {
    var perfs := Combined(prob, t, near);
    var m := MinOver(perfs, NO_MINIMA);
    m.Positive() && IsChoice(prob.mode, perfs, m, prob.objective, i)
  }

  ghost predicate PicksTag(prob: Problem, tag: seq<MemArray>, r: int) {
    var m := MinOver(Perfs(tag), NO_MINIMA);
    m.Positive() && IsLastBest(Scores(Weighted, Perfs(tag), m, prob.objective), 0, r)
  }

  ghost function VerdictAt(t: TagChoice, near: seq<MemArray>, i: int): Verdict {
    if near == [] then NoOrganizations
    else if 0 <= i < |near| then Solved(near[i], t) else NothingMeetsCriteria
  }

  /** What solve delivers for a circuit and a problem with n threads. */
  ghost predicate Outcome(f: Circuit, prob: Problem, n: nat, v: Verdict)
    requires n >= 1 && prob.Searchable()
  {
    var data, tag := DataList(f, prob, n), TagList(f, prob, n);
    var m := MinOver(Perfs(data), NO_MINIMA);
    if data == [] then v == NoDataArrays
    else
      && m.Positive()
      && if !prob.isCache then exists i :: PicksWith(prob, NoTagArray, NearArrays(data, m), i, v)
         else exists r :: PicksTag(prob, tag, r) && TagThenData(prob, tag, r, NearArrays(data, m), v)
  }

  ghost predicate PicksWith(prob: Problem, t: TagChoice, near: seq<MemArray>, i: int, v: Verdict)
    requires prob.isCache ==> t.TagArray?
  {
    Picks(prob, t, near, i) && v == VerdictAt(t, near, i)
  }

  ghost predicate TagThenData(prob: Problem, tag: seq<MemArray>, r: int, near: seq<MemArray>, v: Verdict) {
    if 0 <= r < |tag| then exists i :: PicksWith(prob, TagArray(tag[r]), near, i, v) else v == NoTagArrays
  }

  lemma LastBestUnique(s: seq<Score>, q: int, r: int)
    requires IsLastBest(s, 0, q) && IsLastBest(s, 0, r)
    ensures q == r
  {
  }

  /** The outcome is a function of the circuit, the problem and the number of threads. */
  lemma OutcomeUnique(f: Circuit, prob: Problem, n: nat, v: Verdict, w: Verdict)
    requires n >= 1 && prob.Searchable() && Outcome(f, prob, n, v) && Outcome(f, prob, n, w)
    ensures v == w
  {
    var data, tag := DataList(f, prob, n), TagList(f, prob, n);
    if data != [] {
      var near := NearArrays(data, MinOver(Perfs(data), NO_MINIMA));
      if !prob.isCache {
        PickUnique(prob, NoTagArray, near, v, w);
      } else {
        var q :| PicksTag(prob, tag, q) && TagThenData(prob, tag, q, near, v);
        var r :| PicksTag(prob, tag, r) && TagThenData(prob, tag, r, near, w);
        LastBestUnique(Scores(Weighted, Perfs(tag), MinOver(Perfs(tag), NO_MINIMA), prob.objective), q, r);
        if 0 <= r < |tag| {
          PickUnique(prob, TagArray(tag[r]), near, v, w);
        }
      }
    }
  }

  lemma PickUnique(prob: Problem, t: TagChoice, near: seq<MemArray>, v: Verdict, w: Verdict)
    requires prob.isCache ==> t.TagArray?
    requires exists i :: PicksWith(prob, t, near, i, v)
    requires exists i :: PicksWith(prob, t, near, i, w)
    ensures v == w
  {
    var i :| PicksWith(prob, t, near, i, v);
    var j :| PicksWith(prob, t, near, j, w);
    var perfs := Combined(prob, t, near);
    FirstBestUnique(Seen(prob.mode, Scores(prob.mode, perfs, MinOver(perfs, NO_MINIMA), prob.objective)), i, j);
  }

  // ----- merging what the threads leave -----

  function Datas(ts: seq<Thread>): (r: seq<seq<Cell>>)
    ensures |r| == |ts| && forall t :: 0 <= t < |ts| ==> r[t] == ts[t].lists.data
  {
    seq(|ts|, t requires 0 <= t < |ts| => ts[t].lists.data)
  }

  function Tags(ts: seq<Thread>): (r: seq<seq<Cell>>)
    ensures |r| == |ts| && forall t :: 0 <= t < |ts| ==> r[t] == ts[t].lists.tag
  {
    seq(|ts|, t requires 0 <= t < |ts| => ts[t].lists.tag)
  }

  ghost function TotalPtrs(lists: seq<seq<Cell>>): multiset<nat> {
    if lists == [] then multiset{} else TotalPtrs(lists[..|lists| - 1]) + Ptrs(lists[|lists| - 1])
  }

  lemma {:induction false} MergeAllPtrs(lists: seq<seq<Cell>>)
    ensures Ptrs(MergeAll(lists)) == TotalPtrs(lists)
  {
    if lists != [] {
      MergeAllPtrs(lists[..|lists| - 1]);
      MergePtrs(MergeAll(lists[..|lists| - 1]), Sort(lists[|lists| - 1]));
      SortPtrs(lists[|lists| - 1]);
    }
  }

  lemma OwnedSnoc(ts: seq<Thread>)
    requires ts != []
    ensures TotalOwned(ts) == TotalOwned(ts[..|ts| - 1]) + ts[|ts| - 1].lists.Owned()
  {
    OwnedSplit(ts, |ts| - 1);
    assert ts[|ts|..] == [];
    assert TotalOwned([]) == multiset{};
  }

  lemma {:induction false} OwnedIsPtrs(ts: seq<Thread>)
    ensures TotalPtrs(Datas(ts)) + TotalPtrs(Tags(ts)) == TotalOwned(ts)
  {
    if ts != [] {
      hide Ptrs;
      var last := |ts| - 1;
      var front := ts[..last];
      OwnedIsPtrs(front);
      OwnedSnoc(ts);
      assert Datas(ts)[..last] == Datas(front) && Tags(ts)[..last] == Tags(front);
      PairUp(TotalPtrs(Datas(front)), Ptrs(ts[last].lists.data), TotalPtrs(Tags(front)), Ptrs(ts[last].lists.tag));
    }
  }

  lemma GatherPtrs(ts: seq<Thread>)
    ensures Ptrs(MergeAll(Datas(ts))) + Ptrs(MergeAll(Tags(ts))) == TotalOwned(ts)
  {
    MergeAllPtrs(Datas(ts));
    MergeAllPtrs(Tags(ts));
    OwnedIsPtrs(ts);
  }

  lemma PairUp(a: multiset<nat>, x: multiset<nat>, b: multiset<nat>, y: multiset<nat>)
    ensures (a + x) + (b + y) == (a + b) + (x + y)
  {
  }

  /** The joining thread's loop over the workers: sort each list, merge it in. */
  method Gather(ts: seq<Thread>) returns (data: seq<Cell>, tag: seq<Cell>)
    ensures data == MergeAll(Datas(ts)) && tag == MergeAll(Tags(ts))
    ensures Ptrs(data) + Ptrs(tag) == TotalOwned(ts)
  {
    data, tag := [], [];
    var t := 0;
    while t < |ts|
      invariant 0 <= t <= |ts|
      invariant data == MergeAll(Datas(ts)[..t]) && tag == MergeAll(Tags(ts)[..t])
    {
      data := Merge(data, Sort(ts[t].lists.data));
      tag := Merge(tag, Sort(ts[t].lists.tag));
      assert Datas(ts)[..t + 1][..t] == Datas(ts)[..t] && Tags(ts)[..t + 1][..t] == Tags(ts)[..t];
      t := t + 1;
    }
    assert Datas(ts)[..t] == Datas(ts) && Tags(ts)[..t] == Tags(ts);
    GatherPtrs(ts);
  }

  /** Minima merged worker by worker. */
  ghost function FoldMinima(lists: seq<seq<Cell>>): Minima {
    if lists == [] then NO_MINIMA
    else FoldMinima(lists[..|lists| - 1]).Merge(MinOver(Perfs(Arrs(lists[|lists| - 1])), NO_MINIMA))
  }

  /** Min merge: folding the per-worker minima gives the minimum over the merged list. */
  lemma {:induction false} MinimaOfMerged(lists: seq<seq<Cell>>)
    ensures FoldMinima(lists) == MinOver(Perfs(Arrs(MergeAll(lists))), NO_MINIMA)
  {
    if lists != [] {
      var front, last := lists[..|lists| - 1], lists[|lists| - 1];
      MinimaOfMerged(front);
      var merged := MergeAll(front);
      var m := MinOver(Perfs(Arrs(merged)), NO_MINIMA);
      MinOverIsBelow(Perfs(Arrs(merged)), NO_MINIMA);
      MergeIsFold(Perfs(Arrs(last)), m);
      MinOverAppend(Perfs(Arrs(merged)), Perfs(Arrs(last)), NO_MINIMA);
      assert Perfs(Arrs(merged + last)) == Perfs(Arrs(merged)) + Perfs(Arrs(last));
      MergeKeeps(merged, Sort(last));
      SortKeeps(last);
      SameEntriesSameMinima(merged + last, Merge(merged, Sort(last)), NO_MINIMA);
    }
  }

  method MergeMinima(res: seq<Minima>, ghost lists: seq<seq<Cell>>) returns (m: Minima)
    requires |res| == |lists|
    requires forall t :: 0 <= t < |res| ==> res[t] == MinOver(Perfs(Arrs(lists[t])), NO_MINIMA)
    ensures m == MinOver(Perfs(Arrs(MergeAll(lists))), NO_MINIMA)
  {
    m := NO_MINIMA;
    var t := 0;
    while t < |res|
      invariant 0 <= t <= |res| && m == FoldMinima(lists[..t])
    {
      m := m.Merge(res[t]);
      assert lists[..t + 1][..t] == lists[..t];
      t := t + 1;
    }
    assert lists[..t] == lists;
    MinimaOfMerged(lists);
  }

  // ----- one search: create the threads, join them, sort and merge -----

  /** The workers' lists between searches: spliced away by the merge, minima kept. */
  function Spliced(ts: seq<Thread>): (ls: seq<Lists>)
    ensures |ls| == |ts| && forall t :: 0 <= t < |ts| ==> ls[t] == ts[t].lists.(data := [], tag := [])
  {
    seq(|ts|, t requires 0 <= t < |ts| => ts[t].lists.(data := [], tag := []))
  }

  ghost predicate EmptyLists(ls: seq<Lists>) {
    forall t :: 0 <= t < |ls| ==> ls[t].data == [] && ls[t].tag == []
  }

  /** Each worker recorded the minima of what it handed over. */
  ghost predicate Recorded(res: seq<Minima>, lists: seq<seq<Cell>>) {
    |res| == |lists| && forall t :: 0 <= t < |res| ==> res[t] == MinOver(Perfs(Arrs(lists[t])), NO_MINIMA)
  }

  function DataRes(ls: seq<Lists>): (r: seq<Minima>)
    ensures |r| == |ls| && forall t :: 0 <= t < |ls| ==> r[t] == ls[t].dataRes
  {
    seq(|ls|, t requires 0 <= t < |ls| => ls[t].dataRes)
  }

  function TagRes(ls: seq<Lists>): (r: seq<Minima>)
    ensures |r| == |ls| && forall t :: 0 <= t < |ls| ==> r[t] == ls[t].tagRes
  {
    seq(|ls|, t requires 0 <= t < |ls| => ls[t].tagRes)
  }

  lemma {:induction false} MergeNothing(lists: seq<seq<Cell>>)
    requires forall t :: 0 <= t < |lists| ==> lists[t] == []
    ensures MergeAll(lists) == []
  {
    if lists != [] {
      MergeNothing(lists[..|lists| - 1]);
    }
  }

  /** What the data lists of finished threads amount to. */
  lemma FinishedData(f: Circuit, sp: Space, task: Task, n: nat, ts: seq<Thread>, starts: seq<Lists>)
    requires n >= 1 && |ts| == |starts| == n && sp.spdMin > 0.0
    requires forall t :: 0 <= t < n ==> Finished(f, task, ts[t].lists, starts[t], Configs(sp, t, n))
    ensures if task.FillsData() then Arrs(MergeAll(Datas(ts))) == ParallelList(sp, f, task.isTag, n)
            else MergeAll(Datas(ts)) == []
    ensures task.FillsData() && (forall t :: 0 <= t < n ==> starts[t].dataRes == NO_MINIMA) ==>
              Recorded(DataRes(Spliced(ts)), Datas(ts))
    ensures !task.FillsData() ==> DataRes(Spliced(ts)) == DataRes(starts)
  {
    hide Configs;
    hide ParallelList;
    if task.FillsData() {
      MergedIsParallel(sp, f, task.isTag, n, Datas(ts));
    } else {
      forall t | 0 <= t < n ensures Datas(ts)[t] == [] {
        assert Arrs(ts[t].lists.data) == [];
      }
      MergeNothing(Datas(ts));
    }
  }

  lemma FinishedTag(f: Circuit, sp: Space, task: Task, n: nat, ts: seq<Thread>, starts: seq<Lists>)
    requires n >= 1 && |ts| == |starts| == n && sp.spdMin > 0.0
    requires forall t :: 0 <= t < n ==> Finished(f, task, ts[t].lists, starts[t], Configs(sp, t, n))
    ensures if task.FillsTag() then Arrs(MergeAll(Tags(ts))) == ParallelList(sp, f, task.isTag, n)
            else MergeAll(Tags(ts)) == []
    ensures task.FillsTag() && (forall t :: 0 <= t < n ==> starts[t].tagRes == NO_MINIMA) ==>
              Recorded(TagRes(Spliced(ts)), Tags(ts))
    ensures !task.FillsTag() ==> TagRes(Spliced(ts)) == TagRes(starts)
  {
    hide Configs;
    hide ParallelList;
    if task.FillsTag() {
      MergedIsParallel(sp, f, task.isTag, n, Tags(ts));
    } else {
      forall t | 0 <= t < n ensures Tags(ts)[t] == [] {
        assert Arrs(ts[t].lists.tag) == [];
      }
      MergeNothing(Tags(ts));
    }
  }

  /** The joined threads hand over the merged lists on the sides the task fills, and leave the other minima alone. */
  ghost predicate Gathered(f: Circuit, sp: Space, task: Task, n: nat, starts: seq<Lists>,
                           data: seq<Cell>, tag: seq<Cell>, ls: seq<Lists>, datas: seq<seq<Cell>>, tags: seq<seq<Cell>>)
    requires n >= 1 && sp.spdMin > 0.0
  {
    && |starts| == |ls| == |datas| == |tags| == n && EmptyLists(ls) && data == MergeAll(datas) && tag == MergeAll(tags)
    && (if task.FillsData() then Arrs(data) == ParallelList(sp, f, task.isTag, n) else data == [])
    && (if task.FillsTag() then Arrs(tag) == ParallelList(sp, f, task.isTag, n) else tag == [])
    && (task.FillsData() && (forall t :: 0 <= t < n ==> starts[t].dataRes == NO_MINIMA) ==>
          Recorded(DataRes(ls), datas))
    && (task.FillsTag() && (forall t :: 0 <= t < n ==> starts[t].tagRes == NO_MINIMA) ==> Recorded(TagRes(ls), tags))
    && (!task.FillsData() ==> DataRes(ls) == DataRes(starts))
    && (!task.FillsTag() ==> TagRes(ls) == TagRes(starts))
  }

  lemma FinishedGathered(f: Circuit, sp: Space, task: Task, n: nat, ts: seq<Thread>, starts: seq<Lists>)
    requires n >= 1 && |ts| == |starts| == n && sp.spdMin > 0.0
    requires forall t :: 0 <= t < n ==> Finished(f, task, ts[t].lists, starts[t], Configs(sp, t, n))
    ensures Gathered(f, sp, task, n, starts, MergeAll(Datas(ts)), MergeAll(Tags(ts)), Spliced(ts), Datas(ts), Tags(ts))
  {
    hide Finished;
    hide Configs;
    hide MergeAll;
    hide ParallelList;
    hide Recorded;
    FinishedData(f, sp, task, n, ts, starts);
    FinishedTag(f, sp, task, n, ts, starts);
  }

  /** One search with n threads: whatever the interleaving, the merged lists are those of n workers. */
  method Search(heap: Heap, f: Circuit, sp: Space, task: Task, n: nat, starts: seq<Lists>)
    returns (data: seq<Cell>, tag: seq<Cell>, ls: seq<Lists>, ghost datas: seq<seq<Cell>>, ghost tags: seq<seq<Cell>>)
    requires heap.Valid() && n >= 1 && |starts| == n && EmptyLists(starts) && sp.spdMin > 0.0
    modifies heap
    ensures heap.Valid() && multiset(heap.live) == multiset(old(heap.live)) + (Ptrs(data) + Ptrs(tag))
    ensures Gathered(f, sp, task, n, starts, data, tag, ls, datas, tags)
  {
    hide Finished;
    hide Gathered;
    hide Configs;
    hide MergeAll;
    var ts := RunThreads(heap, f, sp, task, n, starts);
    data, tag := Gather(ts);
    ls := Spliced(ts);
    datas, tags := Datas(ts), Tags(ts);
    FinishedGathered(f, sp, task, n, ts, starts);
  }

  // ----- combining, choosing, freeing -----

  function ChoiceOf(t: TagPtr): TagChoice {
    if t.NoTag? then NoTagArray else TagArray(t.cell.arr)
  }

  function Orgs(prob: Problem, t: TagPtr, data: seq<Cell>): (r: seq<Org>)
    requires prob.isCache ==> t.Tag?
    ensures |r| == |data|
    ensures forall i :: 0 <= i < |data| ==> r[i] == Org(t, data[i], PerfOf(prob, ChoiceOf(t), data[i].arr))
  {
    seq(|data|, i requires 0 <= i < |data| => Org(t, data[i], PerfOf(prob, ChoiceOf(t), data[i].arr)))
  }

  lemma OrgsSnoc(prob: Problem, t: TagPtr, data: seq<Cell>, i: nat)
    requires (prob.isCache ==> t.Tag?) && i < |data|
    ensures Orgs(prob, t, data[..i + 1])
         == Orgs(prob, t, data[..i]) + [Org(t, data[i], PerfOf(prob, ChoiceOf(t), data[i].arr))]
  {
  }

  lemma OrgPerfsSnoc(s: seq<Org>, o: Org)
    ensures MinOver(OrgPerfs(s + [o]), NO_MINIMA) == MinOver(OrgPerfs(s), NO_MINIMA).Update(o.perf)
  {
    assert OrgPerfs(s + [o]) == OrgPerfs(s) + [o.perf];
    MinOverAppend(OrgPerfs(s), [o.perf], NO_MINIMA);
    var m := MinOver(OrgPerfs(s), NO_MINIMA);
    assert MinOver([o.perf], m) == MinOver([o.perf][1..], m.Update([o.perf][0]));
  }

  /** Pair the tag array with every data array, keeping the minima of the combinations. */
  method BuildSolutions(prob: Problem, t: TagPtr, data: seq<Cell>) returns (sols: List<Org>, cacheMin: Minima)
    requires prob.isCache ==> t.Tag?
    ensures fresh(sols) && sols.elems == Orgs(prob, t, data)
    ensures cacheMin == MinOver(OrgPerfs(sols.elems), NO_MINIMA)
  {
    hide PerfOf;
    sols := new List<Org>();
    cacheMin := NO_MINIMA;
    var i := 0;
    while i < |data|
      invariant 0 <= i <= |data| && sols.elems == Orgs(prob, t, data[..i])
      invariant cacheMin == MinOver(OrgPerfs(sols.elems), NO_MINIMA)
    {
      var org := Org(t, data[i], PerfOf(prob, ChoiceOf(t), data[i].arr));
      OrgsSnoc(prob, t, data, i);
      OrgPerfsSnoc(sols.elems, org);
      cacheMin := cacheMin.Update(org.perf);
      sols.PushBack(org);
      i := i + 1;
    }
    assert data[..i] == data;
  }

  /** The entries with a given pointer. */
  ghost function Keep(s: seq<Cell>, p: nat): seq<Cell> {
    if s == [] then [] else (if s[0].ptr == p then [s[0]] else []) + Keep(s[1..], p)
  }

  lemma {:induction false} KeepPtrs(s: seq<Cell>, p: nat)
    ensures Ptrs(Keep(s, p))[p] == Ptrs(s)[p]
    ensures forall x :: x != p ==> Ptrs(Keep(s, p))[x] == 0
  {
    if s != [] {
      KeepPtrs(s[1..], p);
      KeepCons(s, p);
    }
  }

  lemma KeepCons(s: seq<Cell>, p: nat)
    requires s != []
    ensures s[0].ptr == p ==> Ptrs(Keep(s, p)) == multiset{p} + Ptrs(Keep(s[1..], p))
    ensures s[0].ptr != p ==> Ptrs(Keep(s, p)) == Ptrs(Keep(s[1..], p))
  {
    hide Ptrs;
    var k := Keep(s[1..], p);
    if s[0].ptr == p {
      assert Keep(s, p) == [s[0]] + k;
      PtrsCons(s[0], k);
    } else {
      assert Keep(s, p) == [] + k == k;
    }
  }

  /** Live arrays are live once, so exactly one entry has the chosen pointer. */
  lemma ChosenOnce(live: set<nat>, others: multiset<nat>, s: seq<Cell>, i: nat)
    requires i < |s| && multiset(live) == others + Ptrs(s)
    ensures Ptrs(Keep(s, s[i].ptr)) == multiset{s[i].ptr}
  {
    var p := s[i].ptr;
    KeepPtrs(s, p);
    PtrsMember(s, i);
    assert multiset(live)[p] <= 1;
  }

  /** Free every data array but the chosen one. */
  method FreeOthers(heap: Heap, data: seq<Cell>, p: nat, ghost others: multiset<nat>)
    requires heap.Valid() && multiset(heap.live) == others + Ptrs(data)
    modifies heap
    ensures heap.Valid() && multiset(heap.live) == others + Ptrs(Keep(data, p))
  {
    hide Ptrs;
    hide Keep;
    ghost var kept: multiset<nat> := multiset{};
    var i := 0;
    EmptyBags(p);
    assert data[0..] == data;
    while i < |data|
      invariant 0 <= i <= |data| && heap.Valid()
      invariant multiset(heap.live) == others + kept + Ptrs(data[i..])
      invariant kept + Ptrs(Keep(data[i..], p)) == Ptrs(Keep(data, p))
    {
      ghost var rest := Ptrs(data[i + 1..]);
      assert data[i..] == [data[i]] + data[i + 1..] && data[i..][1..] == data[i + 1..];
      PtrsCons(data[i], data[i + 1..]);
      KeepCons(data[i..], p);
      if data[i].ptr != p {
        MoveFirst(others + kept, multiset{data[i].ptr}, rest);
        DeleteOne(heap, data[i].ptr, others + kept + rest);
      } else {
        kept := kept + multiset{data[i].ptr};
      }
      i := i + 1;
    }
    assert data[i..] == [];
  }

  lemma EmptyBags(p: nat)
    ensures Ptrs([]) == multiset{} && Ptrs(Keep([], p)) == multiset{}
  {
  }

  lemma MoveFirst(a: multiset<nat>, b: multiset<nat>, c: multiset<nat>)
    ensures a + (b + c) == a + c + b
  {
  }

  lemma PtrsCons(c: Cell, s: seq<Cell>)
    ensures Ptrs([c] + s) == multiset{c.ptr} + Ptrs(s)
  {
    assert ([c] + s)[1..] == s;
  }

  lemma CombinedPerfs(prob: Problem, t: TagPtr, data: seq<Cell>)
    requires prob.isCache ==> t.Tag?
    ensures OrgPerfs(Orgs(prob, t, data)) == Combined(prob, ChoiceOf(t), Arrs(data))
  {
  }

  lemma CombinedPositive(prob: Problem, t: TagChoice, near: seq<MemArray>)
    requires prob.isCache ==> t.TagArray? && PositiveMetrics(t.arr.metrics)
    requires PositiveArrays(near)
    ensures MinOver(Combined(prob, t, near), NO_MINIMA).Positive()
  {
    var perfs := Combined(prob, t, near);
    forall i | 0 <= i < |perfs| ensures perfs[i].Positive() {
      PerfPositive(prob, t, near[i]);
    }
    MinOverPositive(perfs, NO_MINIMA);
  }

  /** Choose among the filtered data arrays combined with the tag array, and free the data arrays not chosen. */
  method ChooseOrganization(heap: Heap, prob: Problem, t: TagPtr, data: seq<Cell>, ghost others: multiset<nat>)
    returns (res: Choice, ghost i: int)
    requires heap.Valid() && (prob.isCache ==> t.Tag? && PositiveMetrics(t.cell.arr.metrics))
    requires PositiveArrays(Arrs(data)) && multiset(heap.live) == others + Ptrs(data)
    modifies heap
    ensures Picks(prob, ChoiceOf(t), Arrs(data), i)
    ensures heap.Valid()
    ensures data == [] ==> res == EmptyList
    ensures data != [] && !(0 <= i < |data|) ==> res == NoneMeetsCriteria
    ensures 0 <= i < |data| ==>
              && res.Chosen? && res.org.data == data[i] && res.org.tag == t
              && Figured(prob, ChoiceOf(t), data[i].arr, res.org.perf)
              && multiset(heap.live) == others + multiset{data[i].ptr}
  {
    hide PerfOf;
    hide PositiveMetrics;
    var sols, cacheMin := BuildSolutions(prob, t, data);
    CombinedPerfs(prob, t, data);
    CombinedPositive(prob, ChoiceOf(t), Arrs(data));
    res, i := FindOptimalUca(prob.mode, cacheMin, prob.objective, sols);
    if res.Chosen? {
      FiguredExactly(prob, ChoiceOf(t), data[i].arr, res.org.perf);
      ChosenOnce(heap.live, others, data, i);
      FreeOthers(heap, data, res.org.data.ptr, others);
    }
  }

  // ----- the run -----

  function FreshLists(n: nat): (ls: seq<Lists>)
    ensures |ls| == n && forall t :: 0 <= t < n ==> ls[t] == NO_LISTS
  {
    seq(n, t => NO_LISTS)
  }

  lemma NothingRecorded(res: seq<Minima>, lists: seq<seq<Cell>>)
    requires |res| == |lists|
    requires forall t :: 0 <= t < |res| ==> res[t] == NO_MINIMA && lists[t] == []
    ensures Recorded(res, lists) && MergeAll(lists) == []
  {
    MergeNothing(lists);
    assert Perfs(Arrs([])) == [];
  }

  /** The tag search (for a cache), then the data search (unless fully associative), then the merged minima. */
  method SearchArrays(heap: Heap, f: Circuit, prob: Problem, n: nat)
    returns (data: seq<Cell>, tag: seq<Cell>, dMin: Minima, tMin: Minima)
    requires heap.Valid() && n >= 1 && prob.Searchable()
    modifies heap
    ensures heap.Valid() && multiset(heap.live) == multiset(old(heap.live)) + (Ptrs(data) + Ptrs(tag))
    ensures Arrs(data) == DataList(f, prob, n) && Arrs(tag) == TagList(f, prob, n)
    ensures dMin == MinOver(Perfs(Arrs(data)), NO_MINIMA)
    ensures prob.isCache ==> tMin == MinOver(Perfs(Arrs(tag)), NO_MINIMA)
  {
    hide MergeAll;
    hide ParallelList;
    hide MinOver;
    hide Ptrs;
    hide Recorded;
    var ls := FreshLists(n);
    ghost var datas: seq<seq<Cell>>, tags: seq<seq<Cell>> := seq(n, t => []), seq(n, t => []);
    data, tag := [], [];
    EmptyBags(0);
    NothingRecorded(DataRes(ls), datas);
    if prob.isCache {
      data, tag, ls, datas, tags := Search(heap, f, prob.tagSpace, Task(true, prob.fullyAssoc), n, ls);
    }
    if !prob.fullyAssoc {
      // Clearing the data list leaks nothing: the tag search left it empty.
      assert data == [];
      ghost var tagRes, between := TagRes(ls), multiset(heap.live);
      var noTags;
      ghost var unused;
      data, noTags, ls, datas, unused := Search(heap, f, prob.dataSpace, Task(false, prob.fullyAssoc), n, ls);
      assert TagRes(ls) == tagRes && noTags == [];
    }
    dMin := MergeRecorded(DataRes(ls), datas);
    if prob.isCache {
      tMin := MergeRecorded(TagRes(ls), tags);
    } else {
      tMin := NO_MINIMA;
    }
  }

  method MergeRecorded(res: seq<Minima>, ghost lists: seq<seq<Cell>>) returns (m: Minima)
    requires Recorded(res, lists)
    ensures m == MinOver(Perfs(Arrs(MergeAll(lists))), NO_MINIMA)
  {
    m := MergeMinima(res, lists);
  }

  /** The arrays still allocated on behalf of the caller. */
  ghost function ChosenPtrs(c: Choice): multiset<nat> {
    if c.Chosen? then multiset{c.org.data.ptr} + Held(c.org.tag) else multiset{}
  }

  ghost predicate Describes(c: Choice, v: Verdict) {
    if c.Chosen? then v == Solved(c.org.data.arr, ChoiceOf(c.org.tag)) else !v.Solved?
  }

  lemma ListsPositive(f: Circuit, prob: Problem, n: nat)
    requires n >= 1 && prob.Searchable() && PositiveCircuit(f)
    ensures PositiveArrays(DataList(f, prob, n)) && PositiveArrays(TagList(f, prob, n))
    ensures MinOver(Perfs(DataList(f, prob, n)), NO_MINIMA).Positive()
    ensures MinOver(Perfs(TagList(f, prob, n)), NO_MINIMA).Positive()
  {
    ParallelPositive(prob.tagSpace, f, true, n);
    ParallelPositive(prob.dataSpace, f, false, n);
    MinimaPositive(DataList(f, prob, n));
    MinimaPositive(TagList(f, prob, n));
  }

  lemma {:induction false} NearPositive(s: seq<MemArray>, m: Minima)
    requires m.Positive() && PositiveArrays(s)
    ensures PositiveArrays(NearArrays(s, m))
  {
    if s != [] {
      NearPositive(s[1..], m);
    }
  }

  /** Filter the tag list down to one array; NoTag when none meets the criteria. */
  method PickTag(heap: Heap, prob: Problem, tag: seq<Cell>, tMin: Minima, ghost others: multiset<nat>)
    returns (t: TagPtr, ghost r: int)
    requires heap.Valid() && PositiveArrays(Arrs(tag)) && tMin == MinOver(Perfs(Arrs(tag)), NO_MINIMA)
    requires multiset(heap.live) == others + Ptrs(tag)
    modifies heap
    ensures PicksTag(prob, Arrs(tag), r) && heap.Valid()
    ensures t.Tag? <==> 0 <= r < |tag|
    ensures t.Tag? ==> t.cell == tag[r] && multiset(heap.live) == others + Held(t)
  {
    MinimaPositive(Arrs(tag));
    var list := new List<Cell>();
    list.elems := tag;
    var ok;
    ok, r := FilterTagArr(heap, list, tMin, prob.objective, others);
    if ok {
      t := Tag(list.Back());
      HeldBounds(t);
      assert list.elems == [t.cell];
    } else {
      t := NoTag;
    }
  }

  /**
   solve.  For every circuit and problem, every number of threads and every interleaving: the verdict is the one
   determined by the circuit, the problem and the number of threads, and of all the arrays the threads allocated
   exactly the chosen data array and the chosen tag array are still live.
   */
  method Solve(heap: Heap, f: Circuit, prob: Problem, n: nat) returns (res: Choice, ghost v: Verdict)
    requires heap.Valid() && n >= 1 && prob.Searchable()
    requires PositiveCircuit(f)
    modifies heap
    ensures Outcome(f, prob, n, v) && Describes(res, v)
    ensures res.Chosen? ==> multiset(heap.live) == multiset(old(heap.live)) + ChosenPtrs(res)
  {
    hide MinOver;
    hide Ptrs;
    hide PositiveMetrics;
    hide Far;
    hide PerfOf;
    hide Figured;
    hide IsChoice;
    hide IsLastBest;
    ghost var base := multiset(heap.live);
    var dataCells, tagCells, dMin, tMin := SearchArrays(heap, f, prob, n);
    ListsPositive(f, prob, n);
    var dataArr := new List<Cell>();
    dataArr.elems := dataCells;
    Swap(base, Ptrs(dataCells), Ptrs(tagCells));
    var ok := FilterDataArr(heap, dataArr, dMin, base + Ptrs(tagCells));
    if !ok {
      return EmptyList, NoDataArrays;
    }
    ghost var near := NearArrays(DataList(f, prob, n), dMin);
    SurvivorArrays(dataCells, dMin);
    NearPositive(DataList(f, prob, n), dMin);
    var data := dataArr.elems;
    assert Arrs(data) == near;
    var t := NoTag;
    ghost var r: int := -1;
    HeldBounds(NoTag);
    if prob.isCache {
      Swap(base, Ptrs(tagCells), Ptrs(data));
      t, r := PickTag(heap, prob, tagCells, tMin, base + Ptrs(data));
      if t.NoTag? {
        v := NoTagArrays;
        assert TagThenData(prob, TagList(f, prob, n), r, near, v);
        return NoneMeetsCriteria, v;
      }
      assert PositiveMetrics(Arrs(tagCells)[r].metrics);
      Swap(base, Held(t), Ptrs(data));
    } else {
      assert tagCells == [];
      EmptyBags(0);
    }
    ghost var i;
    res, i := ChooseOrganization(heap, prob, t, data, base + Held(t));
    v := VerdictAt(ChoiceOf(t), near, i);
    assert PicksWith(prob, ChoiceOf(t), near, i, v);
    if res.Chosen? {
      Swap(base, Held(t), multiset{res.org.data.ptr});
    }
  }

  lemma Swap(a: multiset<nat>, b: multiset<nat>, c: multiset<nat>)
    ensures a + (b + c) == (a + c) + b
    ensures a + b + c == a + c + b
    ensures a + b + c == a + (c + b)
  {
  }
}
