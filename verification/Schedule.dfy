/**
 What the workers' lists come to: which arrays a worker keeps under each sort key, in which order, and the list that
 sorting each worker's list and merging the lists in turn gives, whatever the schedule.
 */
module Schedule {
  import opened BasicCircuit
  import opened Parameter
  import opened DesignSpace
  import opened MemArray
  import opened StableMerge

  /** The circuit model: a rejected partition, or its bitline-mux degree and metrics.  It is not told the wire type. */
  datatype Calc = Invalid | Valid(deg: nat, metrics: Metrics)

  type Circuit = (bool, Partition) -> Calc

  /** The sort key of an accepted partition; it holds the degree, not the column multiplexing itself. */
  function KeyOf(p: Partition, deg: nat): Key {
    Key(p.nspd, p.ndwl, p.ndbl, deg, p.sam1, p.sam2)
  }

  function ArrayOf(c: Config, v: Calc): MemArray
    requires v.Valid?
  {
    MemArray(KeyOf(c.part, v.deg), v.metrics, c.wt)
  }

  /** The circuit model starts by checking the geometry of the partition, and takes its degree from it. */
  ghost predicate ChecksGeometry(f: Circuit, ip: Ip, isTag: bool, isMainMem: bool)
    requires ip.Positive()
  {
    forall p: Partition :: p.Positive() && f(isTag, p).Valid? ==>
      Accepted(ip, isTag, isMainMem, p) && f(isTag, p).deg == DegBlMux(ip, isTag, p)
  }

  function EvalOne(f: Circuit, isTag: bool, c: Config): seq<MemArray> {
    var v := f(isTag, c.part);
    if v.Valid? then [ArrayOf(c, v)] else []
  }

  /** The arrays a worker keeps for a sequence of points. */
  function Eval(f: Circuit, isTag: bool, cs: seq<Config>): seq<MemArray> {
    if cs == [] then [] else EvalOne(f, isTag, cs[0]) + Eval(f, isTag, cs[1..])
  }

  lemma {:induction false} EvalAppend(f: Circuit, isTag: bool, a: seq<Config>, b: seq<Config>)
    ensures Eval(f, isTag, a + b) == Eval(f, isTag, a) + Eval(f, isTag, b)
  {
    if a == [] {
      assert a + b == b;
    } else {
      assert (a + b)[1..] == a[1..] + b;
      EvalAppend(f, isTag, a[1..], b);
    }
  }

  ghost function KeyView(f: Circuit, isTag: bool, cs: seq<Config>, k: Key): seq<MemArray> {
    OfKey(Eval(f, isTag, cs), k)
  }

  lemma KeyViewAppend(f: Circuit, isTag: bool, a: seq<Config>, b: seq<Config>, k: Key)
    ensures KeyView(f, isTag, a + b, k) == KeyView(f, isTag, a, k) + KeyView(f, isTag, b, k)
  {
    EvalAppend(f, isTag, a, b);
    OfKeyAppend(Eval(f, isTag, a), Eval(f, isTag, b), k);
  }

  lemma KeyViewNone(f: Circuit, isTag: bool, k: Key)
    ensures KeyView(f, isTag, [], k) == []
  {
  }

  // ----- what a worker keeps of one key -----

  /** The partition at loop index iter whose remaining parameters are those of key k. */
  function PartAt(sp: Space, iter: nat, k: Key): Partition {
    Partition(k.nspd, Pow2(WlExp(sp, iter)), Pow2(BlExp(sp, iter)), Pow2(CmExp(sp, iter)), k.sam1, k.sam2)
  }

  /** Partition p is accepted with key k. */
  predicate Keyed(f: Circuit, isTag: bool, p: Partition, k: Key) {
    f(isTag, p).Valid? && KeyOf(p, f(isTag, p).deg) == k
  }

  function OneView(sp: Space, f: Circuit, isTag: bool, k: Key, iter: nat, wt: nat): seq<MemArray> {
    var p := PartAt(sp, iter, k);
    if Keyed(f, isTag, p, k) then [ArrayOf(Config(p, wt), f(isTag, p))] else []
  }

  lemma PointView(sp: Space, f: Circuit, isTag: bool, nspd: real, wt: nat, iter: nat, j: nat, i: nat, k: Key)
    ensures KeyView(f, isTag, [Point(sp, nspd, wt, iter, j, i)], k)
         == if nspd == k.nspd && Pow2(j) == k.sam1 && Pow2(i) == k.sam2 then OneView(sp, f, isTag, k, iter, wt) else []
  {
    var c := Point(sp, nspd, wt, iter, j, i);
    assert Eval(f, isTag, [c]) == EvalOne(f, isTag, c) + Eval(f, isTag, []) == EvalOne(f, isTag, c);
    if f(isTag, c.part).Valid? {
      var x := ArrayOf(c, f(isTag, c.part));
      OfKeyCons(x, [], k);
      assert [x] + [] == [x];
    }
  }

  /** e is the exponent of m, or negative when m is no power of two. */
  ghost predicate ExponentOf(m: nat, e: int) {
    if e >= 0 then m == Pow2(e) else forall i: nat :: m != Pow2(i)
  }

  lemma FindExponent(m: nat) returns (e: int)
    ensures ExponentOf(m, e)
  {
    if i: nat :| m == Pow2(i) {
      e := i;
    } else {
      e := -1;
    }
  }

  lemma ExponentUnique(m: nat, e: int, i: nat)
    requires ExponentOf(m, e)
    ensures Pow2(i) == m <==> e == i
  {
    if e >= 0 && Pow2(i) == m {
      Pow2Injective(e, i);
    }
  }

  /** A value the multiplexing loops run through. */
  ghost predicate IsMux(sp: Space, m: nat) {
    exists x: nat :: x <= sp.cm && m == Pow2(x)
  }

  lemma MuxByExponent(sp: Space, m: nat, e: int)
    requires ExponentOf(m, e)
    ensures IsMux(sp, m) <==> 0 <= e <= sp.cm
  {
    if IsMux(sp, m) {
      var x: nat :| x <= sp.cm && m == Pow2(x);
      ExponentUnique(m, e, x);
    }
  }

  lemma {:induction false} Sam2View(sp: Space, f: Circuit, isTag: bool, nspd: real, wt: nat, iter: nat, j: nat, i: nat,
                                    k: Key, y: int)
    requires ExponentOf(k.sam2, y)
    ensures KeyView(f, isTag, Sam2From(sp, nspd, wt, iter, j, i), k)
         == if nspd == k.nspd && Pow2(j) == k.sam1 && i <= y <= sp.cm then OneView(sp, f, isTag, k, iter, wt) else []
    decreases sp.cm + 1 - i
  {
    hide OneView;
    hide Point;
    if i <= sp.cm {
      Sam2View(sp, f, isTag, nspd, wt, iter, j, i + 1, k, y);
      PointView(sp, f, isTag, nspd, wt, iter, j, i, k);
      ExponentUnique(k.sam2, y, i);
      KeyViewAppend(f, isTag, [Point(sp, nspd, wt, iter, j, i)], Sam2From(sp, nspd, wt, iter, j, i + 1), k);
    }
  }

  lemma {:induction false} Sam1View(sp: Space, f: Circuit, isTag: bool, nspd: real, wt: nat, iter: nat, j: nat,
                                    k: Key, x: int, y: int)
    requires ExponentOf(k.sam1, x) && ExponentOf(k.sam2, y)
    ensures KeyView(f, isTag, Sam1From(sp, nspd, wt, iter, j), k)
         == if nspd == k.nspd && j <= x <= sp.cm && 0 <= y <= sp.cm then OneView(sp, f, isTag, k, iter, wt) else []
    decreases sp.cm + 1 - j
  {
    hide OneView;
    if j <= sp.cm {
      Sam1View(sp, f, isTag, nspd, wt, iter, j + 1, k, x, y);
      Sam2View(sp, f, isTag, nspd, wt, iter, j, 0, k, y);
      ExponentUnique(k.sam1, x, j);
      KeyViewAppend(f, isTag, Sam2From(sp, nspd, wt, iter, j, 0), Sam1From(sp, nspd, wt, iter, j + 1), k);
    }
  }

  ghost predicate Muxed(sp: Space, k: Key) {
    IsMux(sp, k.sam1) && IsMux(sp, k.sam2)
  }

  /** The two inner loops keep at most one array of a key. */
  lemma IndexView(sp: Space, f: Circuit, isTag: bool, nspd: real, wt: nat, iter: nat, k: Key)
    ensures KeyView(f, isTag, Sam1From(sp, nspd, wt, iter, 0), k)
         == if nspd == k.nspd && Muxed(sp, k) then OneView(sp, f, isTag, k, iter, wt) else []
  {
    var x := FindExponent(k.sam1);
    var y := FindExponent(k.sam2);
    Sam1View(sp, f, isTag, nspd, wt, iter, 0, k, x, y);
    MuxByExponent(sp, k.sam1, x);
    MuxByExponent(sp, k.sam2, y);
  }

  /** Of key k, a stride from iter by n: one array for every index at which the key is accepted. */
  function StrideView(sp: Space, f: Circuit, isTag: bool, k: Key, iter: nat, n: nat, wt: nat): seq<MemArray>
    requires n >= 1
    decreases sp.Niter() - iter
  {
    if iter >= sp.Niter() then []
    else OneView(sp, f, isTag, k, iter, wt) + StrideView(sp, f, isTag, k, iter + n, n, wt)
  }

  lemma {:induction false} IterView(sp: Space, f: Circuit, isTag: bool, nspd: real, wt: nat, iter: nat, n: nat, k: Key)
    requires n >= 1
    ensures KeyView(f, isTag, IterFrom(sp, nspd, wt, iter, n), k)
         == if nspd == k.nspd && Muxed(sp, k) then StrideView(sp, f, isTag, k, iter, n, wt) else []
    decreases sp.Niter() - iter
  {
    hide OneView;
    hide Muxed;
    if iter < sp.Niter() {
      IndexView(sp, f, isTag, nspd, wt, iter, k);
      IterView(sp, f, isTag, nspd, wt, iter + n, n, k);
      KeyViewAppend(f, isTag, Sam1From(sp, nspd, wt, iter, 0), IterFrom(sp, nspd, wt, iter + n, n), k);
    }
  }

  /** Of key k, the stride once for every wire type from wt on. */
  function WiresView(sp: Space, f: Circuit, isTag: bool, k: Key, tid: nat, n: nat, wt: nat): seq<MemArray>
    requires n >= 1
    decreases sp.wtMax + 1 - wt
  {
    if wt > sp.wtMax then []
    else StrideView(sp, f, isTag, k, tid, n, wt) + WiresView(sp, f, isTag, k, tid, n, wt + 1)
  }

  lemma {:induction false} WtView(sp: Space, f: Circuit, isTag: bool, nspd: real, wt: nat, tid: nat, n: nat, k: Key)
    requires n >= 1
    ensures KeyView(f, isTag, WtFrom(sp, nspd, wt, tid, n), k)
         == if nspd == k.nspd && Muxed(sp, k) then WiresView(sp, f, isTag, k, tid, n, wt) else []
    decreases sp.wtMax + 1 - wt
  {
    hide KeyView;
    hide IterFrom;
    hide StrideView;
    hide Muxed;
    if wt <= sp.wtMax {
      IterView(sp, f, isTag, nspd, wt, tid, n, k);
      WtView(sp, f, isTag, nspd, wt + 1, tid, n, k);
      KeyViewAppend(f, isTag, IterFrom(sp, nspd, wt, tid, n), WtFrom(sp, nspd, wt + 1, tid, n), k);
    } else {
      KeyViewNone(f, isTag, k);
    }
  }

  lemma {:induction false} SpdView(sp: Space, f: Circuit, isTag: bool, nspd: real, tid: nat, n: nat, k: Key)
    requires n >= 1 && nspd > 0.0
    ensures KeyView(f, isTag, SpdFrom(sp, nspd, tid, n), k)
         == if IsSpd(sp, nspd, k.nspd) && Muxed(sp, k) then WiresView(sp, f, isTag, k, tid, n, sp.wtMin) else []
    decreases Doublings(nspd, sp.spdMax)
  {
    hide WiresView;
    hide Muxed;
    if nspd <= sp.spdMax {
      DoublingShrinks(nspd, sp.spdMax);
      WtView(sp, f, isTag, nspd, sp.wtMin, tid, n, k);
      SpdView(sp, f, isTag, 2.0 * nspd, tid, n, k);
      if IsSpd(sp, 2.0 * nspd, k.nspd) {
        SpdAtLeast(sp, 2.0 * nspd, k.nspd);
      }
      KeyViewAppend(f, isTag, WtFrom(sp, nspd, sp.wtMin, tid, n), SpdFrom(sp, 2.0 * nspd, tid, n), k);
    }
  }

  /** Key k lies within the loops that do not stride. */
  ghost predicate InLoops(sp: Space, k: Key)
    requires sp.spdMin > 0.0
  {
    IsSpd(sp, sp.spdMin, k.nspd) && Muxed(sp, k)
  }

  /** Exactly what worker tid of n keeps of key k: its share of the indices, once per wire type. */
  lemma WorkerView(sp: Space, f: Circuit, isTag: bool, tid: nat, n: nat, k: Key)
    requires n >= 1 && sp.spdMin > 0.0
    ensures KeyView(f, isTag, Configs(sp, tid, n), k)
         == if InLoops(sp, k) then WiresView(sp, f, isTag, k, tid, n, sp.wtMin) else []
  {
    SpdView(sp, f, isTag, sp.spdMin, tid, n, k);
  }

  // ----- merging the workers' lists -----

  /** The main thread's loop: sort each worker's list and merge it in, worker by worker. */
  function MergeAll(lists: seq<seq<Cell>>): seq<Cell> {
    if lists == [] then [] else Merge(MergeAll(lists[..|lists| - 1]), Sort(lists[|lists| - 1]))
  }

  lemma {:induction false} MergeAllSorted(lists: seq<seq<Cell>>)
    ensures Sorted(Arrs(MergeAll(lists)))
  {
    if lists != [] {
      MergeAllSorted(lists[..|lists| - 1]);
      SortSorted(lists[|lists| - 1]);
      MergeSorted(MergeAll(lists[..|lists| - 1]), Sort(lists[|lists| - 1]));
    }
  }

  /** What worker tid of n hands over. */
  ghost predicate WorkerLists(sp: Space, f: Circuit, isTag: bool, n: nat, lists: seq<seq<Cell>>)
    requires sp.spdMin > 0.0 && |lists| <= n
  {
    forall t :: 0 <= t < |lists| ==> Arrs(lists[t]) == Eval(f, isTag, Configs(sp, t, n))
  }

  function AsCells(s: seq<MemArray>): (r: seq<Cell>)
    ensures Arrs(r) == s
  {
    seq(|s|, i requires 0 <= i < |s| => Cell(0, s[i]))
  }

  /** The list of one sequential worker, sorted. */
  function SequentialList(sp: Space, f: Circuit, isTag: bool): seq<MemArray>
    requires sp.spdMin > 0.0
  {
    Arrs(Sort(AsCells(Eval(f, isTag, Configs(sp, 0, 1)))))
  }

  lemma SequentialListSpec(sp: Space, f: Circuit, isTag: bool)
    requires sp.spdMin > 0.0
    ensures Sorted(SequentialList(sp, f, isTag))
    ensures forall k :: OfKey(SequentialList(sp, f, isTag), k) == KeyView(f, isTag, Configs(sp, 0, 1), k)
  {
    var s := AsCells(Eval(f, isTag, Configs(sp, 0, 1)));
    SortSorted(s);
    forall k ensures OfKey(Arrs(Sort(s)), k) == KeyView(f, isTag, Configs(sp, 0, 1), k) {
      SortOfKey(s, k);
    }
  }

  // ----- what the merged list depends on -----

  /** What n workers hand over, with the pointers left out. */
  function WorkerCells(sp: Space, f: Circuit, isTag: bool, n: nat): (r: seq<seq<Cell>>)
    requires n >= 1 && sp.spdMin > 0.0
    ensures |r| == n && WorkerLists(sp, f, isTag, n, r)
  {
    seq(n, t requires 0 <= t < n => AsCells(Eval(f, isTag, Configs(sp, t, n))))
  }

  /** The merged list of n workers. */
  function ParallelList(sp: Space, f: Circuit, isTag: bool, n: nat): seq<MemArray>
    requires n >= 1 && sp.spdMin > 0.0
  {
    Arrs(MergeAll(WorkerCells(sp, f, isTag, n)))
  }

  ghost function Views(lists: seq<seq<Cell>>, k: Key): seq<MemArray> {
    if lists == [] then [] else Views(lists[..|lists| - 1], k) + OfKey(Arrs(lists[|lists| - 1]), k)
  }

  lemma {:induction false} MergeAllOfKey(lists: seq<seq<Cell>>, k: Key)
    ensures OfKey(Arrs(MergeAll(lists)), k) == Views(lists, k)
  {
    if lists != [] {
      var last := |lists| - 1;
      MergeAllOfKey(lists[..last], k);
      MergeAllSorted(lists[..last]);
      SortSorted(lists[last]);
      SortOfKey(lists[last], k);
      MergeOfKey(MergeAll(lists[..last]), Sort(lists[last]), k);
    }
  }

  lemma {:induction false} SameViews(a: seq<seq<Cell>>, b: seq<seq<Cell>>, k: Key)
    requires |a| == |b| && forall t :: 0 <= t < |a| ==> Arrs(a[t]) == Arrs(b[t])
    ensures Views(a, k) == Views(b, k)
  {
    if a != [] {
      SameViews(a[..|a| - 1], b[..|b| - 1], k);
    }
  }

  /** Whatever the allocator and the scheduler did, the merged list of n workers is the same. */
  lemma MergedIsParallel(sp: Space, f: Circuit, isTag: bool, n: nat, lists: seq<seq<Cell>>)
    requires n >= 1 && |lists| == n && sp.spdMin > 0.0 && WorkerLists(sp, f, isTag, n, lists)
    ensures Arrs(MergeAll(lists)) == ParallelList(sp, f, isTag, n)
  {
    var cells := WorkerCells(sp, f, isTag, n);
    MergeAllSorted(lists);
    MergeAllSorted(cells);
    forall k ensures OfKey(Arrs(MergeAll(lists)), k) == OfKey(Arrs(MergeAll(cells)), k) {
      MergeAllOfKey(lists, k);
      MergeAllOfKey(cells, k);
      SameViews(lists, cells, k);
    }
    SortedUnique(Arrs(MergeAll(lists)), Arrs(MergeAll(cells)));
  }

  /** Every entry of the merged list was some worker's. */
  lemma {:induction false} MergeAllMember(lists: seq<seq<Cell>>, x: Cell)
    requires x in MergeAll(lists)
    ensures exists t :: 0 <= t < |lists| && x in lists[t]
  {
    var last := |lists| - 1;
    var merged, sorted := MergeAll(lists[..last]), Sort(lists[last]);
    MergeKeeps(merged, sorted);
    SortKeeps(lists[last]);
    assert x in multiset(MergeAll(lists));
    if x in multiset(merged) {
      MergeAllMember(lists[..last], x);
      var t :| 0 <= t < last && x in lists[..last][t];
      assert x in lists[t];
    } else {
      assert x in multiset(sorted);
      assert x in lists[last];
    }
  }

  lemma ParallelMember(sp: Space, f: Circuit, isTag: bool, n: nat, x: MemArray)
    requires n >= 1 && sp.spdMin > 0.0 && x in ParallelList(sp, f, isTag, n)
    ensures exists t :: 0 <= t < n && x in Eval(f, isTag, Configs(sp, t, n))
  {
    var cells := WorkerCells(sp, f, isTag, n);
    var merged := MergeAll(cells);
    var i :| 0 <= i < |Arrs(merged)| && Arrs(merged)[i] == x;
    MergeAllMember(cells, merged[i]);
    var t :| 0 <= t < n && merged[i] in cells[t];
    var j :| 0 <= j < |cells[t]| && cells[t][j] == merged[i];
    assert Arrs(cells[t])[j] == x;
  }

  lemma ParallelListSpec(sp: Space, f: Circuit, isTag: bool, n: nat)
    requires n >= 1 && sp.spdMin > 0.0
    ensures Sorted(ParallelList(sp, f, isTag, n))
    ensures forall k :: OfKey(ParallelList(sp, f, isTag, n), k) == Views(WorkerCells(sp, f, isTag, n), k)
  {
    var cells := WorkerCells(sp, f, isTag, n);
    MergeAllSorted(cells);
    forall k ensures OfKey(Arrs(MergeAll(cells)), k) == Views(cells, k) {
      MergeAllOfKey(cells, k);
    }
  }

  // ----- the order of the merged list, field by field -----

  /** No later than b by Nspd, then Ndwl, then Ndbl, then the degree, then the two multiplexings. */
  ghost predicate InOrder(a: Key, b: Key) {
    && a.nspd <= b.nspd
    && (a.nspd == b.nspd ==> a.ndwl <= b.ndwl)
    && (a.nspd == b.nspd && a.ndwl == b.ndwl ==> a.ndbl <= b.ndbl)
    && (a.nspd == b.nspd && a.ndwl == b.ndwl && a.ndbl == b.ndbl ==> a.deg <= b.deg)
    && (a.nspd == b.nspd && a.ndwl == b.ndwl && a.ndbl == b.ndbl && a.deg == b.deg ==> a.sam1 <= b.sam1)
    && (a.nspd == b.nspd && a.ndwl == b.ndwl && a.ndbl == b.ndbl && a.deg == b.deg && a.sam1 == b.sam1 ==>
          a.sam2 <= b.sam2)
  }

  /** The merged list of any number of workers goes up by the fields of the key in this order of significance. */
  lemma MergedInOrder(sp: Space, f: Circuit, isTag: bool, n: nat, i: nat, j: nat)
    requires n >= 1 && sp.spdMin > 0.0 && i < j < |ParallelList(sp, f, isTag, n)|
    ensures InOrder(ParallelList(sp, f, isTag, n)[i].key, ParallelList(sp, f, isTag, n)[j].key)
  {
    hide ParallelList;
    ParallelListSpec(sp, f, isTag, n);
  }
}
