/**
 When the merged list depends on the number of workers.

 A key may be accepted at several loop indices.  One worker meets all of them for each wire type in turn; several
 workers meet some of them each, for all wire types.  So the order of wire types within one key is at stake, and
 nothing else.
 */
module ThreadCount {
  import opened DesignSpace
  import opened MemArray
  import opened StableMerge
  import opened Schedule

  /** Key k is accepted at loop index iter. */
  ghost predicate Home(sp: Space, f: Circuit, isTag: bool, k: Key, iter: nat)
    requires sp.spdMin > 0.0
  {
    iter < sp.Niter() && InLoops(sp, k) && Keyed(f, isTag, PartAt(sp, iter, k), k)
  }

  /** The indices at which a key is accepted all fall to one of n workers. */
  ghost predicate OneShare(sp: Space, f: Circuit, isTag: bool, n: nat)
    requires sp.spdMin > 0.0 && n >= 1
  {
    forall k: Key, g: nat, h: nat :: Home(sp, f, isTag, k, g) && Home(sp, f, isTag, k, h) ==> g % n == h % n
  }

  /** No two loop indices hold accepted partitions of equal key. */
  ghost predicate NoTwins(sp: Space, f: Circuit, isTag: bool)
    requires sp.spdMin > 0.0
  {
    forall k: Key, g: nat, h: nat :: Home(sp, f, isTag, k, g) && Home(sp, f, isTag, k, h) ==> g == h
  }

  /** A loop index is determined by the three powers it stands for. */
  lemma SameIndex(sp: Space, k: Key, g: nat, h: nat)
    requires PartAt(sp, g, k) == PartAt(sp, h, k)
    ensures g == h
  {
    PointInjective(sp, k.nspd, 0, g, 0, 0, k.nspd, 0, h, 0, 0);
  }

  // ----- the merged list, key by key -----

  /** Of key k, what the first m of n workers keep, worker by worker. */
  function FirstWorkers(sp: Space, f: Circuit, isTag: bool, k: Key, n: nat, m: nat): seq<MemArray>
    requires n >= 1
  {
    if m == 0 then [] else FirstWorkers(sp, f, isTag, k, n, m - 1) + WiresView(sp, f, isTag, k, m - 1, n, sp.wtMin)
  }

  lemma {:induction false} ViewsOfWorkers(sp: Space, f: Circuit, isTag: bool, k: Key, n: nat, m: nat)
    requires n >= 1 && m <= n && sp.spdMin > 0.0
    ensures Views(WorkerCells(sp, f, isTag, n)[..m], k)
         == if InLoops(sp, k) then FirstWorkers(sp, f, isTag, k, n, m) else []
  {
    hide InLoops;
    hide WiresView;
    hide Configs;
    if m > 0 {
      var cells := WorkerCells(sp, f, isTag, n);
      ViewsOfWorkers(sp, f, isTag, k, n, m - 1);
      WorkerView(sp, f, isTag, m - 1, n, k);
      assert cells[..m][..m - 1] == cells[..m - 1] && cells[..m][m - 1] == cells[m - 1];
    }
  }

  lemma ParallelView(sp: Space, f: Circuit, isTag: bool, n: nat, k: Key)
    requires n >= 1 && sp.spdMin > 0.0
    ensures OfKey(ParallelList(sp, f, isTag, n), k)
         == if InLoops(sp, k) then FirstWorkers(sp, f, isTag, k, n, n) else []
  {
    var cells := WorkerCells(sp, f, isTag, n);
    ParallelListSpec(sp, f, isTag, n);
    ViewsOfWorkers(sp, f, isTag, k, n, n);
    assert cells[..n] == cells;
  }

  lemma SequentialView(sp: Space, f: Circuit, isTag: bool, k: Key)
    requires sp.spdMin > 0.0
    ensures OfKey(SequentialList(sp, f, isTag), k)
         == if InLoops(sp, k) then WiresView(sp, f, isTag, k, 0, 1, sp.wtMin) else []
  {
    SequentialListSpec(sp, f, isTag);
    WorkerView(sp, f, isTag, 0, 1, k);
  }

  /** One worker's merged list is its sorted list. */
  lemma OneWorker(sp: Space, f: Circuit, isTag: bool)
    requires sp.spdMin > 0.0
    ensures ParallelList(sp, f, isTag, 1) == SequentialList(sp, f, isTag)
  {
    ParallelListSpec(sp, f, isTag, 1);
    SequentialListSpec(sp, f, isTag);
    forall k ensures OfKey(ParallelList(sp, f, isTag, 1), k) == OfKey(SequentialList(sp, f, isTag), k) {
      ParallelView(sp, f, isTag, 1, k);
      SequentialView(sp, f, isTag, k);
      assert FirstWorkers(sp, f, isTag, k, 1, 1)
          == FirstWorkers(sp, f, isTag, k, 1, 0) + WiresView(sp, f, isTag, k, 0, 1, sp.wtMin);
    }
    SortedUnique(ParallelList(sp, f, isTag, 1), SequentialList(sp, f, isTag));
  }

  // ----- how often a key is met -----

  lemma {:induction false} StrideWires(sp: Space, f: Circuit, isTag: bool, k: Key, iter: nat, n: nat, wt: nat)
    requires n >= 1
    ensures forall x :: x in StrideView(sp, f, isTag, k, iter, n, wt) ==> x.wt == wt
    decreases sp.Niter() - iter
  {
    if iter < sp.Niter() {
      StrideWires(sp, f, isTag, k, iter + n, n, wt);
    }
  }

  /** The number of indices on the stride at which the key is accepted. */
  function Hits(sp: Space, f: Circuit, isTag: bool, k: Key, iter: nat, n: nat): nat
    requires n >= 1
    decreases sp.Niter() - iter
  {
    if iter >= sp.Niter() then 0
    else (if Keyed(f, isTag, PartAt(sp, iter, k), k) then 1 else 0) + Hits(sp, f, isTag, k, iter + n, n)
  }

  lemma {:induction false} StrideLength(sp: Space, f: Circuit, isTag: bool, k: Key, iter: nat, n: nat, wt: nat)
    requires n >= 1
    ensures |StrideView(sp, f, isTag, k, iter, n, wt)| == Hits(sp, f, isTag, k, iter, n)
    decreases sp.Niter() - iter
  {
    if iter < sp.Niter() {
      StrideLength(sp, f, isTag, k, iter + n, n, wt);
    }
  }

  // ----- first and last wire types -----

  /** Entries start with wire type wt, end with the last, stay between, and there is one of each end. */
  ghost predicate SpansFrom(sp: Space, wt: nat, v: seq<MemArray>) {
    && (v == [] || (v[0].wt == wt && v[|v| - 1].wt == sp.wtMax && (wt < sp.wtMax ==> |v| >= 2)))
    && (forall i :: 0 <= i < |v| ==> wt <= v[i].wt <= sp.wtMax)
  }

  ghost predicate Spans(sp: Space, v: seq<MemArray>) {
    SpansFrom(sp, sp.wtMin, v)
  }

  lemma SpanPrepend(sp: Space, wt: nat, s: seq<MemArray>, rest: seq<MemArray>)
    requires wt <= sp.wtMax && (forall i :: 0 <= i < |s| ==> s[i].wt == wt) && SpansFrom(sp, wt + 1, rest)
    requires if wt < sp.wtMax then s == [] <==> rest == [] else rest == []
    ensures SpansFrom(sp, wt, s + rest)
  {
  }

  lemma {:induction false} WiresSpan(sp: Space, f: Circuit, isTag: bool, k: Key, tid: nat, n: nat, wt: nat)
    requires n >= 1
    ensures SpansFrom(sp, wt, WiresView(sp, f, isTag, k, tid, n, wt))
    ensures wt <= sp.wtMax ==> (WiresView(sp, f, isTag, k, tid, n, wt) == [] <==> Hits(sp, f, isTag, k, tid, n) == 0)
    decreases sp.wtMax + 1 - wt
  {
    hide Hits;
    hide StrideView;
    hide SpansFrom;
    if wt <= sp.wtMax {
      var s, rest := StrideView(sp, f, isTag, k, tid, n, wt), WiresView(sp, f, isTag, k, tid, n, wt + 1);
      StrideLength(sp, f, isTag, k, tid, n, wt);
      StrideWires(sp, f, isTag, k, tid, n, wt);
      assert forall i :: 0 <= i < |s| ==> s[i] in s;
      WiresSpan(sp, f, isTag, k, tid, n, wt + 1);
      SpanPrepend(sp, wt, s, rest);
    } else {
      SpansNone(sp, wt);
    }
  }

  lemma SpansNone(sp: Space, wt: nat)
    ensures SpansFrom(sp, wt, [])
  {
  }

  // ----- keys that fall to one worker -----

  /** Key k is accepted at indices of worker t only. */
  ghost predicate OnlyWorker(sp: Space, f: Circuit, isTag: bool, k: Key, n: nat, t: nat)
    requires n >= 1
  {
    forall i: nat :: i < sp.Niter() && Keyed(f, isTag, PartAt(sp, i, k), k) ==> i % n == t
  }

  lemma Apart(i: nat, j: nat, n: nat)
    requires n >= 1 && i < j < i + n
    ensures i % n != j % n
  {
    if i % n == j % n {
      var d := j / n - i / n;
      assert j - i == d * n by {
        assert i == i / n * n + i % n && j == j / n * n + j % n;
      }
      NoneBetween(d, n);
    }
  }

  lemma NoneBetween(d: int, n: nat)
    ensures d * n <= 0 || d * n >= n
  {
    if d > 0 {
      assert d * n == n + (d - 1) * n;
    }
  }

  /** The owner, from its first index at or after i, meets what a sequential worker meets from i on. */
  lemma {:induction false} OwnersStride(sp: Space, f: Circuit, isTag: bool, k: Key, i: nat, j: nat, n: nat, wt: nat,
                                        t: nat)
    requires n >= 1 && OnlyWorker(sp, f, isTag, k, n, t) && i <= j < i + n && j % n == t
    ensures StrideView(sp, f, isTag, k, j, n, wt) == StrideView(sp, f, isTag, k, i, 1, wt)
    decreases sp.Niter() - i
  {
    hide PartAt;
    hide Keyed;
    if i < sp.Niter() {
      if i == j {
        ModShift(j, n);
        OwnersStride(sp, f, isTag, k, i + 1, j + n, n, wt, t);
      } else {
        Apart(i, j, n);
        OwnersStride(sp, f, isTag, k, i + 1, j, n, wt, t);
      }
    }
  }

  lemma {:induction false} OthersStride(sp: Space, f: Circuit, isTag: bool, k: Key, i: nat, n: nat, wt: nat, t: nat)
    requires n >= 1 && OnlyWorker(sp, f, isTag, k, n, t) && i % n != t
    ensures StrideView(sp, f, isTag, k, i, n, wt) == []
    decreases sp.Niter() - i
  {
    hide PartAt;
    hide Keyed;
    if i < sp.Niter() {
      ModShift(i, n);
      OthersStride(sp, f, isTag, k, i + n, n, wt, t);
    }
  }

  /** Worker t sees of the key what a sequential worker sees; the others see nothing of it. */
  lemma {:induction false} OwnersWires(sp: Space, f: Circuit, isTag: bool, k: Key, u: nat, n: nat, wt: nat, t: nat)
    requires u < n && t < n && OnlyWorker(sp, f, isTag, k, n, t)
    ensures WiresView(sp, f, isTag, k, u, n, wt) == if u == t then WiresView(sp, f, isTag, k, 0, 1, wt) else []
    decreases sp.wtMax + 1 - wt
  {
    hide OnlyWorker;
    hide StrideView;
    if wt <= sp.wtMax {
      OwnersWires(sp, f, isTag, k, u, n, wt + 1, t);
      SmallMod(u, n);
      if u == t {
        OwnersStride(sp, f, isTag, k, 0, u, n, wt, t);
      } else {
        OthersStride(sp, f, isTag, k, u, n, wt, t);
      }
    }
  }

  lemma {:induction false} OwnersList(sp: Space, f: Circuit, isTag: bool, k: Key, n: nat, m: nat, t: nat)
    requires m <= n && t < n && OnlyWorker(sp, f, isTag, k, n, t)
    ensures FirstWorkers(sp, f, isTag, k, n, m)
         == if t < m then WiresView(sp, f, isTag, k, 0, 1, sp.wtMin) else []
  {
    hide OnlyWorker;
    hide WiresView;
    if m > 0 {
      OwnersList(sp, f, isTag, k, n, m - 1, t);
      OwnersWires(sp, f, isTag, k, m - 1, n, sp.wtMin, t);
    }
  }

  lemma FindWorker(sp: Space, f: Circuit, isTag: bool, k: Key, n: nat) returns (t: nat)
    requires n >= 1 && sp.spdMin > 0.0 && OneShare(sp, f, isTag, n) && InLoops(sp, k)
    ensures t < n && OnlyWorker(sp, f, isTag, k, n, t)
  {
    hide Keyed;
    hide InLoops;
    if h: nat :| Home(sp, f, isTag, k, h) {
      t := h % n;
      forall i: nat | i < sp.Niter() && Keyed(f, isTag, PartAt(sp, i, k), k) ensures i % n == t {
        assert Home(sp, f, isTag, k, i);
      }
    } else {
      t := 0;
      forall i: nat | i < sp.Niter() ensures !Keyed(f, isTag, PartAt(sp, i, k), k) {
        assert !Home(sp, f, isTag, k, i);
      }
    }
  }

  /** If every key falls to one worker, n workers leave, entry by entry, the list of the sequential worker. */
  lemma SharedIsSequential(sp: Space, f: Circuit, isTag: bool, n: nat)
    requires n >= 1 && sp.spdMin > 0.0 && OneShare(sp, f, isTag, n)
    ensures ParallelList(sp, f, isTag, n) == SequentialList(sp, f, isTag)
  {
    hide OneShare;
    hide OnlyWorker;
    hide InLoops;
    hide WiresView;
    ParallelListSpec(sp, f, isTag, n);
    SequentialListSpec(sp, f, isTag);
    forall k ensures OfKey(ParallelList(sp, f, isTag, n), k) == OfKey(SequentialList(sp, f, isTag), k) {
      ParallelView(sp, f, isTag, n, k);
      SequentialView(sp, f, isTag, k);
      if InLoops(sp, k) {
        var t := FindWorker(sp, f, isTag, k, n);
        OwnersList(sp, f, isTag, k, n, n, t);
      }
    }
    SortedUnique(ParallelList(sp, f, isTag, n), SequentialList(sp, f, isTag));
  }

  // ----- keys that fall to several workers -----

  /** A home is met by the stride it lies on. */
  lemma {:induction false} HomeIsHit(sp: Space, f: Circuit, isTag: bool, k: Key, i: nat, n: nat, h: nat)
    requires n >= 1 && sp.spdMin > 0.0 && i <= h && i % n == h % n && Home(sp, f, isTag, k, h)
    ensures Hits(sp, f, isTag, k, i, n) >= 1
    decreases h - i
  {
    hide InLoops;
    hide Keyed;
    if i < h {
      if h < i + n {
        Apart(i, h, n);
      }
      ModShift(i, n);
      HomeIsHit(sp, f, isTag, k, i + n, n, h);
    }
  }

  ghost predicate WiresRise(s: seq<MemArray>) {
    forall i, j :: 0 <= i < j < |s| ==> s[i].wt <= s[j].wt
  }

  /** One worker goes through the wire types once, in order. */
  lemma {:induction false} WorkerRises(sp: Space, f: Circuit, isTag: bool, k: Key, tid: nat, n: nat, wt: nat)
    requires n >= 1
    ensures WiresRise(WiresView(sp, f, isTag, k, tid, n, wt))
    decreases sp.wtMax + 1 - wt
  {
    hide StrideView;
    hide Hits;
    hide SpansFrom;
    if wt <= sp.wtMax {
      var s := StrideView(sp, f, isTag, k, tid, n, wt);
      StrideWires(sp, f, isTag, k, tid, n, wt);
      assert forall i :: 0 <= i < |s| ==> s[i] in s;
      WorkerRises(sp, f, isTag, k, tid, n, wt + 1);
      WiresSpan(sp, f, isTag, k, tid, n, wt + 1);
      RisePrepend(sp, s, WiresView(sp, f, isTag, k, tid, n, wt + 1), wt);
    }
  }

  lemma RisePrepend(sp: Space, s: seq<MemArray>, rest: seq<MemArray>, wt: nat)
    requires (forall i :: 0 <= i < |s| ==> s[i].wt == wt) && SpansFrom(sp, wt + 1, rest) && WiresRise(rest)
    ensures WiresRise(s + rest)
  {
  }

  /** Somewhere the last wire type comes before the first. */
  ghost predicate Falls(sp: Space, s: seq<MemArray>) {
    exists i, j :: 0 <= i < j < |s| && s[i].wt == sp.wtMax && s[j].wt == sp.wtMin
  }

  ghost predicate HasLast(sp: Space, s: seq<MemArray>) {
    exists i :: 0 <= i < |s| && s[i].wt == sp.wtMax
  }

  lemma LastThenFirst(sp: Space, a: seq<MemArray>, b: seq<MemArray>)
    ensures HasLast(sp, a) ==> HasLast(sp, a + b)
    ensures Falls(sp, a) ==> Falls(sp, a + b)
    ensures HasLast(sp, a) && b != [] && b[0].wt == sp.wtMin ==> Falls(sp, a + b)
    ensures b != [] && b[|b| - 1].wt == sp.wtMax ==> HasLast(sp, a + b)
  {
    var s := a + b;
    if i :| 0 <= i < |a| && a[i].wt == sp.wtMax {
      assert s[i] == a[i];
      if b != [] {
        assert s[|a|] == b[0];
      }
    }
    if i, j :| 0 <= i < j < |a| && a[i].wt == sp.wtMax && a[j].wt == sp.wtMin {
      assert s[i] == a[i] && s[j] == a[j];
    }
    if b != [] {
      assert s[|s| - 1] == b[|b| - 1];
    }
  }

  /** Two workers that both meet a key: the second starts over with the first wire type. */
  lemma {:induction false} WorkersFall(sp: Space, f: Circuit, isTag: bool, k: Key, n: nat, m: nat, u: nat, w: nat)
    requires sp.wtMin <= sp.wtMax && u < w && m <= n && n >= 1
    requires Hits(sp, f, isTag, k, u, n) > 0 && Hits(sp, f, isTag, k, w, n) > 0
    ensures u < m ==> HasLast(sp, FirstWorkers(sp, f, isTag, k, n, m))
    ensures w < m ==> Falls(sp, FirstWorkers(sp, f, isTag, k, n, m))
  {
    hide Hits;
    hide WiresView;
    hide HasLast;
    hide Falls;
    if m > 0 {
      WorkersFall(sp, f, isTag, k, n, m - 1, u, w);
      WiresSpan(sp, f, isTag, k, m - 1, n, sp.wtMin);
      LastThenFirst(sp, FirstWorkers(sp, f, isTag, k, n, m - 1), WiresView(sp, f, isTag, k, m - 1, n, sp.wtMin));
    }
  }

  /** So n workers leave another list than one, over several wire types. */
  lemma SplitIsNotSequential(sp: Space, f: Circuit, isTag: bool, n: nat, k: Key, g: nat, h: nat)
    requires n >= 1 && sp.spdMin > 0.0 && sp.wtMin < sp.wtMax && g % n < h % n
    requires Home(sp, f, isTag, k, g) && Home(sp, f, isTag, k, h)
    ensures ParallelList(sp, f, isTag, n) != SequentialList(sp, f, isTag)
  {
    hide Hits;
    hide WiresView;
    hide FirstWorkers;
    var u, w := g % n, h % n;
    ShareBelow(g, n);
    ShareBelow(h, n);
    HomeIsHit(sp, f, isTag, k, u, n, g);
    HomeIsHit(sp, f, isTag, k, w, n, h);
    WorkersFall(sp, f, isTag, k, n, n, u, w);
    WorkerRises(sp, f, isTag, k, 0, 1, sp.wtMin);
    ParallelView(sp, f, isTag, n, k);
    SequentialView(sp, f, isTag, k);
  }

  lemma ShareBelow(h: nat, n: nat)
    requires n >= 1
    ensures h % n < n && h % n <= h && (h % n) % n == h % n
  {
    SmallMod(h % n, n);
    if h < n {
      SmallMod(h, n);
    }
  }

  /**
   The merged list and the number of workers, exactly: over several wire types n workers leave the list of one worker
   if and only if every key is accepted only at indices of one of the n.
   */
  lemma WorkersMatter(sp: Space, f: Circuit, isTag: bool, n: nat)
    requires n >= 1 && sp.spdMin > 0.0 && sp.wtMin < sp.wtMax
    ensures ParallelList(sp, f, isTag, n) == SequentialList(sp, f, isTag) <==> OneShare(sp, f, isTag, n)
  {
    hide Home;
    if OneShare(sp, f, isTag, n) {
      SharedIsSequential(sp, f, isTag, n);
    } else {
      var k: Key, g: nat, h: nat :| Home(sp, f, isTag, k, g) && Home(sp, f, isTag, k, h) && g % n != h % n;
      if g % n < h % n {
        SplitIsNotSequential(sp, f, isTag, n, k, g, h);
      } else {
        SplitIsNotSequential(sp, f, isTag, n, k, h, g);
      }
    }
  }

  /** Without twins every number of workers leaves the list of the sequential worker, over any wire types. */
  lemma NoTwinsIndependent(sp: Space, f: Circuit, isTag: bool, n: nat)
    requires n >= 1 && sp.spdMin > 0.0 && NoTwins(sp, f, isTag)
    ensures ParallelList(sp, f, isTag, n) == SequentialList(sp, f, isTag)
  {
    hide Home;
    SharedIsSequential(sp, f, isTag, n);
  }

  /** And so for every number of workers, if and only if no two loop indices hold accepted partitions of equal key. */
  lemma ThreadCountIndependence(sp: Space, f: Circuit, isTag: bool)
    requires sp.spdMin > 0.0 && sp.wtMin < sp.wtMax
    ensures (forall n: nat :: n >= 1 ==> ParallelList(sp, f, isTag, n) == SequentialList(sp, f, isTag))
       <==> NoTwins(sp, f, isTag)
  {
    hide Home;
    if NoTwins(sp, f, isTag) {
      forall n: nat | n >= 1 ensures ParallelList(sp, f, isTag, n) == SequentialList(sp, f, isTag) {
        NoTwinsIndependent(sp, f, isTag, n);
      }
    } else {
      var k: Key, g: nat, h: nat :| Home(sp, f, isTag, k, g) && Home(sp, f, isTag, k, h) && g != h;
      var n := g + h + 1;
      SmallMod(g, n);
      SmallMod(h, n);
      WorkersMatter(sp, f, isTag, n);
    }
  }
}
