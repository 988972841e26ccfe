/**
 What the number of workers never changes.  Equal keys stand for equal hardware, so the entries of one key differ in
 nothing but the wire type; their number, the first wire type and the last are the same for every number of workers.
 */
module Copies {
  import opened DesignSpace
  import opened MemArray
  import opened StableMerge
  import opened Schedule
  import opened ThreadCount

  /** Partitions accepted with the same key have the same metrics. */
  ghost predicate KeyFaithful(f: Circuit, isTag: bool) {
    forall k: Key, m: Metrics, n: Metrics :: Measures(f, isTag, k, m) && Measures(f, isTag, k, n) ==> m == n
  }

  ghost predicate Measures(f: Circuit, isTag: bool, k: Key, m: Metrics) {
    exists p :: Keyed(f, isTag, p, k) && f(isTag, p).metrics == m
  }

  ghost predicate Uniform(s: seq<MemArray>, k: Key, m: Metrics) {
    forall i :: 0 <= i < |s| ==> s[i].key == k && s[i].metrics == m
  }

  /** The metrics of a key that is accepted anywhere. */
  ghost predicate KeyMetrics(f: Circuit, isTag: bool, k: Key, m: Metrics) {
    forall n: Metrics :: Measures(f, isTag, k, n) ==> n == m
  }

  lemma FindMetrics(f: Circuit, isTag: bool, k: Key) returns (m: Metrics)
    requires KeyFaithful(f, isTag)
    ensures KeyMetrics(f, isTag, k, m)
  {
    if n: Metrics :| Measures(f, isTag, k, n) {
      m := n;
    } else {
      m := Metrics(Perf(0.0, 0.0, 0.0, 0.0, 0.0), 0.0, 0.0, 0.0, 0.0, 0.0);
    }
  }

  lemma {:induction false} StrideUniform(sp: Space, f: Circuit, isTag: bool, k: Key, iter: nat, n: nat, wt: nat,
                                         m: Metrics)
    requires n >= 1 && KeyMetrics(f, isTag, k, m)
    ensures Uniform(StrideView(sp, f, isTag, k, iter, n, wt), k, m)
    decreases sp.Niter() - iter
  {
    if iter < sp.Niter() {
      StrideUniform(sp, f, isTag, k, iter + n, n, wt, m);
      var p := PartAt(sp, iter, k);
      if Keyed(f, isTag, p, k) {
        assert Measures(f, isTag, k, f(isTag, p).metrics);
      }
    }
  }

  lemma {:induction false} WiresUniform(sp: Space, f: Circuit, isTag: bool, k: Key, tid: nat, n: nat, wt: nat,
                                        m: Metrics)
    requires n >= 1 && KeyMetrics(f, isTag, k, m)
    ensures Uniform(WiresView(sp, f, isTag, k, tid, n, wt), k, m)
    decreases sp.wtMax + 1 - wt
  {
    hide KeyMetrics;
    hide Uniform;
    hide StrideView;
    if wt <= sp.wtMax {
      StrideUniform(sp, f, isTag, k, tid, n, wt, m);
      WiresUniform(sp, f, isTag, k, tid, n, wt + 1, m);
      UniformAppend(StrideView(sp, f, isTag, k, tid, n, wt), WiresView(sp, f, isTag, k, tid, n, wt + 1), k, m);
    } else {
      UniformNone(k, m);
    }
  }

  lemma UniformAppend(a: seq<MemArray>, b: seq<MemArray>, k: Key, m: Metrics)
    requires Uniform(a, k, m) && Uniform(b, k, m)
    ensures Uniform(a + b, k, m)
  {
  }

  lemma {:induction false} WorkersUniform(sp: Space, f: Circuit, isTag: bool, k: Key, n: nat, w: nat, m: Metrics)
    requires n >= 1 && KeyMetrics(f, isTag, k, m)
    ensures Uniform(FirstWorkers(sp, f, isTag, k, n, w), k, m)
  {
    hide KeyMetrics;
    hide Uniform;
    hide WiresView;
    if w > 0 {
      WorkersUniform(sp, f, isTag, k, n, w - 1, m);
      WiresUniform(sp, f, isTag, k, w - 1, n, sp.wtMin, m);
      UniformAppend(FirstWorkers(sp, f, isTag, k, n, w - 1), WiresView(sp, f, isTag, k, w - 1, n, sp.wtMin), k, m);
    } else {
      UniformNone(k, m);
    }
  }

  // ----- how many entries a key has -----

  function Wires(sp: Space, wt: nat): nat {
    if wt > sp.wtMax then 0 else sp.wtMax + 1 - wt
  }

  lemma {:induction false} WiresLength(sp: Space, f: Circuit, isTag: bool, k: Key, tid: nat, n: nat, wt: nat)
    requires n >= 1
    ensures |WiresView(sp, f, isTag, k, tid, n, wt)| == Wires(sp, wt) * Hits(sp, f, isTag, k, tid, n)
    decreases sp.wtMax + 1 - wt
  {
    hide Hits;
    if wt <= sp.wtMax {
      StrideLength(sp, f, isTag, k, tid, n, wt);
      WiresLength(sp, f, isTag, k, tid, n, wt + 1);
      assert Wires(sp, wt) == Wires(sp, wt + 1) + 1;
      OneMore(Wires(sp, wt + 1), Hits(sp, f, isTag, k, tid, n));
    }
  }

  lemma OneMore(a: nat, b: nat)
    ensures (a + 1) * b == a * b + b
  {
  }

  /** Hits of u strides starting side by side at i. */
  function Window(sp: Space, f: Circuit, isTag: bool, k: Key, i: nat, n: nat, u: nat): nat
    requires n >= 1
  {
    if u == 0 then 0 else Window(sp, f, isTag, k, i, n, u - 1) + Hits(sp, f, isTag, k, i + u - 1, n)
  }

  lemma {:induction false} WindowShift(sp: Space, f: Circuit, isTag: bool, k: Key, i: nat, n: nat, u: nat)
    requires n >= 1
    ensures Window(sp, f, isTag, k, i, n, u + 1) == Hits(sp, f, isTag, k, i, n) + Window(sp, f, isTag, k, i + 1, n, u)
  {
    hide Hits;
    if u > 0 {
      WindowShift(sp, f, isTag, k, i, n, u - 1);
      assert i + 1 + u - 1 == i + u;
    }
  }

  lemma {:induction false} WindowBeyond(sp: Space, f: Circuit, isTag: bool, k: Key, i: nat, n: nat, u: nat)
    requires n >= 1 && i >= sp.Niter()
    ensures Window(sp, f, isTag, k, i, n, u) == 0
  {
    if u > 0 {
      WindowBeyond(sp, f, isTag, k, i, n, u - 1);
    }
  }

  /** n strides by n, starting side by side, hit what one stride by one hits. */
  lemma {:induction false} StridesCover(sp: Space, f: Circuit, isTag: bool, k: Key, i: nat, n: nat)
    requires n >= 1
    ensures Window(sp, f, isTag, k, i, n, n) == Hits(sp, f, isTag, k, i, 1)
    decreases sp.Niter() - i
  {
    if i < sp.Niter() {
      StridesCover(sp, f, isTag, k, i + 1, n);
      WindowShift(sp, f, isTag, k, i, n, n - 1);
      hide Keyed;
    } else {
      WindowBeyond(sp, f, isTag, k, i, n, n);
    }
  }

  lemma {:induction false} WorkersLength(sp: Space, f: Circuit, isTag: bool, k: Key, n: nat, m: nat)
    requires n >= 1
    ensures |FirstWorkers(sp, f, isTag, k, n, m)| == Wires(sp, sp.wtMin) * Window(sp, f, isTag, k, 0, n, m)
  {
    hide Hits;
    hide WiresView;
    hide Wires;
    if m > 0 {
      WorkersLength(sp, f, isTag, k, n, m - 1);
      WiresLength(sp, f, isTag, k, m - 1, n, sp.wtMin);
      Spread(Wires(sp, sp.wtMin), Window(sp, f, isTag, k, 0, n, m - 1), Hits(sp, f, isTag, k, m - 1, n));
    }
  }

  lemma Spread(a: nat, b: nat, c: nat)
    ensures a * (b + c) == a * b + a * c
  {
  }

  // ----- lists that differ in wire types only -----

  ghost predicate Alike(a: seq<MemArray>, b: seq<MemArray>) {
    |a| == |b| && forall i :: 0 <= i < |a| ==> a[i].key == b[i].key && a[i].metrics == b[i].metrics
  }

  function Unlabelled(s: seq<MemArray>): (r: seq<MemArray>)
    ensures |r| == |s| && forall i :: 0 <= i < |s| ==> r[i] == s[i].(wt := 0)
  {
    seq(|s|, i requires 0 <= i < |s| => s[i].(wt := 0))
  }

  lemma {:induction false} UnlabelledOfKey(s: seq<MemArray>, k: Key)
    ensures OfKey(Unlabelled(s), k) == Unlabelled(OfKey(s, k))
  {
    if s != [] {
      UnlabelledOfKey(s[1..], k);
      assert Unlabelled(s) == [s[0].(wt := 0)] + Unlabelled(s[1..]);
      OfKeyCons(s[0].(wt := 0), Unlabelled(s[1..]), k);
    }
  }

  ghost predicate SameMetrics(a: seq<MemArray>, b: seq<MemArray>, k: Key) {
    exists m :: Uniform(a, k, m) && Uniform(b, k, m)
  }

  /** Sorted lists with as many entries of each key, of the same metrics, are alike. */
  lemma AlikeByKey(a: seq<MemArray>, b: seq<MemArray>)
    requires Sorted(a) && Sorted(b)
    requires forall k :: |OfKey(a, k)| == |OfKey(b, k)|
    requires forall k :: SameMetrics(OfKey(a, k), OfKey(b, k), k)
    ensures Alike(a, b)
  {
    var x, y := Unlabelled(a), Unlabelled(b);
    forall k ensures OfKey(x, k) == OfKey(y, k) {
      UnlabelledOfKey(a, k);
      UnlabelledOfKey(b, k);
      var m :| Uniform(OfKey(a, k), k, m) && Uniform(OfKey(b, k), k, m);
    }
    SortedUnique(x, y);
    forall i | 0 <= i < |a| ensures a[i].key == b[i].key && a[i].metrics == b[i].metrics {
      assert x[i] == y[i];
    }
  }

  /** Whatever the number of workers, the merged lists are alike. */
  lemma ParallelAlike(sp: Space, f: Circuit, isTag: bool, n: nat, m: nat)
    requires n >= 1 && m >= 1 && sp.spdMin > 0.0 && KeyFaithful(f, isTag)
    ensures Alike(ParallelList(sp, f, isTag, n), ParallelList(sp, f, isTag, m))
  {
    hide Uniform;
    hide KeyFaithful;
    hide InLoops;
    hide FirstWorkers;
    var a, b := ParallelList(sp, f, isTag, n), ParallelList(sp, f, isTag, m);
    ParallelListSpec(sp, f, isTag, n);
    ParallelListSpec(sp, f, isTag, m);
    forall k
      ensures |OfKey(a, k)| == |OfKey(b, k)|
      ensures SameMetrics(OfKey(a, k), OfKey(b, k), k)
    {
      ParallelView(sp, f, isTag, n, k);
      ParallelView(sp, f, isTag, m, k);
      WorkersLength(sp, f, isTag, k, n, n);
      WorkersLength(sp, f, isTag, k, m, m);
      StridesCover(sp, f, isTag, k, 0, n);
      StridesCover(sp, f, isTag, k, 0, m);
      var t := FindMetrics(f, isTag, k);
      WorkersUniform(sp, f, isTag, k, n, n, t);
      WorkersUniform(sp, f, isTag, k, m, m, t);
      UniformNone(k, t);
      assert Uniform(OfKey(a, k), k, t) && Uniform(OfKey(b, k), k, t);
    }
    AlikeByKey(a, b);
  }

  lemma UniformNone(k: Key, m: Metrics)
    ensures Uniform([], k, m)
  {
  }

  lemma SpansAppend(sp: Space, a: seq<MemArray>, b: seq<MemArray>)
    requires Spans(sp, a) && Spans(sp, b)
    ensures Spans(sp, a + b)
  {
    if a == [] {
      assert a + b == b;
    } else if b == [] {
      assert a + b == a;
    }
  }

  lemma {:induction false} WorkersSpan(sp: Space, f: Circuit, isTag: bool, k: Key, n: nat, m: nat)
    requires n >= 1
    ensures Spans(sp, FirstWorkers(sp, f, isTag, k, n, m))
  {
    hide WiresView;
    if m > 0 {
      WorkersSpan(sp, f, isTag, k, n, m - 1);
      WiresSpan(sp, f, isTag, k, m - 1, n, sp.wtMin);
      SpansAppend(sp, FirstWorkers(sp, f, isTag, k, n, m - 1), WiresView(sp, f, isTag, k, m - 1, n, sp.wtMin));
    }
  }

  /** Sorted, same key same metrics, and every key spanning all the wire types. */
  ghost predicate CopyList(sp: Space, s: seq<MemArray>) {
    && Sorted(s)
    && (forall i, j :: 0 <= i < |s| && 0 <= j < |s| && s[i].key == s[j].key ==> s[i].metrics == s[j].metrics)
    && (forall k :: Spans(sp, OfKey(s, k)))
  }

  lemma {:induction false} InOfKey(s: seq<MemArray>, i: nat)
    requires i < |s|
    ensures s[i] in OfKey(s, s[i].key)
  {
    if i > 0 {
      InOfKey(s[1..], i - 1);
    }
  }

  /** Every merged list is one of copies. */
  lemma ParallelIsCopyList(sp: Space, f: Circuit, isTag: bool, n: nat)
    requires n >= 1 && sp.spdMin > 0.0 && KeyFaithful(f, isTag)
    ensures CopyList(sp, ParallelList(sp, f, isTag, n))
  {
    hide KeyFaithful;
    hide InLoops;
    hide FirstWorkers;
    hide SpansFrom;
    var s := ParallelList(sp, f, isTag, n);
    ParallelListSpec(sp, f, isTag, n);
    forall k ensures Spans(sp, OfKey(s, k)) {
      ParallelView(sp, f, isTag, n, k);
      WorkersSpan(sp, f, isTag, k, n, n);
      SpansNone(sp, sp.wtMin);
    }
    forall i, j | 0 <= i < |s| && 0 <= j < |s| && s[i].key == s[j].key ensures s[i].metrics == s[j].metrics {
      var k := s[i].key;
      var m := FindMetrics(f, isTag, k);
      ParallelView(sp, f, isTag, n, k);
      WorkersUniform(sp, f, isTag, k, n, n, m);
      InOfKey(s, i);
      InOfKey(s, j);
    }
  }

  /** Entries stay within the wire types searched. */
  lemma WiresInRange(sp: Space, s: seq<MemArray>, i: nat)
    requires CopyList(sp, s) && i < |s|
    ensures sp.wtMin <= s[i].wt <= sp.wtMax
  {
    InOfKey(s, i);
    assert Spans(sp, OfKey(s, s[i].key));
  }

  // ----- one entry per wire type -----

  /** Key k is accepted at no index but h. */
  ghost predicate OnlyAt(sp: Space, f: Circuit, isTag: bool, k: Key, h: nat) {
    forall i: nat :: i < sp.Niter() && Keyed(f, isTag, PartAt(sp, i, k), k) ==> i == h
  }

  lemma {:induction false} StrideOnlyAt(sp: Space, f: Circuit, isTag: bool, k: Key, iter: nat, n: nat, wt: nat, h: nat)
    requires n >= 1 && OnlyAt(sp, f, isTag, k, h)
    ensures StrideView(sp, f, isTag, k, iter, n, wt)
         == if h < sp.Niter() && Reaches(iter, n, h) then OneView(sp, f, isTag, k, h, wt) else []
    decreases sp.Niter() - iter
  {
    hide PartAt;
    hide Keyed;
    if iter < sp.Niter() {
      StrideOnlyAt(sp, f, isTag, k, iter + n, n, wt, h);
    }
  }

  lemma FindOnly(sp: Space, f: Circuit, isTag: bool, k: Key) returns (h: nat)
    requires sp.spdMin > 0.0 && NoTwins(sp, f, isTag) && InLoops(sp, k)
    ensures OnlyAt(sp, f, isTag, k, h)
  {
    if i: nat :| Home(sp, f, isTag, k, i) {
      h := i;
      forall j: nat | j < sp.Niter() && Keyed(f, isTag, PartAt(sp, j, k), k) ensures j == h {
        assert Home(sp, f, isTag, k, j);
      }
    } else {
      h := 0;
      forall j: nat | j < sp.Niter() ensures !Keyed(f, isTag, PartAt(sp, j, k), k) {
        assert !Home(sp, f, isTag, k, j);
      }
    }
  }

  /** One array for every wire type from wt on. */
  function WireCopies(sp: Space, k: Key, m: Metrics, wt: nat): seq<MemArray>
    decreases sp.wtMax + 1 - wt
  {
    if wt > sp.wtMax then [] else [MemArray(k, m, wt)] + WireCopies(sp, k, m, wt + 1)
  }

  lemma {:induction false} CopiesOnlyAt(sp: Space, f: Circuit, isTag: bool, k: Key, wt: nat, h: nat)
    requires sp.spdMin > 0.0 && OnlyAt(sp, f, isTag, k, h) && Home(sp, f, isTag, k, h)
    ensures WiresView(sp, f, isTag, k, 0, 1, wt) == WireCopies(sp, k, f(isTag, PartAt(sp, h, k)).metrics, wt)
    decreases sp.wtMax + 1 - wt
  {
    hide OnlyAt;
    if wt <= sp.wtMax {
      CopiesOnlyAt(sp, f, isTag, k, wt + 1, h);
      StrideOnlyAt(sp, f, isTag, k, 0, 1, wt, h);
      ReachesFromBelow(0, 1, h);
    }
  }

  /** Without twins every accepted key is listed once per wire type, in order, with the metrics of its partition. */
  lemma OnePerWireType(sp: Space, f: Circuit, isTag: bool, n: nat, k: Key)
    requires n >= 1 && sp.spdMin > 0.0 && NoTwins(sp, f, isTag)
    ensures forall h: nat :: Home(sp, f, isTag, k, h) ==>
              OfKey(ParallelList(sp, f, isTag, n), k) == WireCopies(sp, k, f(isTag, PartAt(sp, h, k)).metrics, sp.wtMin)
    ensures (forall h: nat :: !Home(sp, f, isTag, k, h)) ==> OfKey(ParallelList(sp, f, isTag, n), k) == []
  {
    hide InLoops;
    hide WiresView;
    NoTwinsIndependent(sp, f, isTag, n);
    SequentialView(sp, f, isTag, k);
    if InLoops(sp, k) {
      var h := FindOnly(sp, f, isTag, k);
      if Home(sp, f, isTag, k, h) {
        CopiesOnlyAt(sp, f, isTag, k, sp.wtMin, h);
      } else {
        WiresSpan(sp, f, isTag, k, 0, 1, sp.wtMin);
        NoHits(sp, f, isTag, k, 0);
        WiresLength(sp, f, isTag, k, 0, 1, sp.wtMin);
      }
    }
  }

  lemma {:induction false} NoHits(sp: Space, f: Circuit, isTag: bool, k: Key, i: nat)
    requires sp.spdMin > 0.0 && InLoops(sp, k) && forall h: nat :: !Home(sp, f, isTag, k, h)
    ensures Hits(sp, f, isTag, k, i, 1) == 0
    decreases sp.Niter() - i
  {
    if i < sp.Niter() {
      NoHits(sp, f, isTag, k, i + 1);
      assert !Home(sp, f, isTag, k, i);
    }
  }

  /**
   The same characterization over any wire types: n workers leave the list of one exactly when there is at most one
   wire type, or every key falls to one of the n.
   */
  lemma ThreadCountMatters(sp: Space, f: Circuit, isTag: bool, n: nat)
    requires n >= 1 && sp.spdMin > 0.0 && KeyFaithful(f, isTag)
    ensures ParallelList(sp, f, isTag, n) == SequentialList(sp, f, isTag)
       <==> sp.wtMin >= sp.wtMax || OneShare(sp, f, isTag, n)
  {
    hide OneShare;
    hide CopyList;
    if sp.wtMin < sp.wtMax {
      WorkersMatter(sp, f, isTag, n);
    } else {
      var a, b := ParallelList(sp, f, isTag, n), ParallelList(sp, f, isTag, 1);
      ParallelAlike(sp, f, isTag, n, 1);
      ParallelIsCopyList(sp, f, isTag, n);
      ParallelIsCopyList(sp, f, isTag, 1);
      forall i | 0 <= i < |a| ensures a[i] == b[i] {
        WiresInRange(sp, a, i);
        WiresInRange(sp, b, i);
      }
      assert a == b;
      OneWorker(sp, f, isTag);
    }
  }
}
