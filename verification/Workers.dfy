/**
 The workers.  Each keeps a list of arrays whose last entry is a blank array waiting to be filled, and frees the
 blank at the end.  The nested loops of one worker, and all interleavings of several, leave the same lists and the
 same minima, and own exactly the arrays on the lists.
 */
module Workers {
  import opened BasicCircuit
  import opened Sequences
  import opened Parameter
  import opened DesignSpace
  import opened MemArray
  import opened StableMerge
  import opened Schedule

  /** The allocator's view: which arrays are live.  Deleting asks for a live one, so nothing is freed twice. */
  class Heap {
    var live: set<nat>
    var next: nat

    ghost predicate Valid()
      reads this
    {
      forall p :: p in live ==> p < next
    }

    constructor ()
      ensures Valid() && live == {}
    {
      live, next := {}, 0;
    }

    method New() returns (p: nat)
      requires Valid()
      modifies this
      ensures Valid() && p !in old(live) && live == old(live) + {p}
      ensures multiset(live) == multiset(old(live)) + multiset{p}
    {
      p := next;
      next := next + 1;
      live := live + {p};
    }

    method Delete(p: nat)
      requires Valid() && p in live
      modifies this
      ensures Valid() && live == old(live) - {p}
      ensures multiset(old(live)) == multiset(live) + multiset{p}
    {
      live := live - {p};
    }
  }

  const BLANK := MemArray(Key(0.0, 0, 0, 0, 0, 0), Metrics(Perf(0.0, 0.0, 0.0, 0.0, 0.0), 0.0, 0.0, 0.0, 0.0, 0.0), 0)

  /** What one worker call is asked to do. */
  datatype Task = Task(isTag: bool, fullyAssoc: bool)
  {
    /** A fully associative search fills the data list from the tag search. */
    predicate FillsData() { !isTag || fullyAssoc }
    predicate FillsTag() { isTag }
  }

  /** One worker's lists and minima. */
  datatype Lists = Lists(data: seq<Cell>, tag: seq<Cell>, dataRes: Minima, tagRes: Minima)
  {
    ghost function Owned(): multiset<nat> { Ptrs(data) + Ptrs(tag) }
  }

  /** The live arrays are the others' and this worker's, each once. */
  ghost predicate Owns(live: set<nat>, others: multiset<nat>, l: Lists) {
    multiset(live) == others + l.Owned()
  }

  /** While running, each list is its filled arrays followed by one blank. */
  ghost predicate Running(f: Circuit, task: Task, l: Lists, start: Lists, done: seq<Config>) {
    var kept := Eval(f, task.isTag, done);
    && l.data != [] && l.tag != []
    && Arrs(l.data[..|l.data| - 1]) == (if task.FillsData() then kept else [])
    && Arrs(l.tag[..|l.tag| - 1]) == (if task.FillsTag() then kept else [])
    && l.dataRes == (if task.FillsData() then MinOver(Perfs(kept), start.dataRes) else start.dataRes)
    && l.tagRes == (if task.FillsTag() then MinOver(Perfs(kept), start.tagRes) else start.tagRes)
  }

  /** After the last point the blanks are gone. */
  ghost predicate Finished(f: Circuit, task: Task, l: Lists, start: Lists, done: seq<Config>) {
    var kept := Eval(f, task.isTag, done);
    && Arrs(l.data) == (if task.FillsData() then kept else [])
    && Arrs(l.tag) == (if task.FillsTag() then kept else [])
    && l.dataRes == (if task.FillsData() then MinOver(Perfs(kept), start.dataRes) else start.dataRes)
    && l.tagRes == (if task.FillsTag() then MinOver(Perfs(kept), start.tagRes) else start.tagRes)
  }

  lemma PtrsSplitLast(s: seq<Cell>)
    requires s != []
    ensures Ptrs(s) == Ptrs(s[..|s| - 1]) + multiset{s[|s| - 1].ptr}
  {
    var last := s[|s| - 1..];
    assert s == s[..|s| - 1] + last;
    PtrsAppend(s[..|s| - 1], last);
    assert last == [s[|s| - 1]];
    assert Ptrs(last) == multiset{s[|s| - 1].ptr} + Ptrs([]);
  }

  lemma PtrsReplaceLast(s: seq<Cell>, a: MemArray)
    requires s != []
    ensures Ptrs(Filled(s, a)) == Ptrs(s)
  {
    var t := Filled(s, a);
    PtrsSplitLast(s);
    PtrsSplitLast(t);
    assert t[..|t| - 1] == s[..|s| - 1];
  }

  lemma PtrsSingle(p: nat, a: MemArray)
    ensures Ptrs([Cell(p, a)]) == multiset{p}
  {
    assert Ptrs([Cell(p, a)]) == multiset{p} + Ptrs([]);
  }

  /** list.clear() on the worker's (already empty) lists, and one blank in each. */
  method Begin(heap: Heap, ghost f: Circuit, ghost task: Task, start: Lists) returns (l: Lists)
    requires heap.Valid() && start.data == [] && start.tag == []
    modifies heap
    ensures heap.Valid() && Owns(heap.live, multiset(old(heap.live)), l)
    ensures l.data != [] && l.tag != [] && Running(f, task, l, start, [])
  {
    var p := heap.New();
    var q := heap.New();
    PtrsSingle(p, BLANK);
    PtrsSingle(q, BLANK);
    l := Lists([Cell(p, BLANK)], [Cell(q, BLANK)], start.dataRes, start.tagRes);
    assert l.data[..0] == [] && l.tag[..0] == [];
  }

  lemma PtrsSnoc(s: seq<Cell>, c: Cell)
    ensures Ptrs(s + [c]) == Ptrs(s) + multiset{c.ptr}
  {
    PtrsSplitLast(s + [c]);
    assert (s + [c])[..|s|] == s;
  }

  /** Fills the blank at the back and appends a fresh one. */
  method FillBack(heap: Heap, s: seq<Cell>, a: MemArray, ghost others: multiset<nat>) returns (r: seq<Cell>)
    requires heap.Valid() && s != [] && multiset(heap.live) == others + Ptrs(s)
    modifies heap
    ensures heap.Valid() && multiset(heap.live) == others + Ptrs(r)
    ensures r != [] && Arrs(r[..|r| - 1]) == Arrs(s[..|s| - 1]) + [a]
  {
    var filled := Filled(s, a);
    PtrsReplaceLast(s, a);
    var p := heap.New();
    r := filled + [Cell(p, BLANK)];
    PtrsSnoc(filled, Cell(p, BLANK));
    assert r[..|r| - 1] == filled;
  }

  function Filled(s: seq<Cell>, a: MemArray): (r: seq<Cell>)
    requires s != []
    ensures |r| == |s| && Arrs(r) == Arrs(s[..|s| - 1]) + [a]
  {
    s[|s| - 1 := s[|s| - 1].(arr := a)]
  }

  lemma EvalSnoc(f: Circuit, isTag: bool, cs: seq<Config>, c: Config)
    ensures Eval(f, isTag, cs + [c]) == Eval(f, isTag, cs) + EvalOne(f, isTag, c)
  {
    EvalAppend(f, isTag, cs, [c]);
    assert Eval(f, isTag, [c]) == EvalOne(f, isTag, c) + Eval(f, isTag, []);
  }

  lemma PerfsSnoc(s: seq<MemArray>, a: MemArray, start: Minima)
    ensures MinOver(Perfs(s + [a]), start) == MinOver(Perfs(s), start).Update(a.metrics.perf)
  {
    var p := [a.metrics.perf];
    assert Perfs(s + [a]) == Perfs(s) + p;
    MinOverAppend(Perfs(s), p, start);
    var m := MinOver(Perfs(s), start);
    assert MinOver(p, m) == MinOver(p[1..], m.Update(p[0]));
  }

  /** The tag half of the loop body: fill the blank of the tag list when the search is for tags. */
  method ConsiderTag(heap: Heap, task: Task, l: Lists, a: MemArray, ghost others: multiset<nat>) returns (r: Lists)
    requires heap.Valid() && Owns(heap.live, others, l) && l.tag != []
    modifies heap
    ensures heap.Valid() && Owns(heap.live, others, r)
    ensures r.data == l.data && r.dataRes == l.dataRes
    ensures if task.FillsTag() then
              r.tag != [] && Arrs(r.tag[..|r.tag| - 1]) == Arrs(l.tag[..|l.tag| - 1]) + [a]
              && r.tagRes == l.tagRes.Update(a.metrics.perf)
            else r == l
  {
    r := l;
    if task.isTag {
      var tag := FillBack(heap, l.tag, a, others + Ptrs(l.data));
      r := l.(tag := tag, tagRes := l.tagRes.Update(a.metrics.perf));
    }
  }

  method ConsiderData(heap: Heap, task: Task, l: Lists, a: MemArray, ghost others: multiset<nat>) returns (r: Lists)
    requires heap.Valid() && Owns(heap.live, others, l) && l.data != []
    modifies heap
    ensures heap.Valid() && Owns(heap.live, others, r)
    ensures r.tag == l.tag && r.tagRes == l.tagRes
    ensures if task.FillsData() then
              r.data != [] && Arrs(r.data[..|r.data| - 1]) == Arrs(l.data[..|l.data| - 1]) + [a]
              && r.dataRes == l.dataRes.Update(a.metrics.perf)
            else r == l
  {
    r := l;
    if !task.isTag || task.fullyAssoc {
      var data := FillBack(heap, l.data, a, others + Ptrs(l.tag));
      r := l.(data := data, dataRes := l.dataRes.Update(a.metrics.perf));
    }
  }

  lemma KeepOne(f: Circuit, task: Task, l: Lists, r: Lists, c: Config, start: Lists, done: seq<Config>)
    requires Running(f, task, l, start, done) && f(task.isTag, c.part).Valid?
    requires r.data != [] && r.tag != []
    requires var a := ArrayOf(c, f(task.isTag, c.part));
             && (if task.FillsData() then
                   Arrs(r.data[..|r.data| - 1]) == Arrs(l.data[..|l.data| - 1]) + [a]
                   && r.dataRes == l.dataRes.Update(a.metrics.perf)
                 else r.data == l.data && r.dataRes == l.dataRes)
             && (if task.FillsTag() then
                   Arrs(r.tag[..|r.tag| - 1]) == Arrs(l.tag[..|l.tag| - 1]) + [a]
                   && r.tagRes == l.tagRes.Update(a.metrics.perf)
                 else r.tag == l.tag && r.tagRes == l.tagRes)
    ensures Running(f, task, r, start, done + [c])
  {
    var a := ArrayOf(c, f(task.isTag, c.part));
    var kept := Eval(f, task.isTag, done);
    EvalSnoc(f, task.isTag, done, c);
    PerfsSnoc(kept, a, start.tagRes);
    PerfsSnoc(kept, a, start.dataRes);
  }

  lemma SkipOne(f: Circuit, task: Task, l: Lists, c: Config, start: Lists, done: seq<Config>)
    requires Running(f, task, l, start, done) && !f(task.isTag, c.part).Valid?
    ensures Running(f, task, l, start, done + [c])
  {
    EvalSnoc(f, task.isTag, done, c);
    assert Eval(f, task.isTag, done) + [] == Eval(f, task.isTag, done);
  }

  /**
   One pass through the innermost loop body.  The fully associative data array repeats the tag's call, so both
   lists keep the same array.
   */
  method Consider(heap: Heap, f: Circuit, task: Task, l: Lists, c: Config,
                  ghost start: Lists, ghost done: seq<Config>, ghost others: multiset<nat>)
    returns (r: Lists)
    requires heap.Valid() && Owns(heap.live, others, l) && Running(f, task, l, start, done)
    modifies heap
    ensures heap.Valid() && Owns(heap.live, others, r) && Running(f, task, r, start, done + [c])
  {
    var v := f(task.isTag, c.part);
    if v.Valid? {
      var a := ArrayOf(c, v);
      r := ConsiderTag(heap, task, l, a, others);
      r := ConsiderData(heap, task, r, a, others);
      KeepOne(f, task, l, r, c, start, done);
    } else {
      r := l;
      SkipOne(f, task, l, c, start, done);
    }
  }

  /** Deletes the blank at the back of a list. */
  method DropBack(heap: Heap, s: seq<Cell>, ghost others: multiset<nat>) returns (r: seq<Cell>)
    requires heap.Valid() && s != [] && multiset(heap.live) == others + Ptrs(s)
    modifies heap
    ensures heap.Valid() && multiset(heap.live) == others + Ptrs(r)
    ensures r == s[..|s| - 1]
  {
    LiveMember(heap.live, others, s);
    PtrsSplitLast(s);
    heap.Delete(s[|s| - 1].ptr);
    r := s[..|s| - 1];
    CancelOne(multiset(heap.live), others + Ptrs(r), s[|s| - 1].ptr);
  }

  lemma CancelOne(a: multiset<nat>, b: multiset<nat>, p: nat)
    requires a + multiset{p} == b + multiset{p}
    ensures a == b
  {
    assert a == (a + multiset{p}) - multiset{p};
    assert b == (b + multiset{p}) - multiset{p};
  }

  lemma LiveMember(live: set<nat>, rest: multiset<nat>, s: seq<Cell>)
    requires s != [] && multiset(live) == rest + Ptrs(s)
    ensures s[|s| - 1].ptr in live
  {
    PtrsMember(s, |s| - 1);
    assert s[|s| - 1].ptr in multiset(live);
  }

  lemma DroppedBlanks(f: Circuit, task: Task, l: Lists, start: Lists, done: seq<Config>)
    requires Running(f, task, l, start, done)
    ensures l.data != [] && l.tag != []
    ensures Finished(f, task, l.(data := l.data[..|l.data| - 1], tag := l.tag[..|l.tag| - 1]), start, done)
  {
  }

  method Finish(heap: Heap, ghost f: Circuit, ghost task: Task, l: Lists,
                ghost start: Lists, ghost done: seq<Config>, ghost others: multiset<nat>) returns (r: Lists)
    requires heap.Valid() && Owns(heap.live, others, l) && Running(f, task, l, start, done)
    modifies heap
    ensures heap.Valid() && Owns(heap.live, others, r) && Finished(f, task, r, start, done)
  {
    hide Running;
    hide Finished;
    DroppedBlanks(f, task, l, start, done);
    var data := DropBack(heap, l.data, others + Ptrs(l.tag));
    var tag := DropBack(heap, l.tag, others + Ptrs(data));
    r := l.(data := data, tag := tag);
  }

  /**
   The worker, as written: five nested loops, the innermost two over the sense-amplifier multiplexing, the third
   striding by the number of workers.  It visits exactly Configs(sp, tid, n), in that order.
   */
  method CalcTime(heap: Heap, f: Circuit, sp: Space, task: Task, tid: nat, n: nat, start: Lists) returns (l: Lists)
    requires heap.Valid() && sp.spdMin > 0.0 && tid < n && start.data == [] && start.tag == []
    modifies heap
    ensures heap.Valid() && Owns(heap.live, multiset(old(heap.live)), l)
    ensures Finished(f, task, l, start, Configs(sp, tid, n))
  {
    hide Running;
    hide Finished;
    hide Owns;
    hide WtFrom;
    hide Doublings;
    l := Begin(heap, f, task, start);
    ghost var done: seq<Config> := [];
    ghost var base := multiset(old(heap.live));
    var nspd := sp.spdMin;
    while nspd <= sp.spdMax
      invariant nspd > 0.0 && heap.Valid() && Owns(heap.live, base, l)
      invariant Running(f, task, l, start, done)
      invariant done + SpdFrom(sp, nspd, tid, n) == Configs(sp, tid, n)
      decreases Doublings(nspd, sp.spdMax)
    {
      DoublingShrinks(nspd, sp.spdMax);
      AppendAssociates(done, WtFrom(sp, nspd, sp.wtMin, tid, n), SpdFrom(sp, 2.0 * nspd, tid, n));
      l, done := SweepWires(heap, f, sp, task, nspd, tid, n, l, start, done, base);
      nspd := 2.0 * nspd;
    }
    assert done + [] == done;
    l := Finish(heap, f, task, l, start, done, base);
  }

  /** The wire-type loop. */
  method SweepWires(heap: Heap, f: Circuit, sp: Space, task: Task, nspd: real, tid: nat, n: nat, l0: Lists,
                    ghost start: Lists, ghost done0: seq<Config>, ghost base: multiset<nat>)
    returns (l: Lists, ghost done: seq<Config>)
    requires heap.Valid() && n >= 1 && Owns(heap.live, base, l0) && Running(f, task, l0, start, done0)
    modifies heap
    ensures heap.Valid() && Owns(heap.live, base, l) && Running(f, task, l, start, done)
    ensures done == done0 + WtFrom(sp, nspd, sp.wtMin, tid, n)
  {
    hide Running;
    hide Owns;
    hide IterFrom;
    l, done := l0, done0;
    var wr := sp.wtMin;
    while wr <= sp.wtMax
      invariant heap.Valid() && Owns(heap.live, base, l) && Running(f, task, l, start, done)
      invariant done + WtFrom(sp, nspd, wr, tid, n) == done0 + WtFrom(sp, nspd, sp.wtMin, tid, n)
      decreases sp.wtMax + 1 - wr
    {
      AppendAssociates(done, IterFrom(sp, nspd, wr, tid, n), WtFrom(sp, nspd, wr + 1, tid, n));
      l, done := SweepIters(heap, f, sp, task, nspd, wr, tid, n, l, start, done, base);
      wr := wr + 1;
    }
    assert done + [] == done;
  }

  /** The strided loop over the partitions. */
  method SweepIters(heap: Heap, f: Circuit, sp: Space, task: Task, nspd: real, wr: nat, tid: nat, n: nat, l0: Lists,
                    ghost start: Lists, ghost done0: seq<Config>, ghost base: multiset<nat>)
    returns (l: Lists, ghost done: seq<Config>)
    requires heap.Valid() && n >= 1 && Owns(heap.live, base, l0) && Running(f, task, l0, start, done0)
    modifies heap
    ensures heap.Valid() && Owns(heap.live, base, l) && Running(f, task, l, start, done)
    ensures done == done0 + IterFrom(sp, nspd, wr, tid, n)
  {
    hide Running;
    hide Owns;
    hide Sam1From;
    l, done := l0, done0;
    var iter := tid;
    while iter < sp.Niter()
      invariant heap.Valid() && Owns(heap.live, base, l) && Running(f, task, l, start, done)
      invariant done + IterFrom(sp, nspd, wr, iter, n) == done0 + IterFrom(sp, nspd, wr, tid, n)
      decreases sp.Niter() - iter
    {
      var ndwl, ndbl, ndcm := Pow2(WlExp(sp, iter)), Pow2(BlExp(sp, iter)), Pow2(CmExp(sp, iter));
      AppendAssociates(done, Sam1From(sp, nspd, wr, iter, 0), IterFrom(sp, nspd, wr, iter + n, n));
      l, done := SweepMuxes(heap, f, sp, task, nspd, wr, iter, ndwl, ndbl, ndcm, l, start, done, base);
      iter := iter + n;
    }
    assert done + [] == done;
  }

  /** The two doubling loops over the sense-amplifier multiplexing, up to MAX_COL_MUX. */
  method SweepMuxes(heap: Heap, f: Circuit, sp: Space, task: Task, nspd: real, wr: nat, ghost iter: nat,
                    ndwl: nat, ndbl: nat, ndcm: nat, l0: Lists,
                    ghost start: Lists, ghost done0: seq<Config>, ghost base: multiset<nat>)
    returns (l: Lists, ghost done: seq<Config>)
    requires heap.Valid() && Owns(heap.live, base, l0) && Running(f, task, l0, start, done0)
    requires ndwl == Pow2(WlExp(sp, iter)) && ndbl == Pow2(BlExp(sp, iter)) && ndcm == Pow2(CmExp(sp, iter))
    modifies heap
    ensures heap.Valid() && Owns(heap.live, base, l) && Running(f, task, l, start, done)
    ensures done == done0 + Sam1From(sp, nspd, wr, iter, 0)
  {
    hide Running;
    hide Owns;
    l, done := l0, done0;
    var maxColMux := Pow2(sp.cm);
    var sam1 := 1;
    ghost var j: nat := 0;
    while sam1 <= maxColMux
      invariant sam1 == Pow2(j) && j <= sp.cm + 1
      invariant heap.Valid() && Owns(heap.live, base, l) && Running(f, task, l, start, done)
      invariant done + Sam1From(sp, nspd, wr, iter, j) == done0 + Sam1From(sp, nspd, wr, iter, 0)
      decreases sp.cm + 1 - j
    {
      WithinPower(j, sp.cm);
      ghost var before := done;
      var sam2 := 1;
      ghost var k: nat := 0;
      while sam2 <= maxColMux
        invariant sam2 == Pow2(k) && k <= sp.cm + 1
        invariant heap.Valid() && Owns(heap.live, base, l) && Running(f, task, l, start, done)
        invariant done + Sam2From(sp, nspd, wr, iter, j, k) == before + Sam2From(sp, nspd, wr, iter, j, 0)
        decreases sp.cm + 1 - k
      {
        WithinPower(k, sp.cm);
        var c := Config(Partition(nspd, ndwl, ndbl, ndcm, sam1, sam2), wr);
        l := Consider(heap, f, task, l, c, start, done, base);
        AppendAssociates(done, [c], Sam2From(sp, nspd, wr, iter, j, k + 1));
        done := done + [c];
        sam2, k := sam2 * 2, k + 1;
      }
      WithinPower(k, sp.cm);
      assert done == before + Sam2From(sp, nspd, wr, iter, j, 0);
      assert before + (Sam2From(sp, nspd, wr, iter, j, 0) + Sam1From(sp, nspd, wr, iter, j + 1))
          == done + Sam1From(sp, nspd, wr, iter, j + 1);
      sam1, j := sam1 * 2, j + 1;
    }
    WithinPower(j, sp.cm);
  }

  lemma WithinPower(j: nat, cm: nat)
    ensures Pow2(j) <= Pow2(cm) <==> j <= cm
  {
    if j <= cm {
      Pow2Monotone(j, cm);
    } else {
      Pow2Increases(cm, j);
    }
  }

  // ----- several workers, in any interleaving -----

  const NO_LISTS := Lists([], [], NO_MINIMA, NO_MINIMA)

  datatype Phase = NotStarted | Busy | Done

  /** A thread: how far it is, the points it has yet to visit, and its private lists. */
  datatype Thread = Thread(phase: Phase, todo: seq<Config>, lists: Lists)
  {
    function Work(): nat {
      match phase
      case NotStarted => |todo| + 2
      case Busy => |todo| + 1
      case Done => 0
    }
  }

  ghost function TotalOwned(ts: seq<Thread>): multiset<nat> {
    if ts == [] then multiset{} else ts[0].lists.Owned() + TotalOwned(ts[1..])
  }

  ghost function TotalWork(ts: seq<Thread>): nat {
    if ts == [] then 0 else ts[0].Work() + TotalWork(ts[1..])
  }

  lemma {:induction false} WorkUpdate(ts: seq<Thread>, t: nat, x: Thread)
    requires t < |ts|
    ensures TotalWork(ts[t := x]) + ts[t].Work() == TotalWork(ts) + x.Work()
  {
    if t > 0 {
      assert ts[t := x][1..] == ts[1..][t - 1 := x];
      WorkUpdate(ts[1..], t - 1, x);
    } else {
      assert ts[0 := x][1..] == ts[1..];
    }
  }

  /** What all threads but t own. */
  ghost function OwnedExcept(ts: seq<Thread>, t: nat): multiset<nat>
    requires t < |ts|
  {
    TotalOwned(ts[..t]) + TotalOwned(ts[t + 1..])
  }

  lemma {:induction false} OwnedSplit(ts: seq<Thread>, t: nat)
    requires t < |ts|
    ensures TotalOwned(ts) == OwnedExcept(ts, t) + ts[t].lists.Owned()
  {
    if t > 0 {
      OwnedSplit(ts[1..], t - 1);
      assert ts[..t][1..] == ts[1..][..t - 1];
      assert ts[1..][t..] == ts[t + 1..];
      assert ts[..t][0] == ts[0];
    }
  }

  lemma OwnedExceptUpdate(ts: seq<Thread>, t: nat, x: Thread)
    requires t < |ts|
    ensures OwnedExcept(ts[t := x], t) == OwnedExcept(ts, t)
  {
    assert ts[t := x][..t] == ts[..t];
    assert ts[t := x][t + 1..] == ts[t + 1..];
  }

  /** Where a thread stands in its own run, whatever the others have done meanwhile. */
  ghost predicate ThreadInv(f: Circuit, sp: Space, task: Task, t: nat, n: nat, th: Thread, start: Lists,
                            done: seq<Config>)
    requires t < n && sp.spdMin > 0.0
  {
    && done + th.todo == Configs(sp, t, n)
    && match th.phase
       case NotStarted => done == [] && th.lists == start
       case Busy => Running(f, task, th.lists, start, done)
       case Done => th.todo == [] && Finished(f, task, th.lists, start, done)
  }

  /** One atomic step of one thread: allocate the blanks, run the loop body once, or free the blanks. */
  method StepThread(heap: Heap, f: Circuit, task: Task, th: Thread, ghost sp: Space, ghost t: nat, ghost n: nat,
                    ghost start: Lists, ghost done: seq<Config>, ghost others: multiset<nat>)
    returns (r: Thread, ghost done': seq<Config>)
    requires heap.Valid() && t < n && sp.spdMin > 0.0 && start.data == [] && start.tag == []
    requires th.phase != Done && ThreadInv(f, sp, task, t, n, th, start, done) && Owns(heap.live, others, th.lists)
    modifies heap
    ensures heap.Valid() && Owns(heap.live, others, r.lists)
    ensures ThreadInv(f, sp, task, t, n, r, start, done') && r.Work() < th.Work()
  {
    hide Running;
    hide Finished;
    hide Configs;
    done' := done;
    match th.phase {
      case NotStarted =>
        assert Ptrs([]) == multiset{};
        assert others == multiset(heap.live);
        var l := Begin(heap, f, task, th.lists);
        r := th.(phase := Busy, lists := l);
      case Busy =>
        if th.todo == [] {
          var l := Finish(heap, f, task, th.lists, start, done, others);
          r := th.(phase := Done, lists := l);
        } else {
          var c := th.todo[0];
          var l := Consider(heap, f, task, th.lists, c, start, done, others);
          done' := done + [c];
          assert done + th.todo == done' + th.todo[1..];
          r := th.(todo := th.todo[1..], lists := l);
        }
    }
  }

  ghost predicate AllThreads(f: Circuit, sp: Space, task: Task, n: nat, ts: seq<Thread>, starts: seq<Lists>,
                             dones: seq<seq<Config>>)
    requires sp.spdMin > 0.0 && |ts| == |starts| == |dones| == n
  {
    forall t :: 0 <= t < n ==> ThreadInv(f, sp, task, t, n, ts[t], starts[t], dones[t])
  }

  lemma AllThreadsUpdate(f: Circuit, sp: Space, task: Task, n: nat, ts: seq<Thread>, starts: seq<Lists>,
                         dones: seq<seq<Config>>, t: nat, r: Thread, done: seq<Config>)
    requires sp.spdMin > 0.0 && |ts| == |starts| == |dones| == n && t < n
    requires AllThreads(f, sp, task, n, ts, starts, dones) && ThreadInv(f, sp, task, t, n, r, starts[t], done)
    ensures AllThreads(f, sp, task, n, ts[t := r], starts, dones[t := done])
  {
    hide ThreadInv;
  }

  /** The scheduler picks thread t: its step changes nothing that belongs to the others. */
  method ScheduleOne(heap: Heap, f: Circuit, task: Task, ts: seq<Thread>, t: nat, ghost sp: Space, ghost n: nat,
                     ghost starts: seq<Lists>, ghost dones: seq<seq<Config>>, ghost base: multiset<nat>)
    returns (ts': seq<Thread>, ghost dones': seq<seq<Config>>)
    requires heap.Valid() && sp.spdMin > 0.0 && |ts| == |starts| == |dones| == n && t < n
    requires AllThreads(f, sp, task, n, ts, starts, dones) && ts[t].phase != Done
    requires starts[t].data == [] && starts[t].tag == []
    requires multiset(heap.live) == base + TotalOwned(ts)
    modifies heap
    ensures heap.Valid() && |ts'| == |dones'| == n && AllThreads(f, sp, task, n, ts', starts, dones')
    ensures multiset(heap.live) == base + TotalOwned(ts')
    ensures TotalWork(ts') < TotalWork(ts)
    ensures forall u :: 0 <= u < n && u != t ==> ts'[u] == ts[u] && dones'[u] == dones[u]
  {
    hide ThreadInv;
    OwnedSplit(ts, t);
    ghost var others := base + OwnedExcept(ts, t);
    var r, done' := StepThread(heap, f, task, ts[t], sp, t, n, starts[t], dones[t], others);
    WorkUpdate(ts, t, r);
    OwnedExceptUpdate(ts, t, r);
    AllThreadsUpdate(f, sp, task, n, ts, starts, dones, t, r, done');
    ts', dones' := ts[t := r], dones[t := done'];
    OwnedSplit(ts', t);
  }

  /** Worker t's points, as the thread's program. */
  function Programs(sp: Space, n: nat, starts: seq<Lists>): (ts: seq<Thread>)
    requires n >= 1 && sp.spdMin > 0.0 && |starts| == n
    ensures |ts| == n && forall t :: 0 <= t < n ==> ts[t] == Thread(NotStarted, Configs(sp, t, n), starts[t])
  {
    seq(n, t requires 0 <= t < n => Thread(NotStarted, Configs(sp, t, n), starts[t]))
  }

  lemma {:induction false} NothingOwnedYet(ts: seq<Thread>)
    requires forall t :: 0 <= t < |ts| ==> ts[t].lists.data == [] && ts[t].lists.tag == []
    ensures TotalOwned(ts) == multiset{}
  {
    if ts != [] {
      NothingOwnedYet(ts[1..]);
    }
  }

  lemma ProgramsReady(f: Circuit, sp: Space, task: Task, n: nat, starts: seq<Lists>)
    requires sp.spdMin > 0.0 && n >= 1 && |starts| == n
    ensures AllThreads(f, sp, task, n, Programs(sp, n, starts), starts, seq(n, t => []))
  {
    var ts, dones := Programs(sp, n, starts), seq(n, t => []);
    forall t | 0 <= t < n ensures ThreadInv(f, sp, task, t, n, ts[t], starts[t], dones[t]) {
      assert [] + ts[t].todo == Configs(sp, t, n);
    }
  }

  lemma AllDone(f: Circuit, sp: Space, task: Task, n: nat, ts: seq<Thread>, starts: seq<Lists>, dones: seq<seq<Config>>)
    requires sp.spdMin > 0.0 && |ts| == |starts| == |dones| == n && AllThreads(f, sp, task, n, ts, starts, dones)
    requires forall t :: 0 <= t < n ==> ts[t].phase == Done
    ensures forall t :: 0 <= t < n ==> Finished(f, task, ts[t].lists, starts[t], Configs(sp, t, n))
  {
    forall t | 0 <= t < n ensures Finished(f, task, ts[t].lists, starts[t], Configs(sp, t, n)) {
      assert ThreadInv(f, sp, task, t, n, ts[t], starts[t], dones[t]);
      assert dones[t] + [] == dones[t];
    }
  }

  /**
   Create all threads and join them.  The scheduler is an arbitrary choice among the unfinished threads, made anew
   before every step; whatever it chooses, the run ends with every thread's lists and minima those of its own
   undisturbed run, and with the live arrays exactly those on the lists.
   */
  method RunThreads(heap: Heap, f: Circuit, sp: Space, task: Task, n: nat, starts: seq<Lists>) returns (ts: seq<Thread>)
    requires heap.Valid() && sp.spdMin > 0.0 && n >= 1 && |starts| == n
    requires forall t :: 0 <= t < n ==> starts[t].data == [] && starts[t].tag == []
    modifies heap
    ensures heap.Valid() && |ts| == n
    ensures forall t :: 0 <= t < n ==> Finished(f, task, ts[t].lists, starts[t], Configs(sp, t, n))
    ensures multiset(heap.live) == multiset(old(heap.live)) + TotalOwned(ts)
  {
    hide AllThreads;
    hide Finished;
    hide Configs;
    ts := Programs(sp, n, starts);
    ghost var dones: seq<seq<Config>> := seq(n, t => []);
    ghost var base := multiset(heap.live);
    NothingOwnedYet(ts);
    ProgramsReady(f, sp, task, n, starts);
    while exists t :: 0 <= t < n && ts[t].phase != Done
      invariant heap.Valid() && |ts| == |dones| == n && AllThreads(f, sp, task, n, ts, starts, dones)
      invariant multiset(heap.live) == base + TotalOwned(ts)
      decreases TotalWork(ts)
    {
      var t :| 0 <= t < n && ts[t].phase != Done;
      ts, dones := ScheduleOne(heap, f, task, ts, t, sp, n, starts, dones, base);
    }
    AllDone(f, sp, task, n, ts, starts, dones);
  }
}
