/**
 The two filters over memory arrays.  The data filter erases while iterating; the tag filter empties the list from
 the back and keeps one array.  Both free what they drop.
 */
module Filters {
  import opened MemArray
  import opened StableMerge
  import opened Workers
  import opened StdList
  import opened Select

  // ----- filter_data_arr -----

  function Excess(x: real, min: real): real
    requires min > 0.0
  {
    (x - min) / min
  }

  /** Worse than one and a half times the minimum in both delay and dynamic energy. */
  predicate Far(p: Perf, m: Minima)
    requires m.Positive()
  {
    Excess(p.delay, m.delay) > 0.5 && Excess(p.dyn, m.dyn) > 0.5
  }

  function Survivors(s: seq<Cell>, m: Minima): seq<Cell>
    requires m.Positive()
  {
    if s == [] then [] else (if Far(s[0].arr.metrics.perf, m) then [] else [s[0]]) + Survivors(s[1..], m)
  }

  /** The same filter on arrays without their pointers. */
  function NearArrays(s: seq<MemArray>, m: Minima): seq<MemArray>
    requires m.Positive()
  {
    if s == [] then [] else (if Far(s[0].metrics.perf, m) then [] else [s[0]]) + NearArrays(s[1..], m)
  }

  lemma {:induction false} SurvivorArrays(s: seq<Cell>, m: Minima)
    requires m.Positive()
    ensures Arrs(Survivors(s, m)) == NearArrays(Arrs(s), m)
  {
    if s != [] {
      ArrsTail(s);
      SurvivorArrays(s[1..], m);
      if !Far(s[0].arr.metrics.perf, m) {
        ArrsCons(s[0], Survivors(s[1..], m));
      }
    }
  }

  lemma {:induction false} SurvivorsAppend(a: seq<Cell>, b: seq<Cell>, m: Minima)
    requires m.Positive()
    ensures Survivors(a + b, m) == Survivors(a, m) + Survivors(b, m)
  {
    if a == [] {
      assert a + b == b;
    } else {
      assert (a + b)[1..] == a[1..] + b;
      SurvivorsAppend(a[1..], b, m);
    }
  }

  lemma SurvivorsSnoc(s: seq<Cell>, i: nat, m: Minima)
    requires m.Positive() && i < |s|
    ensures Survivors(s[..i + 1], m) == Survivors(s[..i], m) + (if Far(s[i].arr.metrics.perf, m) then [] else [s[i]])
  {
    assert s[..i + 1] == s[..i] + [s[i]];
    SurvivorsAppend(s[..i], [s[i]], m);
    assert Survivors([s[i]], m) == (if Far(s[i].arr.metrics.perf, m) then [] else [s[i]]) + Survivors([], m);
  }

  lemma {:induction false} SurvivorsMember(s: seq<Cell>, i: nat, m: Minima)
    requires m.Positive() && i < |s| && !Far(s[i].arr.metrics.perf, m)
    ensures s[i] in Survivors(s, m)
  {
    if i > 0 {
      SurvivorsMember(s[1..], i - 1, m);
    }
  }

  lemma {:induction false} SurvivorsNear(s: seq<Cell>, m: Minima)
    requires m.Positive()
    ensures forall x :: x in Survivors(s, m) ==> x in s && !Far(x.arr.metrics.perf, m)
  {
    if s != [] {
      SurvivorsNear(s[1..], m);
    }
  }

  lemma ExcessThreshold(x: real, min: real)
    requires min > 0.0
    ensures Excess(x, min) > 0.5 <==> x > 1.5 * min
  {
    RatioOrder(0.5 * min, x - min, min);
    DivideOut(0.5, min);
  }

  /** Far means beyond one and a half times the least delay and one and a half times the least energy. */
  lemma FarExactly(p: Perf, m: Minima)
    requires m.Positive()
    ensures Far(p, m) <==> p.delay > 1.5 * m.delay && p.dyn > 1.5 * m.dyn
  {
    hide Excess;
    ExcessThreshold(p.delay, m.delay);
    ExcessThreshold(p.dyn, m.dyn);
  }

  /** More than one and a half times the least delay and the least energy: what the filter drops. */
  predicate Dropped(c: Cell, m: Minima) {
    c.arr.metrics.perf.delay > 1.5 * m.delay && c.arr.metrics.perf.dyn > 1.5 * m.dyn
  }

  /** Entries that are not dropped survive, in their order. */
  lemma {:induction false} SurvivorsExactly(s: seq<Cell>, m: Minima, i: nat, j: nat)
    requires m.Positive() && i < j < |s| && !Dropped(s[i], m) && !Dropped(s[j], m)
    ensures exists a, b :: 0 <= a < b < |Survivors(s, m)| && Survivors(s, m)[a] == s[i] && Survivors(s, m)[b] == s[j]
  {
    hide Far;
    FarExactly(s[0].arr.metrics.perf, m);
    var rest := Survivors(s[1..], m);
    if i > 0 {
      SurvivorsExactly(s[1..], m, i - 1, j - 1);
      var a, b :| 0 <= a < b < |rest| && rest[a] == s[i] && rest[b] == s[j];
      var k := |Survivors(s, m)| - |rest|;
      assert Survivors(s, m)[k + a] == s[i] && Survivors(s, m)[k + b] == s[j];
    } else {
      FarExactly(s[j].arr.metrics.perf, m);
      SurvivorsMember(s[1..], j - 1, m);
      var b :| 0 <= b < |rest| && rest[b] == s[j];
      assert Survivors(s, m)[0] == s[0] && Survivors(s, m)[b + 1] == s[j];
    }
  }

  /** Of s exactly the entries that are not dropped are left in r. */
  ghost predicate DropsExactly(s: seq<Cell>, r: seq<Cell>, m: Minima) {
    forall c :: c in r <==> c in s && !Dropped(c, m)
  }

  lemma SurvivorsAreNot(s: seq<Cell>, m: Minima)
    requires m.Positive()
    ensures DropsExactly(s, Survivors(s, m), m)
  {
    hide Far;
    SurvivorsNear(s, m);
    forall c | c in s ensures c in Survivors(s, m) <==> !Dropped(c, m) {
      FarExactly(c.arr.metrics.perf, m);
      if !Dropped(c, m) {
        var i :| 0 <= i < |s| && s[i] == c;
        SurvivorsMember(s, i, m);
      }
    }
  }

  /**
   When nothing is left: with minima taken over the same list, the filter empties a non-empty list only if every
   array is beyond one and a half times BIGNUM in both delay and dynamic energy.
   */
  lemma NeverEmpties(s: seq<Cell>, m: Minima)
    requires m == MinOver(Perfs(Arrs(s)), NO_MINIMA) && m.Positive()
    ensures Survivors(s, m) == []
       <==> forall i :: 0 <= i < |s| ==>
                          s[i].arr.metrics.perf.delay > 1.5 * BIGNUM && s[i].arr.metrics.perf.dyn > 1.5 * BIGNUM
  {
    var perfs := Perfs(Arrs(s));
    MinOverIsBelow(perfs, NO_MINIMA);
    MinOverIsAttained(perfs, NO_MINIMA);
    if Survivors(s, m) == [] {
      AllFar(s, m);
      forall j | 0 <= j < |perfs|
        ensures perfs[j].delay != m.delay && perfs[j].delay > 1.5 * m.delay
        ensures perfs[j].dyn != m.dyn && perfs[j].dyn > 1.5 * m.dyn
      {
        assert Far(s[j].arr.metrics.perf, m);
        ExcessThreshold(perfs[j].delay, m.delay);
        ExcessThreshold(perfs[j].dyn, m.dyn);
      }
      assert m.delay == BIGNUM && m.dyn == BIGNUM;
      assert forall j :: 0 <= j < |s| ==> perfs[j] == s[j].arr.metrics.perf;
    } else {
      SurvivorsNear(s, m);
      var x := Survivors(s, m)[0];
      assert x in s && !Far(x.arr.metrics.perf, m);
      var i :| 0 <= i < |s| && s[i] == x;
      ExcessThreshold(perfs[i].delay, m.delay);
      ExcessThreshold(perfs[i].dyn, m.dyn);
    }
  }

  lemma AllFar(s: seq<Cell>, m: Minima)
    requires m.Positive() && Survivors(s, m) == []
    ensures forall i :: 0 <= i < |s| ==> Far(s[i].arr.metrics.perf, m)
  {
    forall i | 0 <= i < |s| ensures Far(s[i].arr.metrics.perf, m) {
      if !Far(s[i].arr.metrics.perf, m) {
        SurvivorsMember(s, i, m);
      }
    }
  }

  lemma PtrsMiddle(a: seq<Cell>, c: Cell, b: seq<Cell>)
    ensures Ptrs(a + [c] + b) == Ptrs(a + b) + multiset{c.ptr}
  {
    PtrsAppend(a + [c], b);
    PtrsSnoc(a, c);
    PtrsAppend(a, b);
  }

  /** Deletes an array of the list and unlinks it; returns the position of the next one. */
  method DeleteAt(heap: Heap, list: List<Cell>, p: nat, ghost others: multiset<nat>) returns (q: nat)
    requires heap.Valid() && p < |list.elems| && multiset(heap.live) == others + Ptrs(list.elems)
    modifies heap, list
    ensures heap.Valid() && multiset(heap.live) == others + Ptrs(list.elems)
    ensures list.elems == old(list.elems)[..p] + old(list.elems)[p + 1..] && q == p
  {
    ghost var s := list.elems;
    var c := list.At(p);
    assert s == s[..p] + [c] + s[p + 1..];
    PtrsMiddle(s[..p], c, s[p + 1..]);
    PtrsMember(s, p);
    assert c.ptr in multiset(heap.live);
    heap.Delete(c.ptr);
    q := list.Erase(p);
    CancelOne(multiset(heap.live), others + Ptrs(list.elems), c.ptr);
  }

  /** i entries are behind the cursor; in front of it the survivors among them, behind it the rest. */
  ghost predicate Filtering(s: seq<Cell>, i: nat, elems: seq<Cell>, iter: nat, m: Minima)
    requires m.Positive()
  {
    i <= |s| && iter <= |elems| && elems[..iter] == Survivors(s[..i], m) && elems[iter..] == s[i..]
  }

  lemma FilteringNext(s: seq<Cell>, i: nat, elems: seq<Cell>, iter: nat, m: Minima)
    requires m.Positive() && Filtering(s, i, elems, iter, m) && iter < |elems|
    ensures i < |s| && elems[iter] == s[i]
    ensures if Far(s[i].arr.metrics.perf, m) then Filtering(s, i + 1, elems[..iter] + elems[iter + 1..], iter, m)
            else Filtering(s, i + 1, elems, iter + 1, m)
  {
    hide Far;
    assert elems[iter..][0] == elems[iter];
    SurvivorsSnoc(s, i, m);
    assert elems[iter + 1..] == elems[iter..][1..] == s[i..][1..] == s[i + 1..];
    assert elems[..iter + 1] == elems[..iter] + [elems[iter]];
  }

  lemma FilteringEnds(s: seq<Cell>, i: nat, elems: seq<Cell>, iter: nat, m: Minima)
    requires m.Positive() && Filtering(s, i, elems, iter, m)
    ensures iter <= |elems| && (iter == |elems| ==> elems == Survivors(s, m)) && |s| - i == |elems| - iter
  {
    if iter == |elems| {
      assert s[i..] == [];
      assert s[..i] == s && elems[..iter] == elems;
    }
  }

  lemma FilteringStarts(s: seq<Cell>, m: Minima)
    requires m.Positive()
    ensures Filtering(s, 0, s, 0, m)
  {
    assert s[..0] == [];
  }

  /** filter_data_arr, stepping back over the sentinel after erasing the first entry; false means exit. */
  method FilterDataArr(heap: Heap, list: List<Cell>, m: Minima, ghost others: multiset<nat>) returns (ok: bool)
    requires heap.Valid() && m.Positive() && multiset(heap.live) == others + Ptrs(list.elems)
    modifies heap, list
    ensures ok <==> old(list.elems) != []
    ensures list.elems == Survivors(old(list.elems), m)
    ensures DropsExactly(old(list.elems), list.elems, m)
    ensures heap.Valid() && multiset(heap.live) == others + Ptrs(list.elems)
  {
    hide Far;
    hide DropsExactly;
    hide Filtering;
    hide Ptrs;
    ghost var s := list.elems;
    SurvivorsAreNot(s, m);
    if list.Empty() {
      return false;
    }
    ghost var i: nat := 0;
    var iter := list.Begin();
    FilteringStarts(s, m);
    while iter != list.End()
      invariant 0 <= iter <= |list.elems| && Filtering(s, i, list.elems, iter, m)
      invariant heap.Valid() && multiset(heap.live) == others + Ptrs(list.elems)
      decreases |list.elems| - iter
    {
      FilteringNext(s, i, list.elems, iter, m);
      var c := list.At(iter);
      if Far(c.arr.metrics.perf, m) {
        iter := DeleteAt(heap, list, iter, others);
        iter := list.Prev(iter);
        iter := list.Next(iter);
      } else {
        iter := list.Next(iter);
      }
      i := i + 1;
    }
    FilteringEnds(s, i, list.elems, iter, m);
    return true;
  }

  // ----- filter_tag_arr -----

  ghost function TagScores(s: seq<Cell>, m: Minima, o: Objective): (r: seq<Score>)
    requires m.Positive()
    ensures |r| == |s| && forall i :: 0 <= i < |s| ==> r[i] == ScoreOf(Weighted, s[i].arr.metrics.perf, m, o)
  {
    Scores(Weighted, Perfs(Arrs(s)), m, o)
  }

  /** r is the last least-cost entry below BIGNUM among those from lo on; -1 when there is none. */
  ghost predicate IsLastBest(s: seq<Score>, lo: nat, r: int) {
    if r == -1 then
      forall i :: lo <= i < |s| && s[i].Cost? ==> s[i].c >= BIGNUM
    else
      && lo <= r < |s| && s[r].Cost? && s[r].c < BIGNUM
      && (forall i :: lo <= i < |s| && s[i].Cost? ==> s[r].c <= s[i].c)
      && (forall i :: r < i < |s| && s[i].Cost? ==> s[r].c < s[i].c)
  }

  /** Taking one more entry from the back. */
  lemma LastBestExtend(s: seq<Score>, lo: nat, r: int)
    requires lo < |s| && IsLastBest(s, lo + 1, r)
    ensures IsLastBest(s, lo, if s[lo].Cost? && s[lo].c < (if r == -1 then BIGNUM else s[r].c) then lo else r)
  {
  }

  ghost predicate Emptying(s: seq<Cell>, scores: seq<Score>, n: nat, r: int, cost: real, res: TagPtr) {
    && n <= |s| == |scores| && IsLastBest(scores, n, r)
    && (if r == -1 then cost == BIGNUM && res == NoTag else cost == scores[r].c && res == Tag(s[r]))
  }

  lemma EmptyingStep(s: seq<Cell>, scores: seq<Score>, n: nat, r: int, cost: real, res: TagPtr)
    requires n + 1 <= |s| && Emptying(s, scores, n + 1, r, cost, res)
    ensures if scores[n].Cost? && scores[n].c < cost then Emptying(s, scores, n, n, scores[n].c, Tag(s[n]))
            else Emptying(s, scores, n, r, cost, res)
  {
    LastBestExtend(scores, n, r);
  }

  ghost function Held(res: TagPtr): multiset<nat> {
    if res.NoTag? then multiset{} else multiset{res.cell.ptr}
  }

  method DeleteOne(heap: Heap, p: nat, ghost others: multiset<nat>)
    requires heap.Valid() && multiset(heap.live) == others + multiset{p}
    modifies heap
    ensures heap.Valid() && multiset(heap.live) == others
  {
    assert p in multiset(heap.live);
    heap.Delete(p);
    CancelOne(multiset(heap.live), others, p);
  }

  /** Unlinks the back; keeps it as the new result when it is cheaper, and frees the loser. */
  method TakeBack(heap: Heap, list: List<Cell>, cheaper: bool, res: TagPtr, ghost others: multiset<nat>)
    returns (res': TagPtr)
    requires heap.Valid() && list.elems != []
    requires multiset(heap.live) == others + Ptrs(list.elems) + Held(res)
    modifies heap, list
    ensures heap.Valid() && multiset(heap.live) == others + Ptrs(list.elems) + Held(res')
    ensures list.elems == old(list.elems)[..|old(list.elems)| - 1]
    ensures res' == if cheaper then Tag(old(list.elems)[|old(list.elems)| - 1]) else res
  {
    hide Ptrs;
    var back := list.Back();
    PtrsSplitLast(list.elems);
    ghost var rest := Ptrs(list.elems[..|list.elems| - 1]);
    if cheaper {
      if res.Tag? {
        DeleteOne(heap, res.cell.ptr, others + Ptrs(list.elems));
      }
      res' := Tag(back);
      MoveLast(others, rest, multiset{back.ptr}, multiset{});
    } else {
      MoveLast(others, rest, multiset{back.ptr}, Held(res));
      DeleteOne(heap, back.ptr, others + rest + Held(res));
      res' := res;
    }
    list.PopBack();
  }

  lemma MoveLast(a: multiset<nat>, b: multiset<nat>, c: multiset<nat>, d: multiset<nat>)
    ensures a + (b + c) + d == a + b + d + c
  {
  }

  /** filter_tag_arr leaves exactly one array, or fails when no array meets the deviations below BIGNUM. */
  method FilterTagArr(heap: Heap, list: List<Cell>, m: Minima, o: Objective, ghost others: multiset<nat>)
    returns (ok: bool, ghost r: int)
    requires heap.Valid() && m.Positive() && multiset(heap.live) == others + Ptrs(list.elems)
    modifies heap, list
    ensures IsLastBest(TagScores(old(list.elems), m, o), 0, r)
    ensures ok <==> r != -1
    ensures ok ==> 0 <= r < |old(list.elems)| && list.elems == [old(list.elems)[r]]
    ensures heap.Valid() && multiset(heap.live) == others + Ptrs(list.elems)
  {
    hide Within;
    hide WeightedCost;
    hide Emptying;
    hide IsLastBest;
    hide Ptrs;
    hide Held;
    ghost var s := list.elems;
    ghost var scores := TagScores(s, m, o);
    r := -1;
    var cost, res := BIGNUM, NoTag;
    assert s[..|s|] == s;
    EmptyingStart(s, scores);
    HeldBounds(res);
    while !list.Empty()
      invariant |list.elems| <= |s| && list.elems == s[..|list.elems|]
      invariant Emptying(s, scores, |list.elems|, r, cost, res)
      invariant heap.Valid() && multiset(heap.live) == others + Ptrs(list.elems) + Held(res)
      decreases |list.elems|
    {
      ghost var n := |list.elems| - 1;
      EmptyingStep(s, scores, n, r, cost, res);
      CostAtMostBig(s, scores, n, r, cost, res);
      var back := list.Back();
      var v := Within(back.arr.metrics.perf, m, o);
      var curCost := if v then WeightedCost(back.arr.metrics.perf, m, o) else BIGNUM;
      res := TakeBack(heap, list, curCost < cost, res, others);
      if curCost < cost {
        cost, r := curCost, n;
      }
    }
    EmptyingEnd(s, scores, r, cost, res);
    HeldBounds(res);
    if res.NoTag? {
      return false, r;
    }
    list.PushBack(res.cell);
    assert [] + [res.cell] == [res.cell];
    return true, r;
  }

  lemma HeldBounds(res: TagPtr)
    ensures Ptrs([]) == multiset{}
    ensures res.NoTag? ==> Held(res) == multiset{}
    ensures res.Tag? ==> Held(res) == Ptrs([res.cell])
  {
    if res.Tag? {
      PtrsSingle(res.cell.ptr, res.cell.arr);
    }
  }

  lemma EmptyingStart(s: seq<Cell>, scores: seq<Score>)
    requires |s| == |scores|
    ensures Emptying(s, scores, |s|, -1, BIGNUM, NoTag)
  {
  }

  lemma EmptyingEnd(s: seq<Cell>, scores: seq<Score>, r: int, cost: real, res: TagPtr)
    requires Emptying(s, scores, 0, r, cost, res)
    ensures IsLastBest(scores, 0, r)
    ensures res.NoTag? <==> r == -1
    ensures res.Tag? ==> 0 <= r < |s| && res.cell == s[r]
  {
  }

  lemma CostAtMostBig(s: seq<Cell>, scores: seq<Score>, n: nat, r: int, cost: real, res: TagPtr)
    requires n + 1 <= |s| && Emptying(s, scores, n + 1, r, cost, res)
    ensures cost <= BIGNUM
  {
  }
}
