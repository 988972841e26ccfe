/**
 Stable sort and merge of lists of array pointers, and the one fact that makes them schedule-proof: a sorted list
 is determined by its subsequences of equal keys.
 */
module StableMerge {
  import opened MemArray

  /** A list entry: a pointer, and the array it points to. */
  datatype Cell = Cell(ptr: nat, arr: MemArray)

  function Arrs(s: seq<Cell>): (r: seq<MemArray>)
    ensures |r| == |s| && forall i :: 0 <= i < |s| ==> r[i] == s[i].arr
  {
    seq(|s|, i requires 0 <= i < |s| => s[i].arr)
  }

  function Perfs(s: seq<MemArray>): (r: seq<Perf>)
    ensures |r| == |s| && forall i :: 0 <= i < |s| ==> r[i] == s[i].metrics.perf
  {
    seq(|s|, i requires 0 <= i < |s| => s[i].metrics.perf)
  }

  /** The pointers of a list, counted. */
  ghost function Ptrs(s: seq<Cell>): multiset<nat> {
    if s == [] then multiset{} else multiset{s[0].ptr} + Ptrs(s[1..])
  }

  lemma {:induction false} PtrsAppend(a: seq<Cell>, b: seq<Cell>)
    ensures Ptrs(a + b) == Ptrs(a) + Ptrs(b)
  {
    if a == [] {
      assert a + b == b;
    } else {
      assert (a + b)[1..] == a[1..] + b;
      PtrsAppend(a[1..], b);
    }
  }

  lemma {:induction false} PtrsMember(s: seq<Cell>, i: nat)
    requires i < |s|
    ensures s[i].ptr in Ptrs(s)
  {
    if i > 0 {
      PtrsMember(s[1..], i - 1);
    }
  }

  ghost predicate Sorted(s: seq<MemArray>) {
    forall i, j :: 0 <= i < j < |s| ==> !Lt(s[j].key, s[i].key)
  }

  /** The subsequence with key k, in list order. */
  ghost function OfKey(s: seq<MemArray>, k: Key): seq<MemArray> {
    if s == [] then [] else (if s[0].key == k then [s[0]] else []) + OfKey(s[1..], k)
  }

  lemma {:induction false} OfKeyAppend(a: seq<MemArray>, b: seq<MemArray>, k: Key)
    ensures OfKey(a + b, k) == OfKey(a, k) + OfKey(b, k)
  {
    if a == [] {
      assert a + b == b;
    } else {
      assert (a + b)[1..] == a[1..] + b;
      OfKeyAppend(a[1..], b, k);
    }
  }

  lemma {:induction false} OfKeyNone(s: seq<MemArray>, k: Key)
    requires forall i :: 0 <= i < |s| ==> s[i].key != k
    ensures OfKey(s, k) == []
  {
    if s != [] {
      OfKeyNone(s[1..], k);
    }
  }

  lemma {:induction false} OfKeyMember(s: seq<MemArray>, i: nat)
    requires i < |s|
    ensures OfKey(s, s[i].key) != []
  {
    if i > 0 {
      OfKeyMember(s[1..], i - 1);
    }
  }

  /** In a sorted list nothing precedes the first key. */
  lemma HeadIsLeast(s: seq<MemArray>, k: Key)
    requires Sorted(s) && s != [] && Lt(k, s[0].key)
    ensures OfKey(s, k) == []
  {
    forall i | 0 <= i < |s| ensures s[i].key != k {
      if i > 0 { assert !Lt(s[i].key, s[0].key); }
      LtTotal(k, s[0].key);
    }
    OfKeyNone(s, k);
  }

  /** Two sorted lists with the same subsequence for every key are the same list. */
  lemma {:induction false} SortedUnique(a: seq<MemArray>, b: seq<MemArray>)
    requires Sorted(a) && Sorted(b)
    requires forall k :: OfKey(a, k) == OfKey(b, k)
    ensures a == b
  {
    if a == [] {
      if b != [] {
        OfKeyMember(b, 0);
      }
    } else if b == [] {
      OfKeyMember(a, 0);
    } else {
      var ka, kb := a[0].key, b[0].key;
      OfKeyMember(a, 0);
      OfKeyMember(b, 0);
      LtTotal(ka, kb);
      if Lt(ka, kb) {
        HeadIsLeast(b, ka);
      } else if Lt(kb, ka) {
        HeadIsLeast(a, kb);
      }
      assert OfKey(a, ka)[0] == a[0] && OfKey(b, ka)[0] == b[0];
      forall k ensures OfKey(a[1..], k) == OfKey(b[1..], k) {
        assert OfKey(a, k) == (if ka == k then [a[0]] else []) + OfKey(a[1..], k);
        assert OfKey(b, k) == (if ka == k then [b[0]] else []) + OfKey(b[1..], k);
        DropSamePrefix(if ka == k then [a[0]] else [], OfKey(a[1..], k), OfKey(b[1..], k));
      }
      SortedUnique(a[1..], b[1..]);
      assert a == [a[0]] + a[1..] && b == [b[0]] + b[1..];
    }
  }

  lemma DropSamePrefix<T>(p: seq<T>, x: seq<T>, y: seq<T>)
    requires p + x == p + y
    ensures x == y
  {
    assert x == (p + x)[|p|..];
    assert y == (p + y)[|p|..];
  }

  // ----- merge -----

  /** list::merge: on equal keys the entries of the receiving list come first. */
  function Merge(a: seq<Cell>, b: seq<Cell>): (r: seq<Cell>)
    decreases |a| + |b|
  {
    if b == [] then a
    else if a == [] then b
    else if Lt(b[0].arr.key, a[0].arr.key) then [b[0]] + Merge(a, b[1..])
    else [a[0]] + Merge(a[1..], b)
  }

  lemma ArrsCons(c: Cell, s: seq<Cell>)
    ensures Arrs([c] + s) == [c.arr] + Arrs(s)
  {
  }

  lemma ArrsTail(s: seq<Cell>)
    requires s != []
    ensures Arrs(s) == [s[0].arr] + Arrs(s[1..]) && Arrs(s)[1..] == Arrs(s[1..])
  {
  }

  lemma OfKeyCons(x: MemArray, s: seq<MemArray>, k: Key)
    ensures OfKey([x] + s, k) == (if x.key == k then [x] else []) + OfKey(s, k)
  {
    assert ([x] + s)[1..] == s;
  }

  /** Merging sorted lists keeps, for every key, the receiver's entries followed by the donor's. */
  lemma {:induction false} MergeOfKey(a: seq<Cell>, b: seq<Cell>, k: Key)
    requires Sorted(Arrs(a)) && Sorted(Arrs(b))
    ensures OfKey(Arrs(Merge(a, b)), k) == OfKey(Arrs(a), k) + OfKey(Arrs(b), k)
    decreases |a| + |b|
  {
    if b == [] {
    } else if a == [] {
    } else if Lt(b[0].arr.key, a[0].arr.key) {
      ArrsTail(b);
      MergeOfKey(a, b[1..], k);
      ArrsCons(b[0], Merge(a, b[1..]));
      OfKeyCons(b[0].arr, Arrs(Merge(a, b[1..])), k);
      OfKeyCons(b[0].arr, Arrs(b[1..]), k);
      if b[0].arr.key == k {
        HeadIsLeast(Arrs(a), k);
      }
    } else {
      ArrsTail(a);
      MergeOfKey(a[1..], b, k);
      ArrsCons(a[0], Merge(a[1..], b));
      OfKeyCons(a[0].arr, Arrs(Merge(a[1..], b)), k);
      OfKeyCons(a[0].arr, Arrs(a[1..]), k);
    }
  }

  ghost predicate NoneBefore(s: seq<Cell>, k: Key) {
    forall i :: 0 <= i < |s| ==> !Lt(s[i].arr.key, k)
  }

  lemma {:induction false} MergeBound(a: seq<Cell>, b: seq<Cell>, k: Key)
    requires NoneBefore(a, k) && NoneBefore(b, k)
    ensures NoneBefore(Merge(a, b), k)
    decreases |a| + |b|
  {
    if a != [] && b != [] {
      if Lt(b[0].arr.key, a[0].arr.key) {
        MergeBound(a, b[1..], k);
      } else {
        MergeBound(a[1..], b, k);
      }
    }
  }

  lemma SortedHead(s: seq<Cell>)
    requires s != [] && Sorted(Arrs(s))
    ensures NoneBefore(s, s[0].arr.key)
  {
    forall i | 0 <= i < |s| ensures !Lt(s[i].arr.key, s[0].arr.key) {
      if i > 0 {
        assert !Lt(Arrs(s)[i].key, Arrs(s)[0].key);
      }
    }
  }

  lemma SortedCons(c: Cell, s: seq<Cell>)
    requires Sorted(Arrs(s)) && NoneBefore(s, c.arr.key)
    ensures Sorted(Arrs([c] + s))
  {
  }

  lemma NoneBeforeTransitive(s: seq<Cell>, k: Key, k2: Key)
    requires NoneBefore(s, k) && !Lt(k, k2)
    ensures NoneBefore(s, k2)
  {
    forall i | 0 <= i < |s| ensures !Lt(s[i].arr.key, k2) {
      LtTotal(k, s[i].arr.key);
      if Lt(s[i].arr.key, k2) && Lt(k, s[i].arr.key) {
        LtTransitive(k, s[i].arr.key, k2);
      }
    }
  }

  lemma {:induction false} MergeSorted(a: seq<Cell>, b: seq<Cell>)
    requires Sorted(Arrs(a)) && Sorted(Arrs(b))
    ensures Sorted(Arrs(Merge(a, b)))
    decreases |a| + |b|
  {
    if a != [] && b != [] {
      SortedHead(a);
      SortedHead(b);
      LtTotal(a[0].arr.key, b[0].arr.key);
      if Lt(b[0].arr.key, a[0].arr.key) {
        ArrsTail(b);
        MergeSorted(a, b[1..]);
        NoneBeforeTransitive(a, a[0].arr.key, b[0].arr.key);
        MergeBound(a, b[1..], b[0].arr.key);
        SortedCons(b[0], Merge(a, b[1..]));
      } else {
        ArrsTail(a);
        MergeSorted(a[1..], b);
        NoneBeforeTransitive(b, b[0].arr.key, a[0].arr.key);
        MergeBound(a[1..], b, a[0].arr.key);
        SortedCons(a[0], Merge(a[1..], b));
      }
    }
  }

  lemma {:induction false} MergePtrs(a: seq<Cell>, b: seq<Cell>)
    ensures Ptrs(Merge(a, b)) == Ptrs(a) + Ptrs(b)
    decreases |a| + |b|
  {
    if a != [] && b != [] {
      if Lt(b[0].arr.key, a[0].arr.key) {
        MergePtrs(a, b[1..]);
        assert ([b[0]] + Merge(a, b[1..]))[1..] == Merge(a, b[1..]);
      } else {
        MergePtrs(a[1..], b);
        assert ([a[0]] + Merge(a[1..], b))[1..] == Merge(a[1..], b);
      }
    }
  }

  // ----- sort -----

  /** list::sort: any stable sort; here each entry in turn is merged in before the later ones. */
  function Sort(s: seq<Cell>): (r: seq<Cell>) {
    if s == [] then [] else Merge([s[0]], Sort(s[1..]))
  }

  lemma {:induction false} SortSorted(s: seq<Cell>)
    ensures Sorted(Arrs(Sort(s)))
  {
    if s != [] {
      SortSorted(s[1..]);
      MergeSorted([s[0]], Sort(s[1..]));
    }
  }

  /** Stability: for every key the order of equal entries is the input order. */
  lemma {:induction false} SortOfKey(s: seq<Cell>, k: Key)
    ensures OfKey(Arrs(Sort(s)), k) == OfKey(Arrs(s), k)
  {
    if s != [] {
      SortSorted(s[1..]);
      SortOfKey(s[1..], k);
      MergeOfKey([s[0]], Sort(s[1..]), k);
      ArrsTail(s);
      OfKeyCons(s[0].arr, Arrs(s[1..]), k);
      ArrsTail([s[0]]);
      OfKeyCons(s[0].arr, Arrs([]), k);
    }
  }

  lemma {:induction false} SortPtrs(s: seq<Cell>)
    ensures Ptrs(Sort(s)) == Ptrs(s)
  {
    if s != [] {
      SortPtrs(s[1..]);
      MergePtrs([s[0]], Sort(s[1..]));
      assert Ptrs([s[0]]) == multiset{s[0].ptr} + Ptrs([]);
    }
  }

  // ----- nothing is lost or duplicated -----

  lemma {:induction false} MergeKeeps(a: seq<Cell>, b: seq<Cell>)
    ensures multiset(Merge(a, b)) == multiset(a) + multiset(b)
    decreases |a| + |b|
  {
    if a != [] && b != [] {
      assert a == [a[0]] + a[1..] && b == [b[0]] + b[1..];
      if Lt(b[0].arr.key, a[0].arr.key) {
        MergeKeeps(a, b[1..]);
      } else {
        MergeKeeps(a[1..], b);
      }
    }
  }

  lemma {:induction false} SortKeeps(s: seq<Cell>)
    ensures multiset(Sort(s)) == multiset(s)
  {
    if s != [] {
      SortKeeps(s[1..]);
      MergeKeeps([s[0]], Sort(s[1..]));
      assert s == [s[0]] + s[1..];
    }
  }

  /** Lists with the same entries have the same minima. */
  lemma SameEntriesSameMinima(s: seq<Cell>, t: seq<Cell>, start: Minima)
    requires multiset(s) == multiset(t)
    ensures MinOver(Perfs(Arrs(s)), start) == MinOver(Perfs(Arrs(t)), start)
  {
    EntriesAmong(s, t);
    EntriesAmong(t, s);
    MinimaUnique(Perfs(Arrs(s)), Perfs(Arrs(t)), start);
  }

  lemma EntriesAmong(s: seq<Cell>, t: seq<Cell>)
    requires multiset(s) == multiset(t)
    ensures Members(Perfs(Arrs(s)), Perfs(Arrs(t)))
  {
    var ps, pt := Perfs(Arrs(s)), Perfs(Arrs(t));
    forall i | 0 <= i < |ps| ensures ps[i] in pt {
      assert s[i] in multiset(t);
      var j :| 0 <= j < |t| && t[j] == s[i];
      assert pt[j] == ps[i];
    }
  }
}
