/**
 When a run over one wire type can miss an array.  As soon as the geometry accepts two partitions there are circuits,
 positive and of that geometry, on which the run reports that nothing meets the criteria while the second array it
 combined does; with fewer than two it never happens.
 */
module MissedArrays {
  import opened BasicCircuit
  import opened Parameter
  import opened DesignSpace
  import opened MemArray
  import opened StableMerge
  import opened Schedule
  import opened ThreadCount
  import opened Copies
  import opened DramTags
  import opened Select
  import opened Filters
  import opened Solve
  import opened WireTypes
  import opened RunOptimality
  import Io

  ghost predicate OneWire(sp: Space) {
    sp.spdMin > 0.0 && sp.wtMin == sp.wtMax
  }

  /** At least two partitions within the loops are accepted for the data array. */
  ghost predicate TwoAccepted(sp: Space, ip: Ip)
    requires sp.spdMin > 0.0 && ip.Positive()
  {
    exists c, d :: TwoPoints(sp, ip, c, d)
  }

  ghost predicate TwoPoints(sp: Space, ip: Ip, c: Config, d: Config)
    requires sp.spdMin > 0.0 && ip.Positive()
  {
    AcceptedPoint(sp, ip, false, false, c) && AcceptedPoint(sp, ip, false, false, d) && c.part != d.part
  }

  // ----- lists over one wire type -----

  lemma DataNoTwins(sp: Space, f: Circuit, ip: Ip)
    requires sp.spdMin > 0.0 && ip.Positive() && ChecksGeometry(f, ip, false, false)
    ensures NoTwins(sp, f, false)
  {
    hide ChecksGeometry;
    hide Home;
    forall k: Key, g: nat, h: nat | Home(sp, f, false, k, g) && Home(sp, f, false, k, h) ensures g == h {
      OneHome(sp, f, ip, false, false, k, g, h);
    }
  }

  lemma {:induction false} TwoOfKey(s: seq<MemArray>, i: nat, j: nat)
    requires i < j < |s| && s[i].key == s[j].key
    ensures |OfKey(s, s[i].key)| >= 2
  {
    if i > 0 {
      TwoOfKey(s[1..], i - 1, j - 1);
    } else {
      OfKeyMember(s[1..], j - 1);
    }
  }

  lemma SingleCopy(sp: Space, k: Key, m: Metrics)
    requires OneWire(sp)
    ensures WireCopies(sp, k, m, sp.wtMin) == [MemArray(k, m, sp.wtMin)]
  {
    assert WireCopies(sp, k, m, sp.wtMin + 1) == [];
  }

  /** Of each key there is one entry, from the index where the key is accepted, or none. */
  lemma OneEntry(sp: Space, f: Circuit, n: nat, k: Key)
    requires OneWire(sp) && n >= 1 && NoTwins(sp, f, false)
    ensures forall h: nat :: Home(sp, f, false, k, h) ==>
              OfKey(ParallelList(sp, f, false, n), k)
              == [MemArray(k, f(false, PartAt(sp, h, k)).metrics, sp.wtMin)]
    ensures (forall h: nat :: !Home(sp, f, false, k, h)) ==> OfKey(ParallelList(sp, f, false, n), k) == []
  {
    hide InLoops;
    hide NoTwins;
    hide ParallelList;
    hide WireCopies;
    hide PartAt;
    hide OfKey;
    OnePerWireType(sp, f, false, n, k);
    forall h: nat | Home(sp, f, false, k, h)
      ensures OfKey(ParallelList(sp, f, false, n), k) == [MemArray(k, f(false, PartAt(sp, h, k)).metrics, sp.wtMin)]
    {
      SingleCopy(sp, k, f(false, PartAt(sp, h, k)).metrics);
    }
  }

  /** So every entry has its home, and no two entries share a key. */
  lemma EntryHome(sp: Space, f: Circuit, n: nat, i: nat) returns (h: nat)
    requires OneWire(sp) && n >= 1 && NoTwins(sp, f, false) && i < |ParallelList(sp, f, false, n)|
    ensures var x := ParallelList(sp, f, false, n)[i];
            && Home(sp, f, false, x.key, h)
            && x == MemArray(x.key, f(false, PartAt(sp, h, x.key)).metrics, sp.wtMin)
    ensures forall j :: 0 <= j < |ParallelList(sp, f, false, n)| && j != i ==>
              ParallelList(sp, f, false, n)[j].key != ParallelList(sp, f, false, n)[i].key
  {
    hide Home;
    hide NoTwins;
    hide ParallelList;
    var s := ParallelList(sp, f, false, n);
    var k := s[i].key;
    OneEntry(sp, f, n, k);
    InOfKey(s, i);
    h :| Home(sp, f, false, k, h);
    forall j | 0 <= j < |s| && j != i ensures s[j].key != k {
      if s[j].key == k {
        if i < j {
          TwoOfKey(s, i, j);
        } else {
          TwoOfKey(s, j, i);
        }
      }
    }
  }

  // ----- fewer than two accepted partitions -----

  lemma LongListTwoAccepted(sp: Space, f: Circuit, ip: Ip, n: nat)
    requires OneWire(sp) && n >= 1 && ip.Positive() && ChecksGeometry(f, ip, false, false)
    requires |ParallelList(sp, f, false, n)| >= 2
    ensures TwoAccepted(sp, ip)
  {
    hide Home;
    hide ParallelList;
    hide AcceptedPoint;
    hide ChecksGeometry;
    var s := ParallelList(sp, f, false, n);
    DataNoTwins(sp, f, ip);
    var g := EntryHome(sp, f, n, 0);
    var h := EntryHome(sp, f, n, 1);
    var c := HomeIsAccepted(sp, f, ip, false, false, s[0].key, g);
    var d := HomeIsAccepted(sp, f, ip, false, false, s[1].key, h);
    assert TwoPoints(sp, ip, c, d);
  }

  lemma {:induction false} NearLength(s: seq<MemArray>, m: Minima)
    requires m.Positive()
    ensures |NearArrays(s, m)| <= |s|
  {
    if s != [] {
      NearLength(s[1..], m);
    }
  }

  /** With fewer than two accepted partitions a run over one wire type delivers the best it combined. */
  lemma NeverMissed(f: Circuit, ip: Ip, prob: Problem, n: nat, t: TagChoice, near: seq<MemArray>, v: Solve.Verdict)
    requires n >= 1 && prob.Searchable() && !prob.fullyAssoc && OneWire(prob.dataSpace)
    requires ip.Positive() && ChecksGeometry(f, ip, false, false) && !TwoAccepted(prob.dataSpace, ip)
    requires Selecting(f, prob, n, t, near) && Outcome(f, prob, n, v)
    ensures (prob.isCache ==> t.TagArray?) && MinOver(Combined(prob, t, near), NO_MINIMA).Positive()
    ensures v == VerdictAt(t, near, FirstBest(ScoresOf(prob, t, near)))
  {
    hide ChecksGeometry;
    hide TwoAccepted;
    hide PerfOf;
    var i := SelectingPicks(f, prob, n, t, near, v);
    var data := DataList(f, prob, n);
    if |data| >= 2 {
      LongListTwoAccepted(prob.dataSpace, f, ip, n);
    }
    NearLength(data, MinOver(Perfs(data), NO_MINIMA));
    var s := ScoresOf(prob, t, near);
    FirstBestUnique(s, i, FirstBest(s));
  }

  // ----- two accepted partitions -----

  const SLOW := Metrics(Perf(2.0, 1.0, 1.0, 1.0, 1.0), 1.0, 1.0, 0.0, 0.0, 0.0)
  const FAST := Metrics(Perf(1.0, 1.0, 1.0, 1.0, 1.0), 1.0, 1.0, 0.0, 0.0, 0.0)

  function MetricsFor(best: Key, k: Key): Metrics {
    if k == best then FAST else SLOW
  }

  /** The circuit of this geometry that is fast at one key and slow at all others. */
  ghost function Favouring(ip: Ip, best: Key): Circuit
    requires ip.Positive()
  {
    (isTag: bool, p: Partition) =>
      if !isTag && p.Positive() && Accepted(ip, false, false, p)
      then Valid(DegBlMux(ip, false, p), MetricsFor(best, KeyOf(p, DegBlMux(ip, false, p))))
      else Invalid
  }

  lemma FavouringFacts(ip: Ip, best: Key)
    requires ip.Positive()
    ensures GeometryOf(Favouring(ip, best), ip, false, false) && PositiveCircuit(Favouring(ip, best))
    ensures KeyFaithful(Favouring(ip, best), true) && KeyFaithful(Favouring(ip, best), false)
  {
    hide Accepted;
    hide Measures;
    forall isTag: bool, k: Key, m: Metrics | Measures(Favouring(ip, best), isTag, k, m)
      ensures m == MetricsFor(best, k)
    {
      FavouringMeasures(ip, best, isTag, k, m);
    }
    var f := Favouring(ip, best);
    forall isTag: bool, p: Partition | f(isTag, p).Valid? ensures PositiveMetrics(f(isTag, p).metrics) {
      FavouringPositive(ip, best, isTag, p);
    }
  }

  lemma FavouringPositive(ip: Ip, best: Key, isTag: bool, p: Partition)
    requires ip.Positive() && Favouring(ip, best)(isTag, p).Valid?
    ensures PositiveMetrics(Favouring(ip, best)(isTag, p).metrics)
  {
    hide Accepted;
    assert !isTag && p.Positive();
    var k := KeyOf(p, DegBlMux(ip, false, p));
    assert Favouring(ip, best)(isTag, p).metrics == MetricsFor(best, k);
  }

  lemma FavouringMeasures(ip: Ip, best: Key, isTag: bool, k: Key, m: Metrics)
    requires ip.Positive() && Measures(Favouring(ip, best), isTag, k, m)
    ensures m == MetricsFor(best, k)
  {
    hide Accepted;
    var f := Favouring(ip, best);
    var p :| Keyed(f, isTag, p, k) && f(isTag, p).metrics == m;
  }

  /** Where a key is accepted does not depend on which key is favoured. */
  lemma SameHomes(sp: Space, ip: Ip, a: Key, b: Key, k: Key, h: nat)
    requires sp.spdMin > 0.0 && ip.Positive()
    ensures Home(sp, Favouring(ip, a), false, k, h) <==> Home(sp, Favouring(ip, b), false, k, h)
    ensures Home(sp, Favouring(ip, a), false, k, h) ==>
              Favouring(ip, a)(false, PartAt(sp, h, k)).metrics == MetricsFor(a, k)
  {
    hide Accepted;
    hide InLoops;
  }

  function Repaint(s: seq<MemArray>, best: Key): (r: seq<MemArray>)
    ensures |r| == |s| && forall i :: 0 <= i < |s| ==> r[i] == s[i].(metrics := MetricsFor(best, s[i].key))
  {
    seq(|s|, i requires 0 <= i < |s| => s[i].(metrics := MetricsFor(best, s[i].key)))
  }

  lemma {:induction false} RepaintOfKey(s: seq<MemArray>, best: Key, k: Key)
    ensures OfKey(Repaint(s, best), k) == Repaint(OfKey(s, k), best)
  {
    hide MetricsFor;
    if s != [] {
      RepaintOfKey(s[1..], best, k);
      var x := s[0].(metrics := MetricsFor(best, s[0].key));
      assert Repaint(s, best) == [x] + Repaint(s[1..], best);
      OfKeyCons(x, Repaint(s[1..], best), k);
    }
  }

  /** Favouring another key changes the metrics in the list and nothing else. */
  lemma Repainted(sp: Space, ip: Ip, a: Key, b: Key, n: nat)
    requires OneWire(sp) && ip.Positive() && n >= 1
    ensures ParallelList(sp, Favouring(ip, b), false, n) == Repaint(ParallelList(sp, Favouring(ip, a), false, n), b)
  {
    hide Home;
    hide NoTwins;
    hide ParallelList;
    hide Favouring;
    hide MetricsFor;
    var f, g := Favouring(ip, a), Favouring(ip, b);
    var s, r := ParallelList(sp, f, false, n), ParallelList(sp, g, false, n);
    FavouringFacts(ip, a);
    FavouringFacts(ip, b);
    DataNoTwins(sp, f, ip);
    DataNoTwins(sp, g, ip);
    ParallelListSpec(sp, f, false, n);
    ParallelListSpec(sp, g, false, n);
    forall k ensures OfKey(r, k) == OfKey(Repaint(s, b), k) {
      RepaintOfKey(s, b, k);
      OneEntry(sp, f, n, k);
      OneEntry(sp, g, n, k);
      forall h: nat ensures Home(sp, f, false, k, h) <==> Home(sp, g, false, k, h) {
        SameHomes(sp, ip, a, b, k, h);
      }
      if h: nat :| Home(sp, g, false, k, h) {
        SameHomes(sp, ip, a, b, k, h);
        SameHomes(sp, ip, b, a, k, h);
      }
    }
    SortedUnique(r, Repaint(s, b));
  }

  /** Two accepted partitions make two entries. */
  lemma TwoEntries(sp: Space, ip: Ip, a: Key, n: nat)
    requires OneWire(sp) && ip.Positive() && n >= 1 && TwoAccepted(sp, ip)
    ensures |ParallelList(sp, Favouring(ip, a), false, n)| >= 2
  {
    hide Home;
    hide NoTwins;
    hide ParallelList;
    hide Favouring;
    hide AcceptedPoint;
    hide Keyed;
    hide ChecksGeometry;
    var f := Favouring(ip, a);
    var s := ParallelList(sp, f, false, n);
    FavouringFacts(ip, a);
    DataNoTwins(sp, f, ip);
    var c, d :| TwoPoints(sp, ip, c, d);
    var k, g := AcceptedHasHome(sp, f, ip, false, false, c);
    var l, h := AcceptedHasHome(sp, f, ip, false, false, d);
    KeysTell(f, ip, sp, c, d, k, l);
    OneEntry(sp, f, n, k);
    OneEntry(sp, f, n, l);
    KeyOccurs(s, k);
    KeyOccurs(s, l);
  }

  /** Different data partitions are accepted under different keys. */
  lemma KeysTell(f: Circuit, ip: Ip, sp: Space, c: Config, d: Config, k: Key, l: Key)
    requires sp.spdMin > 0.0 && ip.Positive() && ChecksGeometry(f, ip, false, false) && TwoPoints(sp, ip, c, d)
    requires Keyed(f, false, c.part, k) && Keyed(f, false, d.part, l)
    ensures k != l
  {
    hide Accepted;
    hide Bounded;
    if k == l {
      DegreeTells(ip, false, false, c.part, d.part);
    }
  }

  // ----- the run -----

  const ONES := Minima(1.0, 1.0, 1.0, 1.0, 1.0)

  /** All slow but the second. */
  ghost predicate SecondFast(s: seq<MemArray>) {
    |s| >= 2 && forall i :: 0 <= i < |s| ==> s[i].metrics == if i == 1 then FAST else SLOW
  }

  lemma SecondFastMinima(s: seq<MemArray>)
    requires SecondFast(s)
    ensures MinOver(Perfs(s), NO_MINIMA) == ONES
  {
    MinOverIsBelow(Perfs(s), NO_MINIMA);
    MinOverIsAttained(Perfs(s), NO_MINIMA);
    assert Below(MinOver(Perfs(s), NO_MINIMA), Perfs(s)[1]);
  }

  lemma {:induction false} AllNear(s: seq<MemArray>)
    requires forall i :: 0 <= i < |s| ==> s[i].metrics == FAST || s[i].metrics == SLOW
    ensures NearArrays(s, ONES) == s
  {
    if s != [] {
      AllNear(s[1..]);
      assert !Far(FAST.perf, ONES) && !Far(SLOW.perf, ONES);
    }
  }

  /** A memory searched over sp, under the weights and deviations that come with the program. */
  function Ram(sp: Space): Problem {
    Problem(false, false, false, false, Weighted, SHIPPED, sp, sp)
  }

  lemma CombinedPlain(sp: Space, s: seq<MemArray>)
    requires SecondFast(s)
    ensures Combined(Ram(sp), NoTagArray, s) == Perfs(s)
  {
    forall i | 0 <= i < |s| ensures PerfOf(Ram(sp), NoTagArray, s[i]) == s[i].metrics.perf {
    }
  }

  /** The first is infeasible; the second meets the criteria and is overlooked; the others are infeasible too. */
  lemma OnlySecondFeasible(s: seq<MemArray>)
    requires SecondFast(s)
    ensures var r := Scores(Weighted, Perfs(s), ONES, SHIPPED);
            IsFirstBest(r, 1) && IsFirstBest(Hide(r, Overlooked(r)), -1)
  {
    hide Within;
    hide WeightedCost;
    FeasibleFast();
    var r := Scores(Weighted, Perfs(s), ONES, SHIPPED);
    forall i | 0 <= i < |s| ensures r[i] == if i == 1 then Cost(300.0) else Infeasible {
    }
    assert PrefixLen(r, BIGNUM) == 0;
    assert Overlooked(r) == 1;
  }

  lemma FeasibleFast()
    ensures Within(FAST.perf, ONES, SHIPPED) && !Within(SLOW.perf, ONES, SHIPPED)
    ensures WeightedCost(FAST.perf, ONES, SHIPPED) == 300.0
  {
  }

  /** Run with n threads, the circuit is reported to meet the criteria nowhere, and its second array meets them. */
  ghost predicate Misses(f: Circuit, sp: Space, n: nat)
    requires sp.spdMin > 0.0 && n >= 1
  {
    && Outcome(f, Ram(sp), n, NothingMeetsCriteria)
    && exists near :: Selecting(f, Ram(sp), n, NoTagArray, near) && IdealPick(Ram(sp), NoTagArray, near, 1)
  }

  lemma SecondFastIsMissed(f: Circuit, sp: Space, n: nat)
    requires OneWire(sp) && n >= 1 && SecondFast(ParallelList(sp, f, false, n))
    ensures Misses(f, sp, n)
  {
    hide IsFirstBest;
    hide ScoreOf;
    hide NearArrays;
    hide ParallelList;
    hide PerfOf;
    var prob, s := Ram(sp), ParallelList(sp, f, false, n);
    assert DataList(f, prob, n) == s;
    SecondFastMinima(s);
    AllNear(s);
    CombinedPlain(sp, s);
    OnlySecondFeasible(s);
    assert ONES.Positive();
    assert IsChoice(Weighted, Perfs(s), ONES, SHIPPED, -1);
    assert PicksWith(prob, NoTagArray, s, -1, NothingMeetsCriteria);
    assert Selecting(f, prob, n, NoTagArray, s);
  }

  /** The circuit that favours the second key of the list. */
  lemma FavourSecond(sp: Space, ip: Ip, n: nat) returns (k: Key)
    requires OneWire(sp) && ip.Positive() && TwoAccepted(sp, ip) && n >= 1
    ensures SecondFast(ParallelList(sp, Favouring(ip, k), false, n))
  {
    hide ParallelList;
    hide Favouring;
    hide ChecksGeometry;
    hide Home;
    hide TwoAccepted;
    var a := Key(0.0, 0, 0, 0, 0, 0);
    var f := Favouring(ip, a);
    var s := ParallelList(sp, f, false, n);
    TwoEntries(sp, ip, a, n);
    k := s[1].key;
    Repainted(sp, ip, a, k, n);
    FavouringFacts(ip, a);
    DataNoTwins(sp, f, ip);
    var h := EntryHome(sp, f, n, 1);
  }

  /** A circuit of this geometry, with positive metrics that are the same for equal keys. */
  ghost predicate CircuitOf(f: Circuit, ip: Ip)
    requires ip.Positive()
  {
    GeometryOf(f, ip, false, false) && PositiveCircuit(f) && KeyFaithful(f, true) && KeyFaithful(f, false)
  }

  ghost predicate AlwaysMisses(f: Circuit, sp: Space)
    requires sp.spdMin > 0.0
  {
    forall n: nat :: n >= 1 ==> Misses(f, sp, n)
  }

  /** The circuit that favours the second key makes every run miss. */
  lemma FavouredIsMissed(sp: Space, ip: Ip) returns (f: Circuit)
    requires OneWire(sp) && ip.Positive() && TwoAccepted(sp, ip)
    ensures CircuitOf(f, ip) && AlwaysMisses(f, sp)
  {
    hide GeometryOf;
    hide KeyFaithful;
    hide Misses;
    hide SecondFast;
    hide ParallelList;
    hide NoTwins;
    hide TwoAccepted;
    var k := FavourSecond(sp, ip, 1);
    f := Favouring(ip, k);
    FavouringFacts(ip, k);
    assert ChecksGeometry(f, ip, false, false) by { GeometryChecks(f, ip); }
    DataNoTwins(sp, f, ip);
    NoTwinsIndependent(sp, f, false, 1);
    forall n: nat | n >= 1 ensures Misses(f, sp, n) {
      NoTwinsIndependent(sp, f, false, n);
      SecondFastIsMissed(f, sp, n);
    }
  }

  lemma GeometryChecks(f: Circuit, ip: Ip)
    requires ip.Positive() && GeometryOf(f, ip, false, false)
    ensures ChecksGeometry(f, ip, false, false)
  {
  }

  /**
   Exactly when an array can be missed: over one wire type some circuit of the geometry makes every run, whatever the
   number of threads, report that nothing meets the criteria while its second array does, if and only if two
   partitions are accepted.
   */
  lemma MissedExactly(sp: Space, ip: Ip)
    requires OneWire(sp) && ip.Positive()
    ensures TwoAccepted(sp, ip) <==> exists f :: CircuitOf(f, ip) && AlwaysMisses(f, sp)
  {
    hide GeometryOf;
    hide PositiveCircuit;
    hide KeyFaithful;
    hide TwoAccepted;
    hide Misses;
    if TwoAccepted(sp, ip) {
      var f := FavouredIsMissed(sp, ip);
    }
    if f :| CircuitOf(f, ip) && AlwaysMisses(f, sp) {
      assert Misses(f, sp, 1);
      MissedNeedsTwo(f, sp, ip, 1);
    }
  }

  lemma MissedNeedsTwo(f: Circuit, sp: Space, ip: Ip, n: nat)
    requires OneWire(sp) && ip.Positive() && n >= 1 && GeometryOf(f, ip, false, false) && Misses(f, sp, n)
    ensures TwoAccepted(sp, ip)
  {
    hide ChecksGeometry;
    hide TwoAccepted;
    hide Outcome;
    hide PerfOf;
    hide IsFirstBest;
    var near :| Selecting(f, Ram(sp), n, NoTagArray, near) && IdealPick(Ram(sp), NoTagArray, near, 1);
    if !TwoAccepted(sp, ip) {
      NeverMissed(f, ip, Ram(sp), n, NoTagArray, near, NothingMeetsCriteria);
      FirstBestUnique(ScoresOf(Ram(sp), NoTagArray, near), 1, FirstBest(ScoresOf(Ram(sp), NoTagArray, near)));
      BestInRange(ScoresOf(Ram(sp), NoTagArray, near), 1);
    }
  }

  lemma BestInRange(s: seq<Score>, i: int)
    requires IsFirstBest(s, i) && i != -1
    ensures 0 <= i < |s|
  {
  }

  // ----- an input for which it happens -----

  /** A direct-mapped memory of 1 KB in lines of 8 bytes, a line at a time. */
  const KILOBYTE := Ip(1024, 8, 1, 64, 1, 1, false, false, false, false, false, 0, 0, 0, 0, false, false, false, 0)

  /** Its data search when the low-swing wire type is forced. */
  const LOW_SWING := Space(9, 8, 1.0, 256.0, 5, 5)

  const KILOBYTE_CONFIG := Io.Config(1024, 8, 1, 1, 64, 0, 0.032, 1, 300, false, false)

  lemma KilobyteIsChecked(input: Io.InputParameter)
    requires input.cfg == KILOBYTE_CONFIG
    ensures KILOBYTE_CONFIG.Passes() && (input.ModesSet() ==> input.Snapshot(KILOBYTE) == KILOBYTE)
    ensures LOW_SWING.spdMin == Io.FirstDataSpd(KILOBYTE)
  {
    assert Pow2(0) == 1;
  }

  function Columns(ndwl: nat): Partition { Partition(1.0, ndwl, 1, 1, 1, 1) }

  lemma OneColumnAccepted()
    ensures KILOBYTE.Positive() && Accepted(KILOBYTE, false, false, Columns(1))
  {
    assert Rows(KILOBYTE, false, Columns(1)) == 128;
    assert Cols(KILOBYTE, false, Columns(1)) == 64;
    assert MatOutBits(KILOBYTE, false, Columns(1)) == 64;
    assert ActiveMats(KILOBYTE, false, false, Columns(1)) == 1;
  }

  lemma TwoColumnsAccepted()
    ensures KILOBYTE.Positive() && Accepted(KILOBYTE, false, false, Columns(2))
  {
    assert Rows(KILOBYTE, false, Columns(2)) == 128;
    assert Cols(KILOBYTE, false, Columns(2)) == 32;
    assert MatOutBits(KILOBYTE, false, Columns(2)) == 64;
    assert ActiveMats(KILOBYTE, false, false, Columns(2)) == 1;
  }

  ghost predicate StartsAtOne(sp: Space) {
    sp.spdMin == 1.0 && sp.spdMax >= 1.0 && sp.wtMin == sp.wtMax && sp.dn >= 1
  }

  lemma ColumnsInLoops(sp: Space, e: nat)
    requires StartsAtOne(sp) && e <= 1
    ensures Bounded(sp, Config(Columns(Pow2(e)), sp.wtMin))
  {
    var h := Encode(sp, e, 0, 0);
    assert Pow2(0) == 1;
    DecodeEncode(sp, e, 0, 0);
    EncodeDecode(sp, h);
    assert InSpace(sp, 1.0, sp.wtMin, h, 0, 0);
    assert Point(sp, 1.0, sp.wtMin, h, 0, 0) == Config(Columns(Pow2(e)), sp.wtMin);
  }

  lemma KilobyteTwoAccepted(sp: Space)
    requires StartsAtOne(sp)
    ensures KILOBYTE.Positive() && TwoAccepted(sp, KILOBYTE)
  {
    hide Accepted;
    hide Bounded;
    assert Pow2(0) == 1 && Pow2(1) == 2;
    OneColumnAccepted();
    TwoColumnsAccepted();
    ColumnsInLoops(sp, 0);
    ColumnsInLoops(sp, 1);
    assert TwoPoints(sp, KILOBYTE, Config(Columns(1), sp.wtMin), Config(Columns(2), sp.wtMin));
  }

  /** For it there is a circuit on which every run reports nothing, though an array meets the criteria. */
  lemma KilobyteMissed() returns (f: Circuit)
    ensures KILOBYTE.Positive() && LOW_SWING.spdMin > 0.0 && CircuitOf(f, KILOBYTE) && AlwaysMisses(f, LOW_SWING)
  {
    hide *;
    LowSwingMeets();
    f := MissedFrom(LOW_SWING);
  }

  lemma LowSwingMeets()
    ensures StartsAtOne(LOW_SWING) && LOW_SWING.spdMin > 0.0
  {
  }

  lemma MissedFrom(sp: Space) returns (f: Circuit)
    requires StartsAtOne(sp)
    ensures KILOBYTE.Positive() && CircuitOf(f, KILOBYTE) && AlwaysMisses(f, sp)
  {
    hide CircuitOf;
    hide Misses;
    hide TwoAccepted;
    KilobyteTwoAccepted(sp);
    f := FavouredIsMissed(sp, KILOBYTE);
  }
}
