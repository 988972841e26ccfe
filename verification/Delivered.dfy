/**
 From end to end: every partition the search visits is a power of two in every parameter, so whatever data array a
 run of the solver delivers, its subarrays hold exactly the capacity asked for and its mats meet their assertions.
 */
module Delivered {
  import opened BasicCircuit
  import opened Parameter
  import opened Conservation
  import opened DesignSpace
  import opened MemArray
  import opened StableMerge
  import opened Schedule
  import opened Filters
  import opened Solve
  import opened WireTypes
  import Io
  import Mat

  lemma FirstDataSpdIsRatio(ip: Ip, o: nat, b: nat)
    requires ip.outW == Pow2(o) && ip.blockSz == Pow2(b)
    ensures NspdIs(Io.FirstDataSpd(ip), o, b + 3)
  {
    hide Pow2;
    EightTimes(b);
    TimesBack(ip.outW as real, (ip.blockSz * 8) as real);
  }

  lemma TimesBack(x: real, d: real)
    requires d > 0.0
    ensures x / d * d == x
  {
  }

  /** Doubling keeps a ratio of powers of two one. */
  lemma {:induction false} SpdStaysRatio(sp: Space, start: real, nspd: real, i: nat, j: nat) returns (k: nat)
    requires start > 0.0 && IsSpd(sp, start, nspd) && NspdIs(start, i, j)
    ensures NspdIs(nspd, k, j)
    decreases Doublings(start, sp.spdMax)
  {
    DoublingShrinks(start, sp.spdMax);
    if nspd == start {
      k := i;
    } else {
      assert NspdIs(2.0 * start, i + 1, j) by {
        assert Pow2(i + 1) as real == 2.0 * Pow2(i) as real;
        assert 2.0 * start * Pow2(j) as real == 2.0 * (start * Pow2(j) as real);
      }
      k := SpdStaysRatio(sp, 2.0 * start, nspd, i + 1, j);
    }
  }

  lemma PointIsPower(sp: Space, c: Config, i: nat, j: nat)
    requires sp.spdMin > 0.0 && Bounded(sp, c) && NspdIs(sp.spdMin, i, j)
    ensures PowerOfTwoPartition(c.part)
  {
    var nspd, wt, iter, x, y :| InSpace(sp, nspd, wt, iter, x, y) && c == Point(sp, nspd, wt, iter, x, y);
    var k := SpdStaysRatio(sp, sp.spdMin, nspd, i, j);
  }

  /** Partition p was visited and accepted, with the key of x. */
  ghost predicate Origin(f: Circuit, isTag: bool, cs: seq<Config>, x: MemArray, c: Config) {
    c in cs && Keyed(f, isTag, c.part, x.key)
  }

  lemma {:induction false} EvalOrigin(f: Circuit, isTag: bool, cs: seq<Config>, x: MemArray) returns (c: Config)
    requires x in Eval(f, isTag, cs)
    ensures Origin(f, isTag, cs, x, c)
  {
    if x in EvalOne(f, isTag, cs[0]) {
      c := cs[0];
    } else {
      c := EvalOrigin(f, isTag, cs[1..], x);
    }
  }

  /** Every array the search keeps comes from a power-of-two partition the circuit accepted with the array's key. */
  lemma KeptIsPower(sp: Space, f: Circuit, isTag: bool, n: nat, x: MemArray, i: nat, j: nat) returns (p: Partition)
    requires n >= 1 && sp.spdMin > 0.0 && NspdIs(sp.spdMin, i, j)
    requires x in ParallelList(sp, f, isTag, n)
    ensures PowerOfTwoPartition(p) && Keyed(f, isTag, p, x.key)
  {
    ParallelMember(sp, f, isTag, n, x);
    var t :| 0 <= t < n && x in Eval(f, isTag, Configs(sp, t, n));
    var cs := Configs(sp, t, n);
    var c := EvalOrigin(f, isTag, cs, x);
    NothingElse(sp, t, n);
    var k :| 0 <= k < |cs| && cs[k] == c;
    PointIsPower(sp, c, i, j);
    p := c.part;
  }

  /** The partition a key stands for. */
  function PartOf(k: Key): Partition {
    Partition(k.nspd, k.ndwl, k.ndbl, k.deg, k.sam1, k.sam2)
  }

  /** A data array's key tells its partition: a DRAM bitline is not multiplexed, any other by the degree in the key. */
  lemma KeyTellsPartition(f: Circuit, ip: Ip, p: Partition, k: Key)
    requires ip.Positive() && p.Positive() && ChecksGeometry(f, ip, false, false) && Keyed(f, false, p, k)
    ensures p == PartOf(k) && Accepted(ip, false, false, p)
  {
  }

  /** What solve delivers comes from the data list it searched. */
  lemma DeliveredFromList(f: Circuit, prob: Problem, n: nat, v: Solve.Verdict)
    requires n >= 1 && prob.Searchable() && Outcome(f, prob, n, v) && v.Solved?
    ensures v.data in DataList(f, prob, n)
  {
    hide PerfOf;
    var data, tag := DataList(f, prob, n), TagList(f, prob, n);
    var m := MinOver(Perfs(data), NO_MINIMA);
    var near := NearArrays(data, m);
    NearMembers(data, m);
    if prob.isCache {
      var r :| PicksTag(prob, tag, r) && TagThenData(prob, tag, r, near, v);
      var i :| PicksWith(prob, TagArray(tag[r]), near, i, v);
      assert v.data in near;
    } else {
      var i :| PicksWith(prob, NoTagArray, near, i, v);
      assert v.data in near;
    }
  }

  /** The address bits reach every bit of a bank once, or a single subarray is multiplexed beyond its columns. */
  ghost predicate AddressesFit(ip: Ip, p: Partition)
    requires ip.Positive() && p.Positive() && p.ndwl >= 1 && p.ndbl >= 1 && Mats(ip, p) > 0
    requires LoggedQuantitiesPositive(ip, false, false, p)
  {
    AddressedBits(ip, p) * ip.nbanks == 8 * ip.cacheSz
    <==> p.ndwl * p.ndbl >= 2 || p.ndcm * p.sam1 * p.sam2 <= Cols(ip, false, p)
  }

  /** The geometry of a partition that is used as it should be. */
  ghost predicate SoundGeometry(ip: Ip, p: Partition)
    requires ip.Positive()
  {
    && p.Positive() && Accepted(ip, false, false, p)
    && p.ndwl >= 1 && p.ndbl >= 1 && Mats(ip, p) > 0 && LoggedQuantitiesPositive(ip, false, false, p)
    && Cells(ip, p) == 8 * ip.cacheSz
    && 1 <= SubarraysPerMat(ip, p) <= 4
    && 1 <= p.ndwl / MatsH(ip, p) <= 2
    && AddressesFit(ip, p)
  }

  /**
   For power-of-two inputs, whatever set-associative data array a run delivers, its subarrays hold exactly the
   capacity, its mats meet their assertions, and its address bits reach every bit unless a single subarray is
   multiplexed beyond its columns.
   */
  lemma DeliveredGeometry(f: Circuit, ip: Ip, prob: Problem, n: nat, v: Solve.Verdict)
    requires n >= 1 && prob.Searchable() && !prob.fullyAssoc && Outcome(f, prob, n, v) && v.Solved?
    requires ip.Positive() && !ip.fullyAssoc && PowerOfTwoInputs(ip) && prob.dataSpace.spdMin == Io.FirstDataSpd(ip)
    requires ChecksGeometry(f, ip, false, false)
    ensures SoundGeometry(ip, PartOf(v.data.key))
  {
    hide ChecksGeometry;
    hide Accepted;
    hide Keyed;
    hide SoundGeometry;
    var o: nat :| ip.outW == Pow2(o);
    var b: nat :| ip.blockSz == Pow2(b);
    FirstDataSpdIsRatio(ip, o, b);
    DeliveredFromList(f, prob, n, v);
    var p := KeptIsPower(prob.dataSpace, f, false, n, v.data, o, b + 3);
    PowersPositive(ip, p);
    KeyTellsPartition(f, ip, p, v.data.key);
    SoundWhenAccepted(ip, p);
  }

  lemma SoundWhenAccepted(ip: Ip, p: Partition)
    requires ip.Positive() && !ip.fullyAssoc && PowerOfTwoInputs(ip) && PowerOfTwoPartition(p)
    requires p.Positive() && Accepted(ip, false, false, p)
    ensures SoundGeometry(ip, p)
  {
    hide Accepted;
    hide Cells;
    hide AddressedBits;
    hide SubarraysPerMat;
    hide LoggedQuantitiesPositive;
    hide Cols;
    hide Mats;
    hide MatsH;
    AcceptedSizes(ip, p);
    CapacityConserved(ip, false, p);
    AddressBitsConserved(ip, p);
    Mat.AcceptedMatAssertions(ip, false, false, p);
  }

  lemma AcceptedSizes(ip: Ip, p: Partition)
    requires ip.Positive() && p.Positive() && Accepted(ip, false, false, p)
    ensures p.ndwl >= 1 && p.ndbl >= 1 && Mats(ip, p) > 0
  {
  }
}
