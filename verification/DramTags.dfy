/**
 The guard behind the thread count.  For a circuit of the geometry of `Parameter`, the list that n workers leave can
 depend on n in one case only: the tag array is DRAM.  Its sort key holds a bitline degree of one whatever the column
 multiplexing, and no check rejects the multiplexing, so every accepted partition is accepted again at the next one.
 */
module DramTags {
  import opened BasicCircuit
  import opened Parameter
  import opened DesignSpace
  import opened MemArray
  import opened Schedule
  import opened ThreadCount
  import Io

  /** The circuit accepts exactly the partitions the geometry accepts, with the degree the geometry computes. */
  ghost predicate GeometryOf(f: Circuit, ip: Ip, isTag: bool, isMainMem: bool)
    requires ip.Positive()
  {
    && ChecksGeometry(f, ip, isTag, isMainMem)
    && forall p: Partition :: p.Positive() && Accepted(ip, isTag, isMainMem, p) ==> f(isTag, p).Valid?
  }

  /** The column multiplexing is invisible in the sort key and to every check. */
  predicate Unmuxed(ip: Ip, isTag: bool) {
    isTag && ip.tagIsDram && !ip.fullyAssoc
  }

  /** For such an array acceptance does not look at the column multiplexing. */
  lemma AcceptedIgnoresMux(ip: Ip, isMainMem: bool, p: Partition, c: nat)
    requires ip.Positive() && p.Positive() && c >= 1 && Unmuxed(ip, true) && Accepted(ip, true, isMainMem, p)
    ensures Accepted(ip, true, isMainMem, p.(ndcm := c))
  {
    var q := p.(ndcm := c);
    assert Rows(ip, true, q) == Rows(ip, true, p) && Cols(ip, true, q) == Cols(ip, true, p);
    assert Mats(ip, q) == Mats(ip, p) && MatsH(ip, q) == MatsH(ip, p);
    assert MuxDegree(ip, true, q) == MuxDegree(ip, true, p);
    assert MatOutBits(ip, true, q) == MatOutBits(ip, true, p);
    assert ActiveMats(ip, true, isMainMem, q) == ActiveMats(ip, true, isMainMem, p);
  }

  // ----- at most one home, unless unmuxed -----

  lemma PartAtPositive(sp: Space, iter: nat, k: Key)
    requires sp.spdMin > 0.0 && InLoops(sp, k)
    ensures PartAt(sp, iter, k).Positive()
  {
    SpdAtLeast(sp, sp.spdMin, k.nspd);
  }

  /** Elsewhere the degree of an accepted partition tells its column multiplexing. */
  lemma DegreeTells(ip: Ip, isTag: bool, isMainMem: bool, p: Partition, q: Partition)
    requires ip.Positive() && p.Positive() && q.Positive() && !Unmuxed(ip, isTag)
    requires Accepted(ip, isTag, isMainMem, p) && Accepted(ip, isTag, isMainMem, q)
    requires DegBlMux(ip, isTag, p) == DegBlMux(ip, isTag, q)
    ensures p.ndcm == q.ndcm
  {
  }

  lemma OneHome(sp: Space, f: Circuit, ip: Ip, isTag: bool, isMainMem: bool, k: Key, g: nat, h: nat)
    requires ip.Positive() && sp.spdMin > 0.0 && ChecksGeometry(f, ip, isTag, isMainMem) && !Unmuxed(ip, isTag)
    requires Home(sp, f, isTag, k, g) && Home(sp, f, isTag, k, h)
    ensures g == h
  {
    hide Accepted;
    var p, q := PartAt(sp, g, k), PartAt(sp, h, k);
    PartAtPositive(sp, g, k);
    PartAtPositive(sp, h, k);
    DegreeTells(ip, isTag, isMainMem, p, q);
    assert p == q;
    SameIndex(sp, k, g, h);
  }

  /** Without multiplexing to search there is nothing to tell apart. */
  lemma OneHomeUnsearched(sp: Space, f: Circuit, isTag: bool, k: Key, g: nat, h: nat)
    requires sp.spdMin > 0.0 && sp.cm == 0 && Home(sp, f, isTag, k, g) && Home(sp, f, isTag, k, h)
    ensures g == h
  {
    assert CmExp(sp, g) == 0 == CmExp(sp, h);
    SameIndex(sp, k, g, h);
  }

  // ----- two homes, when unmuxed -----

  /** The index of the same array sizes under another column multiplexing. */
  function WithMux(sp: Space, iter: nat, c: nat): nat {
    Encode(sp, WlExp(sp, iter), BlExp(sp, iter), c)
  }

  lemma WithMuxDecodes(sp: Space, iter: nat, c: nat, k: Key)
    requires iter < sp.Niter() && c <= sp.cm
    ensures WithMux(sp, iter, c) < sp.Niter() && CmExp(sp, WithMux(sp, iter, c)) == c
    ensures PartAt(sp, WithMux(sp, iter, c), k) == PartAt(sp, iter, k).(ndcm := Pow2(c))
  {
    EncodeDecode(sp, iter);
    DecodeEncode(sp, WlExp(sp, iter), BlExp(sp, iter), c);
    EncodeDecode(sp, WithMux(sp, iter, c));
  }

  /** A home under one multiplexing is a home under every other. */
  lemma HomeUnderMux(sp: Space, f: Circuit, ip: Ip, isMainMem: bool, k: Key, g: nat, c: nat)
    requires ip.Positive() && sp.spdMin > 0.0 && GeometryOf(f, ip, true, isMainMem) && Unmuxed(ip, true)
    requires c <= sp.cm && Home(sp, f, true, k, g)
    ensures Home(sp, f, true, k, WithMux(sp, g, c))
  {
    hide Accepted;
    WithMuxDecodes(sp, g, c, k);
    PartAtPositive(sp, g, k);
    PartAtPositive(sp, WithMux(sp, g, c), k);
    AcceptedIgnoresMux(ip, isMainMem, PartAt(sp, g, k), Pow2(c));
  }

  /** The first two multiplexings sit at neighbouring indices, which fall to different workers. */
  lemma NeighboursSplit(sp: Space, f: Circuit, ip: Ip, isMainMem: bool, n: nat, k: Key, g: nat)
    requires ip.Positive() && sp.spdMin > 0.0 && GeometryOf(f, ip, true, isMainMem) && Unmuxed(ip, true)
    requires n >= 2 && sp.cm >= 1 && Home(sp, f, true, k, g)
    ensures !OneShare(sp, f, true, n)
  {
    hide Home;
    hide GeometryOf;
    HomeUnderMux(sp, f, ip, isMainMem, k, g, 0);
    HomeUnderMux(sp, f, ip, isMainMem, k, g, 1);
    var x, y := WithMux(sp, g, 0), WithMux(sp, g, 1);
    assert y == x + 1;
    Apart(x, y, n);
  }

  // ----- the guard -----

  /** Some partition within the loops is accepted. */
  ghost predicate SomeAccepted(sp: Space, ip: Ip, isTag: bool, isMainMem: bool)
    requires sp.spdMin > 0.0 && ip.Positive()
  {
    exists c :: AcceptedPoint(sp, ip, isTag, isMainMem, c)
  }

  ghost predicate AcceptedPoint(sp: Space, ip: Ip, isTag: bool, isMainMem: bool, c: Config)
    requires sp.spdMin > 0.0 && ip.Positive()
  {
    Bounded(sp, c) && c.part.Positive() && Accepted(ip, isTag, isMainMem, c.part)
  }

  lemma AcceptedHasHome(sp: Space, f: Circuit, ip: Ip, isTag: bool, isMainMem: bool, c: Config)
    returns (k: Key, h: nat)
    requires ip.Positive() && sp.spdMin > 0.0 && GeometryOf(f, ip, isTag, isMainMem)
    requires AcceptedPoint(sp, ip, isTag, isMainMem, c)
    ensures Home(sp, f, isTag, k, h) && Keyed(f, isTag, c.part, k)
  {
    hide Accepted;
    var nspd, wt, iter, j, i :| InSpace(sp, nspd, wt, iter, j, i) && c == Point(sp, nspd, wt, iter, j, i);
    k, h := KeyOf(c.part, f(isTag, c.part).deg), iter;
    assert IsMux(sp, k.sam1) && IsMux(sp, k.sam2);
  }

  lemma HomeIsAccepted(sp: Space, f: Circuit, ip: Ip, isTag: bool, isMainMem: bool, k: Key, h: nat) returns (c: Config)
    requires ip.Positive() && sp.spdMin > 0.0 && sp.wtMin <= sp.wtMax && ChecksGeometry(f, ip, isTag, isMainMem)
    requires Home(sp, f, isTag, k, h)
    ensures AcceptedPoint(sp, ip, isTag, isMainMem, c) && Keyed(f, isTag, c.part, k)
  {
    hide Accepted;
    c := Config(PartAt(sp, h, k), sp.wtMin);
    PartAtPositive(sp, h, k);
    var j: nat :| j <= sp.cm && k.sam1 == Pow2(j);
    var i: nat :| i <= sp.cm && k.sam2 == Pow2(i);
    assert InSpace(sp, k.nspd, sp.wtMin, h, j, i);
    assert c == Point(sp, k.nspd, sp.wtMin, h, j, i);
  }

  /** An unmuxed array of which several multiplexings are searched and anything is accepted. */
  ghost predicate Unsettled(sp: Space, ip: Ip, isTag: bool, isMainMem: bool)
    requires sp.spdMin > 0.0 && ip.Positive()
  {
    Unmuxed(ip, isTag) && sp.cm >= 1 && SomeAccepted(sp, ip, isTag, isMainMem)
  }

  /** n workers share a key exactly for an unsettled array, and then any n from two on do. */
  lemma SharesExactly(sp: Space, f: Circuit, ip: Ip, isTag: bool, isMainMem: bool, n: nat)
    requires n >= 1 && ip.Positive() && sp.spdMin > 0.0 && sp.wtMin <= sp.wtMax
    requires GeometryOf(f, ip, isTag, isMainMem)
    ensures OneShare(sp, f, isTag, n) <==> n == 1 || !Unsettled(sp, ip, isTag, isMainMem)
  {
    hide ChecksGeometry;
    hide AcceptedPoint;
    hide Accepted;
    hide Home;
    if n >= 2 && Unsettled(sp, ip, isTag, isMainMem) {
      var c :| AcceptedPoint(sp, ip, isTag, isMainMem, c);
      var k, g := AcceptedHasHome(sp, f, ip, isTag, isMainMem, c);
      NeighboursSplit(sp, f, ip, isMainMem, n, k, g);
    } else {
      forall k: Key, g: nat, h: nat | Home(sp, f, isTag, k, g) && Home(sp, f, isTag, k, h) ensures g % n == h % n {
        if n >= 2 {
          var c := HomeIsAccepted(sp, f, ip, isTag, isMainMem, k, g);
          if !Unmuxed(ip, isTag) {
            OneHome(sp, f, ip, isTag, isMainMem, k, g, h);
          } else {
            OneHomeUnsearched(sp, f, isTag, k, g, h);
          }
        }
      }
    }
  }

  /**
   The number of threads, by a guard on the input: over several wire types n workers leave the list of one exactly
   when n is one, or the array is not a set-associative DRAM tag array of which several column multiplexings are
   searched and some partition within the loops is accepted.
   */
  lemma ThreadCountByInput(sp: Space, f: Circuit, ip: Ip, isTag: bool, isMainMem: bool, n: nat)
    requires n >= 1 && ip.Positive() && sp.spdMin > 0.0 && sp.wtMin < sp.wtMax
    requires GeometryOf(f, ip, isTag, isMainMem)
    ensures ParallelList(sp, f, isTag, n) == SequentialList(sp, f, isTag)
       <==> n == 1 || !Unsettled(sp, ip, isTag, isMainMem)
  {
    WorkersMatter(sp, f, isTag, n);
    SharesExactly(sp, f, ip, isTag, isMainMem, n);
  }

  // ----- a DRAM tag array within the program's own bounds -----

  /** The loops of the tag search: at most 512 wordlines and bitlines, multiplexing up to 256, Nspd from 1/8 to 256. */
  const TAG_LOOPS := Space(9, 8, 0.125, 256.0, 0, 5)

  /** A direct-mapped cache of 64 KB with lines of 64 bytes and a 32-bit tag, whose tags are kept in DRAM. */
  const DRAM_TAGS := Ip(65536, 64, 1, 64, 1, 1, false, false, true, false, true, 32, 0, 0, 0, false, true, false, 1024)

  const PLAIN := Partition(1.0, 1, 1, 1, 1, 1)

  const DRAM_TAGS_CONFIG := Io.Config(65536, 64, 1, 1, 64, 0, 0.032, 1, 300, false, false)

  /** The input check lets it through. */
  lemma DramTagsAreChecked(input: Io.InputParameter)
    requires input.cfg == DRAM_TAGS_CONFIG
    ensures DRAM_TAGS_CONFIG.Passes() && (input.ModesSet() ==> input.Snapshot(DRAM_TAGS) == DRAM_TAGS)
  {
    assert Pow2(0) == 1;
  }

  lemma PlainAccepted()
    ensures DRAM_TAGS.Positive() && PLAIN.Positive() && Accepted(DRAM_TAGS, true, false, PLAIN)
  {
    assert Rows(DRAM_TAGS, true, PLAIN) == 1024;
    assert TagBits(DRAM_TAGS) == 32;
    assert Cols(DRAM_TAGS, true, PLAIN) == 32;
    assert MatOutBits(DRAM_TAGS, true, PLAIN) == 32;
    assert ActiveMats(DRAM_TAGS, true, false, PLAIN) == 1;
  }

  ghost predicate TagLoops(sp: Space) {
    sp.spdMin == 0.125 && sp.spdMax >= 1.0 && sp.wtMin < sp.wtMax && sp.cm >= 1
  }

  lemma PlainInLoops(sp: Space)
    requires TagLoops(sp)
    ensures Bounded(sp, Config(PLAIN, sp.wtMin))
  {
    hide IsSpd;
    PlainSpd(sp);
    assert Pow2(0) == 1;
    assert Encode(sp, 0, 0, 0) == 0;
    DecodeEncode(sp, 0, 0, 0);
    EncodeDecode(sp, 0);
    assert InSpace(sp, 1.0, sp.wtMin, 0, 0, 0);
    assert Point(sp, 1.0, sp.wtMin, 0, 0, 0) == Config(PLAIN, sp.wtMin);
  }

  lemma PlainSpd(sp: Space)
    requires TagLoops(sp)
    ensures IsSpd(sp, sp.spdMin, 1.0)
  {
    assert IsSpd(sp, 1.0, 1.0);
    assert IsSpd(sp, 0.5, 1.0);
    assert IsSpd(sp, 0.25, 1.0);
  }

  lemma PlainReorders(sp: Space, f: Circuit, n: nat)
    requires TagLoops(sp) && n >= 2 && DRAM_TAGS.Positive() && GeometryOf(f, DRAM_TAGS, true, false)
    ensures ParallelList(sp, f, true, n) != SequentialList(sp, f, true)
  {
    hide GeometryOf;
    hide Accepted;
    hide Bounded;
    PlainInLoops(sp);
    PlainAccepted();
    assert AcceptedPoint(sp, DRAM_TAGS, true, false, Config(PLAIN, sp.wtMin));
    ThreadCountByInput(sp, f, DRAM_TAGS, true, false, n);
  }

  /** Whatever the circuit makes of this input beyond its geometry, no two or more threads leave the list of one. */
  lemma DramTagsReorder(f: Circuit, n: nat)
    requires n >= 2 && DRAM_TAGS.Positive() && GeometryOf(f, DRAM_TAGS, true, false)
    ensures ParallelList(TAG_LOOPS, f, true, n) != SequentialList(TAG_LOOPS, f, true)
  {
    hide *;
    TagLoopsMeet();
    PlainReorders(TAG_LOOPS, f, n);
  }

  lemma TagLoopsMeet()
    ensures TagLoops(TAG_LOOPS)
  {
  }
}
