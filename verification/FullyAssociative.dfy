/**
 Fully associative caches.  The data search is skipped for them: tag and data arrays both come from the tag search,
 sized as tag arrays, and the rows are divided out of the whole capacity rather than one bank's share.
 */
module FullyAssociative {
  import opened BasicCircuit
  import opened Parameter
  import opened Conservation
  import opened DesignSpace
  import opened MemArray
  import opened Schedule
  import opened Solve
  import Delivered
  import Io

  // ----- the geometry -----

  /** Rows of all subarrays of all banks: one entry, tag or line, in each. */
  ghost function Entries(ip: Ip, p: Partition): int
    requires ip.Positive() && p.Positive() && p.ndbl >= 1
  {
    Rows(ip, true, p) * p.ndbl * ip.nbanks
  }

  /** Lines the capacity holds. */
  function Lines(ip: Ip): nat
    requires ip.blockSz > 0
  {
    ip.cacheSz / ip.blockSz
  }

  /** Every row is as wide as a tag. */
  lemma EntryIsTagWide(ip: Ip, isMainMem: bool, p: Partition)
    requires ip.Positive() && p.Positive() && Accepted(ip, true, isMainMem, p) && ip.fullyAssoc
    ensures p.ndwl >= 1 && Cols(ip, true, p) == TagBits(ip) > 0
  {
    hide TagBits;
    TagBitsPositive(ip, p);
    OnceOver(TagBits(ip));
  }

  lemma OnceOver(n: int)
    ensures SpreadOver(n, 1.0, 1) == n
  {
    var x := n as real;
    assert x * 1.0 / 1.0 == x;
    assert (x + 0.5).Floor == n;
  }

  lemma AcceptedShape(ip: Ip, isMainMem: bool, p: Partition)
    requires ip.Positive() && p.Positive() && Accepted(ip, true, isMainMem, p) && ip.fullyAssoc
    ensures p.ndbl >= 2 && ip.blockSz * p.ndbl > 0
    ensures Rows(ip, true, p) == ip.cacheSz / (ip.blockSz * p.ndbl) && Rows(ip, true, p) > 0
  {
    PositiveProduct(ip.blockSz, p.ndbl);
    NonNegativeQuotient(ip.cacheSz, ip.blockSz * p.ndbl);
  }

  /**
   The rows of an accepted array, exactly: each bank has an entry for every line of the capacity, down to whole rows
   of subarrays.  So all banks together have an entry for every line once if and only if there is one bank and the
   lines divide evenly among its subarrays, and they hold every byte once if and only if the capacity does.
   */
  lemma EntriesExact(ip: Ip, isMainMem: bool, p: Partition)
    requires ip.Positive() && p.Positive() && Accepted(ip, true, isMainMem, p) && ip.fullyAssoc
    ensures p.ndbl >= 2 && ip.blockSz * p.ndbl > 0
    ensures Entries(ip, p) == ip.nbanks * (Lines(ip) - Lines(ip) % p.ndbl)
    ensures Entries(ip, p) == Lines(ip) <==> ip.nbanks == 1 && Lines(ip) % p.ndbl == 0
    ensures Entries(ip, p) * ip.blockSz == ip.cacheSz
       <==> ip.nbanks == 1 && ip.cacheSz % (ip.blockSz * p.ndbl) == 0
  {
    hide Accepted;
    hide Rows;
    AcceptedShape(ip, isMainMem, p);
    var r, l, d := Rows(ip, true, p), Lines(ip), ip.blockSz * p.ndbl;
    DivideTwice(ip.cacheSz, ip.blockSz, p.ndbl);
    assert p.ndbl * ip.blockSz == d;
    WholeRows(l, p.ndbl, r);
    BanksTimes(l, l % p.ndbl, ip.nbanks);
    Commute(r * p.ndbl, ip.nbanks);
    WholeRows(ip.cacheSz, d, r);
    BanksTimes(ip.cacheSz, ip.cacheSz % d, ip.nbanks);
    BytesOf(r, p.ndbl, ip.nbanks, ip.blockSz);
  }

  lemma Commute(x: int, y: int)
    ensures x * y == y * x
  {
  }

  lemma BytesOf(r: int, n: int, k: int, b: int)
    ensures r * n * k * b == k * (r * (b * n))
  {
    assert r * n * k * b == k * (r * n * b);
    assert r * n * b == r * (b * n);
  }

  lemma WholeRows(c: nat, d: nat, r: int)
    requires d > 0 && r == c / d && r > 0
    ensures r * d == c - c % d && c - c % d > c % d
  {
    assert c == c / d * d + c % d;
    Scale(d, r);
    Commute(r, d);
  }

  lemma BanksTimes(c: nat, m: nat, k: nat)
    requires k > 0 && m <= c && c - m > m
    ensures k * (c - m) == c <==> k == 1 && m == 0
  {
    if k >= 2 {
      assert k * (c - m) == 2 * (c - m) + (k - 2) * (c - m);
      assert (k - 2) * (c - m) >= 0;
    }
  }

  // ----- the run -----

  /** A fully associative memory that is no cache searches no array at all. */
  lemma NoArraysWithoutTags(f: Circuit, prob: Problem, n: nat, v: Solve.Verdict)
    requires n >= 1 && prob.Searchable() && prob.fullyAssoc && !prob.isCache
    ensures Outcome(f, prob, n, v) <==> v == NoDataArrays
  {
  }

  /** The key of an accepted fully associative array tells its partition. */
  lemma KeyTellsPartition(f: Circuit, ip: Ip, p: Partition, k: Key)
    requires ip.Positive() && ip.fullyAssoc && p.Positive() && ChecksGeometry(f, ip, true, false)
    requires Keyed(f, true, p, k)
    ensures p == Delivered.PartOf(k) && Accepted(ip, true, false, p)
  {
  }

  /** What a run lays out for the data of a fully associative cache. */
  ghost predicate LaidOutAsTags(ip: Ip, p: Partition)
    requires ip.Positive()
  {
    && p.Positive() && Accepted(ip, true, false, p) && p.ndwl >= 1 && p.ndbl >= 1
    && Cols(ip, true, p) == TagBits(ip) > 0
    && ip.blockSz * p.ndbl > 0
    && (Entries(ip, p) == Lines(ip) <==> ip.nbanks == 1 && Lines(ip) % p.ndbl == 0)
  }

  /**
   Whatever data array a run delivers for a fully associative cache, its rows are as wide as a tag, not a line, and
   there is one for every line if and only if there is one bank and the lines divide evenly among the subarrays.
   */
  lemma DeliveredAsTags(f: Circuit, ip: Ip, prob: Problem, n: nat, v: Solve.Verdict)
    requires n >= 1 && prob.Searchable() && prob.fullyAssoc && Outcome(f, prob, n, v) && v.Solved?
    requires ip.Positive() && ip.fullyAssoc && ChecksGeometry(f, ip, true, false)
    requires prob.tagSpace.spdMin == MIN_TAG_SPD
    ensures prob.isCache && LaidOutAsTags(ip, Delivered.PartOf(v.data.key))
  {
    hide ChecksGeometry;
    hide Accepted;
    hide Keyed;
    Delivered.DeliveredFromList(f, prob, n, v);
    assert NspdIs(MIN_TAG_SPD, 0, 3) by { assert Pow2(0) == 1 && Pow2(2) == 4 && Pow2(3) == 8; }
    var p := Delivered.KeptIsPower(prob.tagSpace, f, true, n, v.data, 0, 3);
    PartitionPositive(p);
    KeyTellsPartition(f, ip, p, v.data.key);
    EntryIsTagWide(ip, false, p);
    EntriesExact(ip, false, p);
  }

  lemma PartitionPositive(p: Partition)
    requires PowerOfTwoPartition(p)
    ensures p.Positive()
  {
    var i: nat, j: nat :| NspdIs(p.nspd, i, j);
    PositiveFactor(p.nspd, Pow2(j) as real);
  }

  // ----- two banks -----

  /** A fully associative cache of 128 bytes in two banks, with lines of 8 bytes. */
  const TWO_BANKS := Ip(128, 8, 2, 64, 8, 1, false, true, true, false, false, 0, 0, 0, 0, false, false, false, 0)
  const TWO_BANKS_CONFIG := Io.Config(128, 8, 0, 2, 64, 0, 0.032, 1, 300, false, false)
  const TWO_SUBARRAYS := Partition(1.0, 1, 2, 1, 1, 1)

  /** The input check lets it through. */
  lemma TwoBanksAreChecked(input: Io.InputParameter)
    requires input.cfg == TWO_BANKS_CONFIG
    ensures TWO_BANKS_CONFIG.Passes() && (input.ModesSet() ==> input.Snapshot(TWO_BANKS) == TWO_BANKS)
  {
    assert Pow2(1) == 2;
  }

  /** Without main memory nothing can stop the activation of a fully associative array. */
  lemma AlwaysActivates(ip: Ip, p: Partition)
    requires ip.Positive() && p.Positive() && p.ndwl >= 1 && Mats(ip, p) > 0 && ip.fullyAssoc
    ensures ActivationAccepted(ip, true, false, p)
  {
  }

  lemma TwoBanksShape()
    ensures TWO_BANKS.Positive() && TWO_SUBARRAYS.Positive() && ShapeAccepted(TWO_BANKS, true, TWO_SUBARRAYS)
    ensures Rows(TWO_BANKS, true, TWO_SUBARRAYS) == 8
  {
    assert TagBits(TWO_BANKS) == 44;
    hide TagBits;
    OnceOver(44);
  }

  lemma TwoBanksMats()
    ensures TWO_BANKS.Positive() && TWO_SUBARRAYS.Positive() && Mats(TWO_BANKS, TWO_SUBARRAYS) == 1
    ensures MatAccepted(TWO_BANKS, true, false, TWO_SUBARRAYS)
  {
  }

  /** An accepted partition of it has 32 rows for 16 lines. */
  lemma TwoBanksDouble()
    ensures TWO_BANKS.Positive() && TWO_SUBARRAYS.Positive()
    ensures Accepted(TWO_BANKS, true, false, TWO_SUBARRAYS)
    ensures Entries(TWO_BANKS, TWO_SUBARRAYS) == 32 == 2 * Lines(TWO_BANKS)
  {
    hide ShapeAccepted;
    hide MatAccepted;
    hide ActivationAccepted;
    hide Rows;
    TwoBanksShape();
    TwoBanksMats();
    AlwaysActivates(TWO_BANKS, TWO_SUBARRAYS);
  }
}
