/**
 What an accepted partition guarantees to the mat built from it: the subarray counts its constructor asserts, and
 predecode blocks that never fall through their switch tables.
 */
module Mat {
  import opened BasicCircuit
  import opened Parameter
  import opened Decoder
  import opened Conservation

  const MAX_COL_MUX := 256

  /** The multiplexing bounds of the search loops. */
  predicate MuxBounded(p: Partition) {
    p.ndcm <= MAX_COL_MUX && p.sam1 <= MAX_COL_MUX && p.sam2 <= MAX_COL_MUX
  }

  function RowSignals(ip: Ip, isTag: bool, p: Partition): int
    requires ip.Positive() && p.Positive() && p.ndbl >= 1
  {
    if ip.fullyAssoc then 1 else Rows(ip, isTag, p)
  }

  /** Two halvings, neither below one, leave at most a fourfold quotient; one halving at most a double. */
  lemma HalvingQuotients(wl: nat, bl: nat)
    ensures var h, v := if wl == 0 then 0 else wl - 1, if bl == 0 then 0 else bl - 1;
            1 <= Pow2(wl) * Pow2(bl) / (Pow2(h) * Pow2(v)) <= 4 && 1 <= Pow2(wl) / Pow2(h) <= 2
  {
    hide Pow2;
    var h, v := if wl == 0 then 0 else wl - 1, if bl == 0 then 0 else bl - 1;
    Pow2Sum(h, v);
    Pow2Sum(wl, bl);
    Pow2Quotient(wl + bl, h + v);
    Pow2Quotient(wl, h);
    Pow2Monotone(wl + bl - h - v, 2);
    Pow2Monotone(wl - h, 1);
    PowersTable();
  }

  /** The two assertions of the mat constructor hold for every accepted power-of-two partition. */
  lemma AcceptedMatAssertions(ip: Ip, isTag: bool, isMainMem: bool, p: Partition)
    requires ip.Positive() && p.Positive() && Accepted(ip, isTag, isMainMem, p)
    requires PowerOfTwo(p.ndwl) && PowerOfTwo(p.ndbl)
    ensures 1 <= SubarraysPerMat(ip, p) <= 4
    ensures 1 <= p.ndwl / MatsH(ip, p) <= 2
  {
    var wl: nat :| p.ndwl == Pow2(wl);
    var bl: nat :| p.ndbl == Pow2(bl);
    if ip.fullyAssoc {
      assert bl > 0 by { assert Pow2(0) == 1; }
      QuotientBracket(p.ndbl, p.ndbl / 2, 2);
    } else {
      HalvedAtLeastOne(p.ndwl, wl);
      HalvedAtLeastOne(p.ndbl, bl);
      HalvingQuotients(wl, bl);
    }
  }

  /** Every decoder of the mat is asked for between one and 2^18 outputs. */
  lemma AcceptedDecodeSignals(ip: Ip, isTag: bool, isMainMem: bool, p: Partition)
    requires ip.Positive() && p.Positive() && MuxBounded(p) && Accepted(ip, isTag, isMainMem, p)
    ensures 0 < RowSignals(ip, isTag, p) <= MAX_SUBARRAY_ROWS
    ensures 0 < DegBlMux(ip, isTag, p) <= MAX_COL_MUX
    ensures 0 < DegSaMux(ip, isTag, isMainMem, p) <= MAX_COL_MUX
  {
    AcceptedLogs(ip, isTag, isMainMem, p);
    QuotientAtMost(p.sam1, ip.dataAssoc);
  }

  lemma QuotientAtMost(n: nat, d: nat)
    requires d > 0
    ensures n / d <= n
  {
    Scale(n / d, d);
  }

  /** A set-associative subarray has at least sixteen rows, so its two row blocks both exist and have 2..9 bits. */
  lemma RowBlocksBalanced(ip: Ip, isTag: bool, isMainMem: bool, p: Partition)
    requires ip.Positive() && p.Positive() && Accepted(ip, isTag, isMainMem, p) && !ip.fullyAssoc
    ensures Rows(ip, isTag, p) > 0
    ensures var bits := Log2(Rows(ip, isTag, p));
            && BlockExists(bits, true) && BlockExists(bits, false)
            && 2 <= BlockBits(bits, false) <= BlockBits(bits, true) <= BlockBits(bits, false) + 1
            && BlockBits(bits, true) <= 9
            && BlockBits(bits, true) + BlockBits(bits, false) == bits
  {
    PowersTable();
    Log2Monotone(16, Rows(ip, isTag, p));
    Log2OfPow2(4);
    BlockBitsInRange(Rows(ip, isTag, p), true);
  }

  /** The two blocks in front of one decoder: no switch reaches its default, and no address bit is lost. */
  method BuildPredecoder(signals: nat) returns (blk1: PredecBlk, blk2: PredecBlk)
    requires 0 < signals <= MAX_SUBARRAY_ROWS
    ensures blk1.exist ==> 1 <= blk1.numberInputAddrBits <= 9 && blk1.TablesAgree()
    ensures blk2.exist ==> 1 <= blk2.numberInputAddrBits <= 9 && blk2.TablesAgree()
    ensures blk1.numberInputAddrBits + blk2.numberInputAddrBits == Log2(signals)
  {
    blk1 := new PredecBlk(signals, true);
    blk2 := new PredecBlk(signals, false);
    BlocksCoverAddress(Log2(signals));
  }

  /** The row, bitline-mux and sense-amplifier-mux predecoders of any accepted mat can be built. */
  method BuildMatPredecoders(ip: Ip, isTag: bool, isMainMem: bool, p: Partition) returns (addressBits: nat)
    requires ip.Positive() && p.Positive() && MuxBounded(p) && Accepted(ip, isTag, isMainMem, p)
    ensures LoggedQuantitiesPositive(ip, isTag, isMainMem, p)
    ensures !(ip.IsDram(isTag) && isMainMem) ==> addressBits == MatAddressBits(ip, isTag, isMainMem, p)
  {
    hide Log2;
    AcceptedDecodeSignals(ip, isTag, isMainMem, p);
    AcceptedLogs(ip, isTag, isMainMem, p);
    Log2OfPow2(0);
    var r1, r2 := BuildPredecoder(if ip.fullyAssoc then 1 else Rows(ip, isTag, p));
    var b1, b2 := BuildPredecoder(DegBlMux(ip, isTag, p));
    var s1, s2 := BuildPredecoder(DegSaMux(ip, isTag, isMainMem, p));
    var t1, t2 := BuildPredecoder(p.sam2);
    addressBits := r1.numberInputAddrBits + r2.numberInputAddrBits + b1.numberInputAddrBits + b2.numberInputAddrBits
                 + s1.numberInputAddrBits + s2.numberInputAddrBits + t1.numberInputAddrBits + t2.numberInputAddrBits;
  }
}
