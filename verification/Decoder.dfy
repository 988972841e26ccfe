/**
 Predecoding: how the row-address bits of an accepted subarray split over two predecode blocks, and how the three
 switch tables over the block size (gate inputs, gate counts, driver loads) fit together.
 */
module Decoder {
  import opened BasicCircuit
  import opened Parameter

  /** One predecode block.  The width and area tables are filled from the number of address bits. */
  class PredecBlk {
    var exist: bool
    var numberInputAddrBits: nat
    // set by compute_widths
    var flagTwoUniquePaths: bool
    var numberInputsL1Gate: nat
    var flagL2Gate: nat
    var branchEffortNand2: nat
    var branchEffortNand3: nat
    // set by compute_area
    var numL1Nand2: nat
    var numL1Nand3: nat
    var numL2: nat

    constructor (numDecSignals: nat, isBlk1: bool)
      requires 0 < numDecSignals <= MAX_SUBARRAY_ROWS
      ensures exist == BlockExists(Log2(numDecSignals), isBlk1)
      ensures numberInputAddrBits == (if exist then BlockBits(Log2(numDecSignals), isBlk1) else 0)
      ensures exist ==> 1 <= numberInputAddrBits <= 9 && TablesAgree()
    {
      var numAddrBitsDec := Log2(numDecSignals);
      var blk1 := (numAddrBitsDec + 1) / 2;
      var blk2 := numAddrBitsDec - blk1;
      exist, numberInputAddrBits := false, 0;
      flagTwoUniquePaths, numberInputsL1Gate, flagL2Gate := false, 0, 0;
      branchEffortNand2, branchEffortNand3 := 1, 1;
      numL1Nand2, numL1Nand3, numL2 := 0, 0, 0;
      new;
      if isBlk1 {
        if numAddrBitsDec <= 0 {
          return;
        } else if numAddrBitsDec < 4 {
          exist, numberInputAddrBits := true, numAddrBitsDec;
        } else {
          exist, numberInputAddrBits := true, blk1;
        }
      } else {
        if numAddrBitsDec >= 4 {
          exist, numberInputAddrBits := true, blk2;
        }
      }
      if exist {
        BlockBitsInRange(numDecSignals, isBlk1);
        ComputeWidths();
        ComputeArea();
      }
    }

    ghost predicate Fresh()
      reads this
    {
      branchEffortNand2 == 1 && branchEffortNand3 == 1 && numL1Nand2 == 0 && numL1Nand3 == 0 && numL2 == 0
    }

    /** The switch of compute_widths; its default case is an assertion failure. */
    method ComputeWidths()
      requires exist && 1 <= numberInputAddrBits <= 9 && Fresh()
      modifies this`flagTwoUniquePaths, this`numberInputsL1Gate, this`flagL2Gate,
               this`branchEffortNand2, this`branchEffortNand3
      ensures WidthsMatch()
      ensures numberInputsL1Gate == 3 <==> numberInputAddrBits in {3, 6, 9}
      ensures numberInputAddrBits in {1, 2, 4} ==> numberInputsL1Gate == 2
    {
      flagTwoUniquePaths, numberInputsL1Gate, flagL2Gate := false, 0, 0;
      match numberInputAddrBits {
        case 1 => numberInputsL1Gate := 2;
        case 2 => numberInputsL1Gate := 2;
        case 3 => numberInputsL1Gate := 3;
        case 4 => numberInputsL1Gate, flagL2Gate, branchEffortNand2 := 2, 2, 4;
        case 5 => flagTwoUniquePaths, flagL2Gate, branchEffortNand2, branchEffortNand3 := true, 2, 8, 4;
        case 6 => numberInputsL1Gate, flagL2Gate, branchEffortNand3 := 3, 2, 8;
        case 7 => flagTwoUniquePaths, flagL2Gate, branchEffortNand2, branchEffortNand3 := true, 3, 32, 16;
        case 8 => flagTwoUniquePaths, flagL2Gate, branchEffortNand2, branchEffortNand3 := true, 3, 64, 32;
        case 9 => numberInputsL1Gate, flagL2Gate, branchEffortNand3 := 3, 3, 64;
        case _ => assert false;
      }
      PowersTable();
    }

    /** The switch of compute_area. */
    method ComputeArea()
      requires exist && 1 <= numberInputAddrBits <= 9 && WidthsMatch()
      requires numL1Nand2 == 0 && numL1Nand3 == 0 && numL2 == 0
      modifies this`numL1Nand2, this`numL1Nand3, this`numL2
      ensures TablesAgree()
    {
      match numberInputAddrBits {
        case 1 => numL1Nand2, numL2 := 2, 0;
        case 2 => numL1Nand2, numL2 := 4, 0;
        case 3 => numL1Nand3, numL2 := 8, 0;
        case 4 => numL1Nand2, numL2 := 8, 16;
        case 5 => numL1Nand2, numL1Nand3, numL2 := 4, 8, 32;
        case 6 => numL1Nand3, numL2 := 16, 64;
        case 7 => numL1Nand2, numL1Nand3, numL2 := 8, 8, 128;
        case 8 => numL1Nand2, numL1Nand3, numL2 := 4, 16, 256;
        case 9 => numL1Nand3, numL2 := 24, 512;
        case _ => assert false;
      }
      PowersTable();
    }

    ghost predicate WidthsMatch()
      reads this
    {
      WidthsRow(numberInputAddrBits, flagTwoUniquePaths, numberInputsL1Gate, flagL2Gate,
                branchEffortNand2, branchEffortNand3)
    }

    ghost predicate TablesAgree()
      reads this
    {
      WidthsMatch() && AreaRow(numberInputAddrBits, numL1Nand2, numL1Nand3, numL2)
    }
  }

  /** First-level groups of two address bits (a single bit also takes a two-input gate). */
  function Pairs(bits: nat): nat {
    if bits == 1 then 1 else (3 - bits % 3) % 3
  }

  /** First-level groups of three address bits. */
  function Triples(bits: nat): nat {
    if bits < 2 * Pairs(bits) then 0 else (bits - 2 * Pairs(bits)) / 3
  }

  /**
   Widths: the second level has one input per group, a first-level gate fans out to every combination of the
   other groups, and both kinds of path exist exactly when both kinds of group do.
   */
  ghost predicate WidthsRow(bits: nat, twoPaths: bool, inputsL1: nat, gateL2: nat, effort2: nat, effort3: nat) {
    && 1 <= bits <= 9
    && gateL2 == (if bits <= 3 then 0 else Pairs(bits) + Triples(bits))
    && (twoPaths <==> Pairs(bits) > 0 && Triples(bits) > 0)
    && (!twoPaths ==> inputsL1 == (if Pairs(bits) > 0 then 2 else 3))
    && (bits > 3 && Pairs(bits) > 0 ==> 4 * effort2 == Pow2(bits))
    && (bits > 3 && Triples(bits) > 0 ==> 8 * effort3 == Pow2(bits))
  }

  /** Areas: each group of g bits has 2^g first-level gates, and the second level has one gate per output. */
  ghost predicate AreaRow(bits: nat, nand2: nat, nand3: nat, l2: nat) {
    && (bits > 1 ==> 2 * Pairs(bits) + 3 * Triples(bits) == bits)
    && nand2 == (if bits == 1 then 2 else 4 * Pairs(bits))
    && nand3 == 8 * Triples(bits)
    && l2 == (if bits <= 3 then 0 else Pow2(bits))
  }

  /** The fan-out of all first-level gates is exactly the fan-in of the second level. */
  lemma SecondLevelFullyDriven(blk: PredecBlk)
    requires blk.exist && blk.TablesAgree() && blk.numberInputAddrBits > 3
    ensures blk.numL1Nand2 * (if Pairs(blk.numberInputAddrBits) > 0 then blk.branchEffortNand2 else 0)
          + blk.numL1Nand3 * (if Triples(blk.numberInputAddrBits) > 0 then blk.branchEffortNand3 else 0)
         == blk.numL2 * blk.flagL2Gate
  {
    var b := blk.numberInputAddrBits;
    FanOut(Pairs(b), 4, blk.branchEffortNand2, Pow2(b));
    FanOut(Triples(b), 8, blk.branchEffortNand3, Pow2(b));
    assert Pow2(b) * (Pairs(b) + Triples(b)) == Pairs(b) * Pow2(b) + Triples(b) * Pow2(b);
  }

  lemma FanOut(groups: nat, gates: nat, effort: nat, outputs: nat)
    requires groups > 0 ==> gates * effort == outputs
    ensures (gates * groups) * (if groups > 0 then effort else 0) == groups * outputs
  {
    if groups > 0 {
      assert (gates * groups) * effort == groups * (gates * effort);
    }
  }

  lemma PowersTable()
    ensures Pow2(1) == 2 && Pow2(2) == 4 && Pow2(3) == 8 && Pow2(4) == 16 && Pow2(5) == 32
    ensures Pow2(6) == 64 && Pow2(7) == 128 && Pow2(8) == 256 && Pow2(9) == 512
  {
    assert Pow2(1) == 2;
    assert Pow2(3) == 8;
    assert Pow2(5) == 32;
    assert Pow2(7) == 128;
  }

  predicate BlockExists(bits: nat, isBlk1: bool) {
    if isBlk1 then bits > 0 else bits >= 4
  }

  function BlockBits(bits: nat, isBlk1: bool): nat {
    if bits < 4 then bits
    else if isBlk1 then (bits + 1) / 2 else bits - (bits + 1) / 2
  }

  /** Up to 2^18 rows, both blocks stay within the tables. */
  lemma BlockBitsInRange(signals: nat, isBlk1: bool)
    requires 0 < signals <= MAX_SUBARRAY_ROWS
    requires BlockExists(Log2(signals), isBlk1)
    ensures 1 <= BlockBits(Log2(signals), isBlk1) <= 9
  {
    MaxRowsIsPower();
    Log2Monotone(signals, MAX_SUBARRAY_ROWS);
    Log2OfPow2(18);
  }

  lemma MaxRowsIsPower()
    ensures Pow2(18) == MAX_SUBARRAY_ROWS
  {
    PowersTable();
    Pow2Sum(9, 9);
  }

  /** The existing blocks share out the address bits with none lost. */
  lemma BlocksCoverAddress(bits: nat)
    ensures (if BlockExists(bits, true) then BlockBits(bits, true) else 0)
          + (if BlockExists(bits, false) then BlockBits(bits, false) else 0) == bits
  {
  }

  /** The driver in front of a block: buffers by load, or one buffer per way when it selects among ways instead. */
  class PredecBlkDrv {
    var exist: bool
    var numberInputAddrBits: nat
    var driving2Nand2: nat
    var driving2Nand3: nat
    var driving4Nand2: nat
    var driving8Nand3: nat

    /** What an address driver drives: every address bit once, every first-level gate input of its block. */
    ghost predicate ServesBlock(blk: PredecBlk)
      reads this, blk
    {
      var bits := blk.numberInputAddrBits;
      && exist && numberInputAddrBits == bits && driving2Nand3 == 0
      && driving2Nand2 + driving4Nand2 + driving8Nand3 == bits
      && (bits > 1 ==> driving2Nand2 == 0 && driving4Nand2 == 2 * Pairs(bits) && driving8Nand3 == 3 * Triples(bits))
      && 2 * driving2Nand2 + 4 * driving4Nand2 == 2 * blk.numL1Nand2 - (if driving2Nand2 > 0 then 2 else 0)
      && 8 * driving8Nand3 == 3 * blk.numL1Nand3
    }

    /** What a way-select driver drives: one buffer per way, on the decoder's two- or three-input gates. */
    ghost predicate ServesWays(ways: nat, decInSignals: nat)
      reads this
    {
      && exist && numberInputAddrBits == ways && driving4Nand2 == 0 && driving8Nand3 == 0
      && driving2Nand2 == (if decInSignals == 2 then ways else 0)
      && driving2Nand3 == (if decInSignals == 3 then ways else 0)
    }

    ghost predicate Idle()
      reads this
    {
      !exist && driving2Nand2 == 0 && driving2Nand3 == 0 && driving4Nand2 == 0 && driving8Nand3 == 0
    }

    /** A single way needs no select driver, and a block that does not exist no address driver. */
    constructor (waySelect: nat, blk: PredecBlk, decInSignals: nat)
      requires blk.exist ==> 1 <= blk.numberInputAddrBits <= 9 && blk.TablesAgree()
      ensures waySelect > 1 ==> ServesWays(waySelect, decInSignals)
      ensures waySelect == 0 && blk.exist ==> ServesBlock(blk)
      ensures waySelect == 1 || (waySelect == 0 && !blk.exist) ==> Idle()
    {
      exist, numberInputAddrBits := false, blk.numberInputAddrBits;
      driving2Nand2, driving2Nand3, driving4Nand2, driving8Nand3 := 0, 0, 0, 0;
      new;
      PowersTable();
      if waySelect > 1 {
        exist, numberInputAddrBits := true, waySelect;
        if decInSignals == 2 {
          driving2Nand2 := waySelect;
        } else if decInSignals == 3 {
          driving2Nand3 := waySelect;
        }
      } else if waySelect == 0 {
        exist := blk.exist;
      }
      if exist && waySelect == 0 {
        match blk.numberInputAddrBits {
          case 1 => driving2Nand2 := 1;
          case 2 => driving4Nand2 := 2;
          case 3 => driving8Nand3 := 3;
          case 4 => driving4Nand2 := 4;
          case 5 => driving4Nand2, driving8Nand3 := 2, 3;
          case 6 => driving8Nand3 := 6;
          case 7 => driving4Nand2, driving8Nand3 := 4, 3;
          case 8 => driving4Nand2, driving8Nand3 := 2, 6;
          case 9 => driving8Nand3 := 9;
          case _ =>
        }
      }
    }
  }
}
