/**
 Array geometry: which partitions of a memory array are accepted, and what the accepted ones derive.

 The constructor of DynamicParameter follows the program's order of checks and assignments; the functions
 above it name the derived quantities, so that the conservation theorems can be stated about them.
 */
module Parameter {
  import opened BasicCircuit

  const ADDRESS_BITS := 42
  const EXTRA_TAG_BITS := 5
  const MIN_SUBARRAY_ROWS := 16
  const MAX_SUBARRAY_ROWS := 262144
  const MIN_SUBARRAY_COLS := 2
  const MAX_SUBARRAY_COLS := 262144
  const BITS_PER_ECC_BIT := 8

  /** The checked user input, as the geometry reads it. */
  datatype Ip = Ip(
    cacheSz: nat, blockSz: nat, nbanks: nat, outW: nat, tagAssoc: nat, dataAssoc: nat,
    fastAccess: bool, fullyAssoc: bool, isCache: bool, isMainMem: bool,
    specificTag: bool, tagW: nat, pageSzBits: nat, burstLen: nat, prefetchW: nat, addEcc: bool,
    tagIsDram: bool, dataIsDram: bool,
    dramRowLimit: nat)  // most rows for which a DRAM bitline still meets the sense margin
  {
    predicate Positive() {
      cacheSz > 0 && blockSz > 0 && nbanks > 0 && outW > 0 && tagAssoc > 0 && dataAssoc > 0
    }

    predicate IsDram(isTag: bool) {
      if isTag then tagIsDram else dataIsDram
    }
  }

  datatype Partition = Partition(nspd: real, ndwl: nat, ndbl: nat, ndcm: nat, sam1: nat, sam2: nat)
  {
    predicate Positive() {
      nspd > 0.0 && ndcm >= 1 && sam1 >= 1 && sam2 >= 1
    }
  }

  function Max(a: int, b: int): int { if a > b then a else b }

  /** Truncation after adding one half, on non-negative reals. */
  function Round(x: real): int { (x + 0.5).Floor }

  function TagBits(ip: Ip): int
    requires ip.Positive()
  {
    (RawTagBits(ip) + 3) / 4 * 4
  }

  /** The width before it is rounded up to a multiple of four. */
  function RawTagBits(ip: Ip): int
    requires ip.Positive()
  {
    if ip.specificTag then ip.tagW
    else if ip.fullyAssoc then ADDRESS_BITS + EXTRA_TAG_BITS - Log2(ip.blockSz)
    else ADDRESS_BITS + EXTRA_TAG_BITS - Log2(ip.cacheSz) + Log2(ip.tagAssoc * 2 - 1) - Log2(ip.nbanks)
  }

  function RowDivisor(ip: Ip, isTag: bool, p: Partition): (d: nat)
    requires ip.Positive() && p.ndbl >= 1
    ensures d > 0
  {
    var assoc := if isTag then ip.tagAssoc else ip.dataAssoc;
    RowFactorsPositive(ip, assoc, p.ndbl);
    ip.nbanks * ip.blockSz * assoc * p.ndbl
  }

  lemma RowFactorsPositive(ip: Ip, assoc: nat, ndbl: nat)
    requires ip.Positive() && assoc > 0 && ndbl > 0
    ensures ip.nbanks * ip.blockSz * assoc * ndbl > 0
  {
    PositiveProduct(ip.nbanks, ip.blockSz);
    PositiveProduct(ip.nbanks * ip.blockSz, assoc);
    PositiveProduct(ip.nbanks * ip.blockSz * assoc, ndbl);
  }

  lemma PositiveProduct(a: int, b: int)
    requires a > 0 && b > 0
    ensures a * b > 0
  {
  }

  function Rows(ip: Ip, isTag: bool, p: Partition): int
    requires ip.Positive() && p.Positive() && p.ndbl >= 1
  {
    if ip.fullyAssoc then
      PositiveProduct(ip.blockSz, p.ndbl);
      ip.cacheSz / (ip.blockSz * p.ndbl)
    else
      DividedBy(ip.cacheSz, RowDivisor(ip, isTag, p), p.nspd)
  }

  /** n / (d*s), rounded half up. */
  function DividedBy(n: nat, d: nat, s: real): int
    requires d > 0 && s > 0.0
  {
    ScaledPositive(d, s);
    Round(n as real / (d as real * s))
  }

  /** n*s / d, rounded half up. */
  function SpreadOver(n: int, s: real, d: nat): int
    requires d > 0
  {
    Round(n as real * s / d as real)
  }

  lemma ScaledPositive(d: nat, s: real)
    requires d > 0 && s > 0.0
    ensures d as real * s > 0.0
  {
  }

  function LineBits(ip: Ip, isTag: bool): int
    requires ip.Positive()
  {
    if isTag then (if ip.fullyAssoc then TagBits(ip) else TagBits(ip) * ip.tagAssoc)
    else 8 * ip.blockSz * ip.dataAssoc
  }

  function Cols(ip: Ip, isTag: bool, p: Partition): int
    requires ip.Positive() && p.Positive() && p.ndwl >= 1
  {
    if ip.fullyAssoc && !isTag then 8 * ip.blockSz
    else SpreadOver(LineBits(ip, isTag), p.nspd, p.ndwl)
  }

  /** Degree of bitline multiplexing: a DRAM bitline has its own sense amplifier. */
  function DegBlMux(ip: Ip, isTag: bool, p: Partition): nat {
    if ip.IsDram(isTag) then 1 else p.ndcm
  }

  function MatsH(ip: Ip, p: Partition): (m: nat) ensures m >= 1 {
    if ip.fullyAssoc then 1 else Max(p.ndwl / 2, 1)
  }

  function MatsV(ip: Ip, p: Partition): nat {
    if ip.fullyAssoc then p.ndbl / 2 else Max(p.ndbl / 2, 1)
  }

  function Mats(ip: Ip, p: Partition): nat {
    MatsH(ip, p) * MatsV(ip, p)
  }

  function SubarraysPerMat(ip: Ip, p: Partition): nat
    requires Mats(ip, p) > 0
  {
    p.ndwl * p.ndbl / Mats(ip, p)
  }

  function MuxDegree(ip: Ip, isTag: bool, p: Partition): (d: nat)
    requires p.Positive()
    ensures d >= 1
  {
    PositiveProduct(DegBlMux(ip, isTag, p), p.sam1);
    PositiveProduct(DegBlMux(ip, isTag, p) * p.sam1, p.sam2);
    DegBlMux(ip, isTag, p) * p.sam1 * p.sam2
  }

  /** Data-out bits of one mat, before the tag path overwrites it. */
  function MatOutBits(ip: Ip, isTag: bool, p: Partition): (bits: int)
    requires ip.Positive() && p.Positive() && p.ndwl >= 1 && Mats(ip, p) > 0
    ensures bits >= 1
  {
    if ip.fullyAssoc then 8 * ip.blockSz
    else Max(SubarraysPerMat(ip, p) * Cols(ip, isTag, p) / MuxDegree(ip, isTag, p), 1)
  }

  function SubbankOutBits(ip: Ip, isTag: bool, isMainMem: bool): int
    requires ip.Positive()
  {
    if isTag then TagBits(ip) * ip.tagAssoc
    else if isMainMem then ip.prefetchW * ip.outW
    else if ip.fastAccess then ip.outW * ip.dataAssoc
    else if !ip.fullyAssoc then ip.outW
    else 8 * ip.blockSz
  }

  function DegSaMux(ip: Ip, isTag: bool, isMainMem: bool, p: Partition): nat
    requires ip.Positive()
  {
    if isTag || isMainMem || ip.fastAccess then p.sam1
    else if !ip.fullyAssoc then p.sam1 / ip.dataAssoc
    else 1
  }

  function ActiveMats(ip: Ip, isTag: bool, isMainMem: bool, p: Partition): int
    requires ip.Positive() && p.Positive() && p.ndwl >= 1 && Mats(ip, p) > 0
  {
    if ip.fullyAssoc then 1
    else SubbankOutBits(ip, isTag, isMainMem) / MatOutBits(ip, isTag, p)
  }

  /** Data-out bits of one mat in the final state. */
  function FinalMatOutBits(ip: Ip, isTag: bool, isMainMem: bool, p: Partition): int
    requires ip.Positive() && p.Positive() && p.ndwl >= 1 && Mats(ip, p) > 0
    requires ActiveMats(ip, isTag, isMainMem, p) != 0
  {
    if !isTag then MatOutBits(ip, isTag, p)
    else if ip.fullyAssoc then 0
    else ip.tagAssoc / ActiveMats(ip, isTag, isMainMem, p)
  }

  /** Data-out bits of a subbank in the final state: the tag path delivers what its mats do. */
  function FinalSubbankOutBits(ip: Ip, isTag: bool, isMainMem: bool, p: Partition): int
    requires ip.Positive() && p.Positive() && p.ndwl >= 1 && Mats(ip, p) > 0
    requires ActiveMats(ip, isTag, isMainMem, p) != 0
  {
    if !isTag then SubbankOutBits(ip, isTag, isMainMem)
    else if ip.fullyAssoc then 0
    else ActiveMats(ip, isTag, isMainMem, p) * FinalMatOutBits(ip, isTag, isMainMem, p)
  }

  /** Data-in bits of one mat: a tag, or what the mat puts out, for one way when all ways are read at once. */
  function MatInBits(ip: Ip, isTag: bool, isMainMem: bool, p: Partition): int
    requires ip.Positive() && p.Positive() && p.ndwl >= 1 && Mats(ip, p) > 0
    requires ActiveMats(ip, isTag, isMainMem, p) != 0
  {
    if isTag then TagBits(ip)
    else if ip.fastAccess then FinalMatOutBits(ip, isTag, isMainMem, p) / ip.dataAssoc
    else FinalMatOutBits(ip, isTag, isMainMem, p)
  }

  /** A data array that reads one way of several needs a select signal for each. */
  function WaySelects(ip: Ip, isTag: bool): nat {
    if !isTag && ip.dataAssoc > 1 && !ip.fastAccess then ip.dataAssoc else 0
  }

  function BankInBits(ip: Ip, isTag: bool): int
    requires ip.Positive()
  {
    if isTag then TagBits(ip) else ip.outW + ip.dataAssoc
  }

  function BankOutBits(ip: Ip, isTag: bool): nat {
    if isTag then ip.dataAssoc else ip.outW
  }

  /** Check bits travel with the data, one for every eight. */
  function WithEcc(ip: Ip, bits: int): int {
    if ip.addEcc then Ecc(bits) else bits
  }

  ghost predicate FullyAssocShape(p: Partition) {
    p.ndwl == 1 && p.ndcm == 1 && p.nspd == 1.0 && p.sam1 == 1 && p.sam2 == 1 && p.ndbl >= 2
  }

  ghost predicate SubarrayInRange(ip: Ip, rows: int, cols: int) {
    && (!ip.fullyAssoc ==> rows >= MIN_SUBARRAY_ROWS)
    && rows != 0 && rows <= MAX_SUBARRAY_ROWS
    && MIN_SUBARRAY_COLS <= cols <= MAX_SUBARRAY_COLS
  }

  /** Bits opened by one access to the active mats. */
  function OpenBits(activeMats: int, matBits: int, p: Partition): int {
    activeMats * matBits * p.sam1 * p.sam2
  }

  /** The checks on the shape of one subarray. */
  ghost predicate ShapeAccepted(ip: Ip, isTag: bool, p: Partition)
    requires ip.Positive() && p.Positive()
  {
    && (ip.fullyAssoc ==> FullyAssocShape(p))
    && (ip.IsDram(isTag) && !isTag ==> p.ndcm <= 1)
    && p.ndwl >= 1 && p.ndbl >= 1
    && SubarrayInRange(ip, Rows(ip, isTag, p), Cols(ip, isTag, p))
    && (ip.IsDram(isTag) ==> Rows(ip, isTag, p) <= ip.dramRowLimit)
  }

  /** The checks on the output of one mat. */
  ghost predicate MatAccepted(ip: Ip, isTag: bool, isMainMem: bool, p: Partition)
    requires ip.Positive() && p.Positive() && p.ndwl >= 1 && Mats(ip, p) > 0
  {
    && ((ip.fullyAssoc && isTag) || MatOutBits(ip, isTag, p) >= SubarraysPerMat(ip, p))
    && (isTag && !ip.fullyAssoc ==> MatOutBits(ip, isTag, p) >= TagBits(ip))
    && (!isTag ==> DegSaMux(ip, isTag, isMainMem, p) >= 1)
  }

  /** The checks on how many mats one access activates. */
  ghost predicate ActivationAccepted(ip: Ip, isTag: bool, isMainMem: bool, p: Partition)
    requires ip.Positive() && p.Positive() && p.ndwl >= 1 && Mats(ip, p) > 0
  {
    && ActiveMats(ip, isTag, isMainMem, p) != 0
    && PageFits(ip, isTag, isMainMem, p, OpenBits(ActiveMats(ip, isTag, isMainMem, p),
                                                  FinalMatOutBits(ip, isTag, isMainMem, p), p))
    && ActiveMats(ip, isTag, isMainMem, p) <= MatsH(ip, p)
  }

  ghost predicate PageFits(ip: Ip, isTag: bool, isMainMem: bool, p: Partition, open: int) {
    && (!ip.isCache && isMainMem ==> open == ip.pageSzBits)
    && (!isTag && ip.isMainMem ==> open >= ip.outW * ip.burstLen * ip.dataAssoc)
  }

  /** The partitions that survive every early return. */
  ghost predicate Accepted(ip: Ip, isTag: bool, isMainMem: bool, p: Partition)
    requires ip.Positive() && p.Positive()
  {
    && ShapeAccepted(ip, isTag, p)
    && Mats(ip, p) > 0
    && MatAccepted(ip, isTag, isMainMem, p)
    && ActivationAccepted(ip, isTag, isMainMem, p)
  }

  lemma MatsPositive(ip: Ip, p: Partition)
    requires p.ndwl >= 1 && p.ndbl >= 1 && (ip.fullyAssoc ==> p.ndbl >= 2)
    ensures MatsV(ip, p) >= 1 && Mats(ip, p) > 0
  {
    PositiveProduct(MatsH(ip, p), MatsV(ip, p));
  }

  function Ecc(bits: int): int { bits + bits / BITS_PER_ECC_BIT }

  class DynamicParameter {
    var isValid: bool
    var tagbits: int
    var numRSubarray: int
    var numCSubarray: int
    var numSubarrays: int
    var degBlMuxing: int
    var numMatsHDir: int
    var numMatsVDir: int
    var numMats: int
    var numDoBMat: int
    var numDoBSubbank: int
    var numDiBMat: int
    var numDiBBankPerPort: int
    var numDoBBankPerPort: int
    var degSenseampMuxingNonAssoc: int
    var numActMatsHorDir: int
    var numberSubbanksDecode: int
    var numberAddrBitsMat: int
    var numberWaySelectSignalsMat: int

    constructor (ip: Ip, isTag: bool, isMainMem: bool, p: Partition)
      requires ip.Positive() && p.Positive()
      ensures isValid <==> Accepted(ip, isTag, isMainMem, p)
      ensures isValid ==> LoggedQuantitiesPositive(ip, isTag, isMainMem, p) && Describes(ip, isTag, isMainMem, p)
    {
      new;
      isValid := false;
      tagbits := 0;
      numberWaySelectSignalsMat := 0;
      var ok := SizeSubarray(ip, isTag, p);
      if !ok { return; }
      MatsPositive(ip, p);
      ok := SizeMat(ip, isTag, isMainMem, p);
      if !ok { return; }
      ok := ActivateMats(ip, isTag, isMainMem, p);
      if !ok { return; }
      AcceptedLogs(ip, isTag, isMainMem, p);
      CountBits(ip, isTag, isMainMem, p);
      isValid := true;
    }

    /** The final state of an accepted partition. */
    ghost predicate Describes(ip: Ip, isTag: bool, isMainMem: bool, p: Partition)
      requires ip.Positive() && p.Positive() && p.ndwl >= 1 && p.ndbl >= 1 && Mats(ip, p) > 0
      requires LoggedQuantitiesPositive(ip, isTag, isMainMem, p)
      reads this
    {
      && SubarraySized(ip, isTag, p)
      && MatSized(ip, isTag, isMainMem, p)
      && numActMatsHorDir == ActiveMats(ip, isTag, isMainMem, p)
      && numDoBMat == WithEcc(ip, FinalMatOutBits(ip, isTag, isMainMem, p))
      && numDiBMat == WithEcc(ip, MatInBits(ip, isTag, isMainMem, p))
      && numDoBSubbank == WithEcc(ip, FinalSubbankOutBits(ip, isTag, isMainMem, p))
      && numDiBBankPerPort == BankInBits(ip, isTag) && numDoBBankPerPort == BankOutBits(ip, isTag)
      && numberWaySelectSignalsMat == WaySelects(ip, isTag)
      && numberSubbanksDecode == SubbankBits(ip, isTag, isMainMem, p)
      && numberAddrBitsMat == MatAddressBits(ip, isTag, isMainMem, p)
    }

    ghost predicate SubarraySized(ip: Ip, isTag: bool, p: Partition)
      requires ip.Positive() && p.Positive() && p.ndwl >= 1 && p.ndbl >= 1
      reads this
    {
      && tagbits == (if isTag then TagBits(ip) else 0)
      && numRSubarray == Rows(ip, isTag, p) && numCSubarray == Cols(ip, isTag, p)
      && degBlMuxing == DegBlMux(ip, isTag, p)
    }

    ghost predicate MatSized(ip: Ip, isTag: bool, isMainMem: bool, p: Partition)
      requires ip.Positive() && p.Positive()
      reads this
    {
      && numSubarrays == p.ndwl * p.ndbl
      && numMatsHDir == MatsH(ip, p) && numMatsVDir == MatsV(ip, p) && numMats == Mats(ip, p)
      && degSenseampMuxingNonAssoc == DegSaMux(ip, isTag, isMainMem, p)
    }

    method SizeTag(ip: Ip)
      requires ip.Positive()
      modifies this`tagbits
      ensures tagbits == TagBits(ip)
    {
      var raw := TagWidthNeeded(ip);
      hide RawTagBits;
      tagbits := (raw + 3) / 4 * 4;
    }

    method TagWidthNeeded(ip: Ip) returns (raw: int)
      requires ip.Positive()
      ensures raw == RawTagBits(ip)
    {
      hide Pow2;
      if ip.specificTag {
        raw := ip.tagW;
      } else if ip.fullyAssoc {
        raw := ADDRESS_BITS + EXTRA_TAG_BITS - Log2(ip.blockSz);
      } else {
        raw := ADDRESS_BITS + EXTRA_TAG_BITS - Log2(ip.cacheSz) + Log2(ip.tagAssoc * 2 - 1) - Log2(ip.nbanks);
      }
    }

    method CountRowsAndCols(ip: Ip, isTag: bool, p: Partition)
      requires ip.Positive() && p.Positive() && p.ndwl >= 1 && p.ndbl >= 1
      requires tagbits == (if isTag then TagBits(ip) else 0)
      modifies this`numRSubarray, this`numCSubarray
      ensures numRSubarray == Rows(ip, isTag, p) && numCSubarray == Cols(ip, isTag, p)
    {
      hide TagBits;
      hide SpreadOver;
      if ip.fullyAssoc {
        PositiveProduct(ip.blockSz, p.ndbl);
        numRSubarray := ip.cacheSz / (ip.blockSz * p.ndbl);
        numCSubarray := if isTag then SpreadOver(tagbits, p.nspd, p.ndwl) else 8 * ip.blockSz;
      } else {
        var assoc := if isTag then ip.tagAssoc else ip.dataAssoc;
        RowFactorsPositive(ip, assoc, p.ndbl);
        numRSubarray := DividedBy(ip.cacheSz, ip.nbanks * ip.blockSz * assoc * p.ndbl, p.nspd);
        var bits := if isTag then tagbits * ip.tagAssoc else 8 * ip.blockSz * ip.dataAssoc;
        numCSubarray := SpreadOver(bits, p.nspd, p.ndwl);
      }
    }

    method SizeSubarray(ip: Ip, isTag: bool, p: Partition) returns (ok: bool)
      requires ip.Positive() && p.Positive() && tagbits == 0
      modifies this
      ensures isValid == old(isValid)
      ensures ok <==> ShapeAccepted(ip, isTag, p)
      ensures ok ==> SubarraySized(ip, isTag, p)
      ensures numberWaySelectSignalsMat == old(numberWaySelectSignalsMat)
    {
      var isDram := if isTag then ip.tagIsDram else ip.dataIsDram;
      if ip.fullyAssoc {
        if p.ndwl != 1 || p.ndcm != 1 || p.nspd < 1.0 || p.nspd > 1.0 || p.sam1 != 1 || p.sam2 != 1 || p.ndbl < 2 {
          return false;
        }
      }
      if isDram && !isTag && p.ndcm > 1 { return false; }
      if !ip.fullyAssoc && (p.ndwl < 1 || p.ndbl < 1) { return false; }

      if isTag { SizeTag(ip); }
      CountRowsAndCols(ip, isTag, p);

      if !ip.fullyAssoc && numRSubarray < MIN_SUBARRAY_ROWS { return false; }
      if numRSubarray == 0 { return false; }
      if numRSubarray > MAX_SUBARRAY_ROWS { return false; }
      if numCSubarray < MIN_SUBARRAY_COLS { return false; }
      if numCSubarray > MAX_SUBARRAY_COLS { return false; }

      if isDram {
        degBlMuxing := 1;
        if numRSubarray > ip.dramRowLimit { return false; }
      } else {
        degBlMuxing := p.ndcm;
      }
      return true;
    }

    method SizeMat(ip: Ip, isTag: bool, isMainMem: bool, p: Partition) returns (ok: bool)
      requires ip.Positive() && p.Positive() && ShapeAccepted(ip, isTag, p) && Mats(ip, p) > 0
      requires SubarraySized(ip, isTag, p)
      modifies this
      ensures isValid == old(isValid)
      ensures ok <==> MatAccepted(ip, isTag, isMainMem, p)
      ensures SubarraySized(ip, isTag, p)
      ensures ok ==> MatSized(ip, isTag, isMainMem, p) && numDoBMat == MatOutBits(ip, isTag, p)
                     && numDoBSubbank == SubbankOutBits(ip, isTag, isMainMem)
      ensures numberWaySelectSignalsMat == old(numberWaySelectSignalsMat)
    {
      CountMats(ip, p);
      MuxOutput(ip, isTag, p);
      if !(ip.fullyAssoc && isTag) && numDoBMat < numSubarrays / numMats { return false; }
      if !isTag {
        if isMainMem {
          numDoBSubbank, degSenseampMuxingNonAssoc := ip.prefetchW * ip.outW, p.sam1;
        } else if ip.fastAccess {
          numDoBSubbank, degSenseampMuxingNonAssoc := ip.outW * ip.dataAssoc, p.sam1;
        } else if !ip.fullyAssoc {
          numDoBSubbank, degSenseampMuxingNonAssoc := ip.outW, p.sam1 / ip.dataAssoc;
          if degSenseampMuxingNonAssoc < 1 { return false; }
        } else {
          numDoBSubbank, degSenseampMuxingNonAssoc := 8 * ip.blockSz, 1;
        }
      } else {
        numDoBSubbank := tagbits * ip.tagAssoc;
        if !ip.fullyAssoc && numDoBMat < tagbits { return false; }
        degSenseampMuxingNonAssoc := p.sam1;
      }
      return true;
    }

    method CountMats(ip: Ip, p: Partition)
      modifies this`numSubarrays, this`numMatsHDir, this`numMatsVDir, this`numMats
      ensures numSubarrays == p.ndwl * p.ndbl
      ensures numMatsHDir == MatsH(ip, p) && numMatsVDir == MatsV(ip, p) && numMats == Mats(ip, p)
    {
      numSubarrays := p.ndwl * p.ndbl;
      if ip.fullyAssoc {
        numMatsHDir, numMatsVDir := 1, p.ndbl / 2;
      } else {
        numMatsHDir, numMatsVDir := Max(p.ndwl / 2, 1), Max(p.ndbl / 2, 1);
      }
      numMats := numMatsHDir * numMatsVDir;
    }

    method MuxOutput(ip: Ip, isTag: bool, p: Partition)
      requires ip.Positive() && p.Positive() && p.ndwl >= 1 && p.ndbl >= 1 && Mats(ip, p) > 0
      requires SubarraySized(ip, isTag, p) && numSubarrays == p.ndwl * p.ndbl && numMats == Mats(ip, p)
      modifies this`numDoBMat
      ensures numDoBMat == MatOutBits(ip, isTag, p)
    {
      hide Cols;
      hide Mats;
      if ip.fullyAssoc {
        numDoBMat := 8 * ip.blockSz;
      } else {
        PositiveProduct(degBlMuxing, p.sam1);
        PositiveProduct(degBlMuxing * p.sam1, p.sam2);
        numDoBMat := Max(numSubarrays / numMats * numCSubarray / (degBlMuxing * p.sam1 * p.sam2), 1);
      }
    }

    method ActivateMats(ip: Ip, isTag: bool, isMainMem: bool, p: Partition) returns (ok: bool)
      requires ip.Positive() && p.Positive() && p.ndwl >= 1 && p.ndbl >= 1 && Mats(ip, p) > 0
      requires SubarraySized(ip, isTag, p) && MatSized(ip, isTag, isMainMem, p)
      requires numDoBMat == MatOutBits(ip, isTag, p)
      requires numDoBSubbank == SubbankOutBits(ip, isTag, isMainMem)
      modifies this
      ensures isValid == old(isValid)
      ensures ok <==> ActivationAccepted(ip, isTag, isMainMem, p)
      ensures SubarraySized(ip, isTag, p) && MatSized(ip, isTag, isMainMem, p)
      ensures ok ==> numActMatsHorDir == ActiveMats(ip, isTag, isMainMem, p)
                     && numDoBMat == FinalMatOutBits(ip, isTag, isMainMem, p)
                     && numDoBSubbank == FinalSubbankOutBits(ip, isTag, isMainMem, p)
                     && numberWaySelectSignalsMat == old(numberWaySelectSignalsMat)
    {
      if ip.fullyAssoc {
        numActMatsHorDir := 1;
      } else {
        numActMatsHorDir := numDoBSubbank / numDoBMat;
        if numActMatsHorDir == 0 { return false; }
      }
      if isTag {
        if ip.fullyAssoc {
          numDoBMat := 0;
          numDoBSubbank := 0;
        } else {
          numDoBMat := ip.tagAssoc / numActMatsHorDir;
          numDoBSubbank := numActMatsHorDir * numDoBMat;
        }
      }
      var open := numActMatsHorDir * numDoBMat * p.sam1 * p.sam2;
      if !ip.isCache && isMainMem && open != ip.pageSzBits { return false; }
      if !isTag && ip.isMainMem && open < ip.outW * ip.burstLen * ip.dataAssoc { return false; }
      if numActMatsHorDir > numMatsHDir { return false; }
      return true;
    }

    method CountBits(ip: Ip, isTag: bool, isMainMem: bool, p: Partition)
      requires ip.Positive() && p.Positive() && p.ndwl >= 1 && p.ndbl >= 1 && Mats(ip, p) > 0
      requires LoggedQuantitiesPositive(ip, isTag, isMainMem, p)
      requires SubarraySized(ip, isTag, p) && MatSized(ip, isTag, isMainMem, p)
      requires numActMatsHorDir == ActiveMats(ip, isTag, isMainMem, p)
      requires numDoBMat == FinalMatOutBits(ip, isTag, isMainMem, p)
      requires numDoBSubbank == FinalSubbankOutBits(ip, isTag, isMainMem, p) && numberWaySelectSignalsMat == 0
      modifies this
      ensures Describes(ip, isTag, isMainMem, p)
    {
      CountAddressBits(ip, isTag, isMainMem, p);
      CountDataBits(ip, isTag);
    }

    method CountAddressBits(ip: Ip, isTag: bool, isMainMem: bool, p: Partition)
      requires ip.Positive() && p.Positive() && p.ndwl >= 1 && p.ndbl >= 1 && Mats(ip, p) > 0
      requires LoggedQuantitiesPositive(ip, isTag, isMainMem, p)
      requires SubarraySized(ip, isTag, p) && MatSized(ip, isTag, isMainMem, p)
      requires numActMatsHorDir == ActiveMats(ip, isTag, isMainMem, p)
      modifies this`numberSubbanksDecode, this`numberAddrBitsMat
      ensures numberSubbanksDecode == SubbankBits(ip, isTag, isMainMem, p)
      ensures numberAddrBitsMat == MatAddressBits(ip, isTag, isMainMem, p)
    {
      var numAddrBRowDec := if ip.fullyAssoc then 0 else Log2(numRSubarray);
      numberSubbanksDecode := Log2(numMats / numActMatsHorDir);
      var muxBits := Log2(degBlMuxing) + Log2(degSenseampMuxingNonAssoc) + Log2(p.sam2);
      if (if isTag then ip.tagIsDram else ip.dataIsDram) && isMainMem {
        numberAddrBitsMat := Max(numAddrBRowDec, muxBits);
      } else {
        numberAddrBitsMat := numAddrBRowDec + muxBits;
      }
    }

    method CountDataBits(ip: Ip, isTag: bool)
      requires ip.Positive()
      requires numberWaySelectSignalsMat == 0 && tagbits == (if isTag then TagBits(ip) else 0)
      modifies this`numDiBMat, this`numDoBMat, this`numDoBSubbank, this`numberWaySelectSignalsMat
      modifies this`numDiBBankPerPort, this`numDoBBankPerPort
      ensures numDoBMat == WithEcc(ip, old(numDoBMat)) && numDoBSubbank == WithEcc(ip, old(numDoBSubbank))
      ensures numDiBMat == WithEcc(ip, if isTag then TagBits(ip)
                                       else if ip.fastAccess then old(numDoBMat) / ip.dataAssoc else old(numDoBMat))
      ensures numDiBBankPerPort == BankInBits(ip, isTag) && numDoBBankPerPort == BankOutBits(ip, isTag)
      ensures numberWaySelectSignalsMat == WaySelects(ip, isTag)
    {
      if !isTag {
        numDiBMat := if ip.fastAccess then numDoBMat / ip.dataAssoc else numDoBMat;
      } else {
        numDiBMat := tagbits;
      }
      if isTag {
        numDiBBankPerPort, numDoBBankPerPort := tagbits, ip.dataAssoc;
      } else {
        numDiBBankPerPort, numDoBBankPerPort := ip.outW + ip.dataAssoc, ip.outW;
      }
      if !isTag && ip.dataAssoc > 1 && !ip.fastAccess {
        numberWaySelectSignalsMat := ip.dataAssoc;
      }
      if ip.addEcc {
        numDoBMat := numDoBMat + numDoBMat / BITS_PER_ECC_BIT;
        numDiBMat := numDiBMat + numDiBMat / BITS_PER_ECC_BIT;
        numDoBSubbank := numDoBSubbank + numDoBSubbank / BITS_PER_ECC_BIT;
      }
    }
  }

  /** Every argument the accepted path hands to the logarithm; on zero the program would exit. */
  ghost predicate LoggedQuantitiesPositive(ip: Ip, isTag: bool, isMainMem: bool, p: Partition)
    requires ip.Positive() && p.Positive() && p.ndwl >= 1 && p.ndbl >= 1 && Mats(ip, p) > 0
  {
    && Rows(ip, isTag, p) > 0
    && ActiveMats(ip, isTag, isMainMem, p) > 0
    && Mats(ip, p) / ActiveMats(ip, isTag, isMainMem, p) > 0
    && DegBlMux(ip, isTag, p) > 0
    && DegSaMux(ip, isTag, isMainMem, p) > 0
    && p.sam2 > 0
  }

  function SubbankBits(ip: Ip, isTag: bool, isMainMem: bool, p: Partition): nat
    requires ip.Positive() && p.Positive() && p.ndwl >= 1 && p.ndbl >= 1 && Mats(ip, p) > 0
    requires LoggedQuantitiesPositive(ip, isTag, isMainMem, p)
  {
    Log2(Mats(ip, p) / ActiveMats(ip, isTag, isMainMem, p))
  }

  function MatAddressBits(ip: Ip, isTag: bool, isMainMem: bool, p: Partition): nat
    requires ip.Positive() && p.Positive() && p.ndwl >= 1 && p.ndbl >= 1 && Mats(ip, p) > 0
    requires LoggedQuantitiesPositive(ip, isTag, isMainMem, p)
  {
    var row := if ip.fullyAssoc then 0 else Log2(Rows(ip, isTag, p));
    var mux := Log2(DegBlMux(ip, isTag, p)) + Log2(DegSaMux(ip, isTag, isMainMem, p)) + Log2(p.sam2);
    if ip.IsDram(isTag) && isMainMem then Max(row, mux) else row + mux
  }

  /** No accepted partition reaches the logarithm of zero. */
  lemma AcceptedLogs(ip: Ip, isTag: bool, isMainMem: bool, p: Partition)
    requires ip.Positive() && p.Positive() && Accepted(ip, isTag, isMainMem, p)
    ensures LoggedQuantitiesPositive(ip, isTag, isMainMem, p)
  {
    RowsNonNegative(ip, isTag, p);
    ActivePositive(ip, isTag, isMainMem, p);
    MatsPositive(ip, p);
    Scale(MatsH(ip, p), MatsV(ip, p));
    AtLeastOne(Mats(ip, p), ActiveMats(ip, isTag, isMainMem, p));
  }

  lemma ActivePositive(ip: Ip, isTag: bool, isMainMem: bool, p: Partition)
    requires ip.Positive() && p.Positive() && ShapeAccepted(ip, isTag, p) && Mats(ip, p) > 0
    requires ActiveMats(ip, isTag, isMainMem, p) != 0
    ensures ActiveMats(ip, isTag, isMainMem, p) > 0
  {
    if isTag {
      TagBitsPositive(ip, p);
    }
    SubbankNonNegative(ip, isTag, isMainMem);
    if !ip.fullyAssoc {
      NonNegativeQuotient(SubbankOutBits(ip, isTag, isMainMem), MatOutBits(ip, isTag, p));
    }
  }

  lemma NonNegativeQuotient(n: int, d: int)
    requires n >= 0 && d > 0
    ensures n / d >= 0
  {
  }

  /** The column minimum turns a non-positive tag width away. */
  lemma TagBitsPositive(ip: Ip, p: Partition)
    requires ip.Positive() && p.Positive() && p.ndwl >= 1
    requires Cols(ip, true, p) >= MIN_SUBARRAY_COLS
    ensures TagBits(ip) > 0
  {
    if TagBits(ip) <= 0 {
      NonPositiveScaled(TagBits(ip), ip.tagAssoc);
      SpreadNonPositive(LineBits(ip, true), p.nspd, p.ndwl);
    }
  }

  // ----- the product behind the tag columns is unsigned in the program -----

  const UNSIGNED_RANGE := 0x1_0000_0000
  const MAX_DATAN := 512
  const MIN_TAG_SPD := 0.125

  /** The columns of a set-associative tag array when the line bits wrap around. */
  function WrappedTagCols(ip: Ip, p: Partition): int
    requires ip.Positive() && p.Positive() && p.ndwl >= 1
  {
    SpreadOver(TagBits(ip) * ip.tagAssoc % UNSIGNED_RANGE, p.nspd, p.ndwl)
  }

  ghost predicate ColsInRange(cols: int) {
    MIN_SUBARRAY_COLS <= cols <= MAX_SUBARRAY_COLS
  }

  /**
   The wrap-around changes the check that fails, never the outcome: a negative tag width fails the column minimum
   without wrapping and the column maximum with it; a tag line of less than 2^32 bits does not wrap.
   */
  lemma WrappedColsRejectAlike(ip: Ip, p: Partition)
    requires ip.Positive() && p.Positive() && !ip.fullyAssoc && 1 <= p.ndwl <= MAX_DATAN && p.nspd >= MIN_TAG_SPD
    requires ip.cacheSz < UNSIGNED_RANGE && ip.nbanks < UNSIGNED_RANGE && TagBits(ip) * ip.tagAssoc < UNSIGNED_RANGE
    ensures ColsInRange(WrappedTagCols(ip, p)) <==> ColsInRange(Cols(ip, true, p))
    ensures TagBits(ip) < 0 ==> WrappedTagCols(ip, p) > MAX_SUBARRAY_COLS && Cols(ip, true, p) < MIN_SUBARRAY_COLS
  {
    hide TagBits;
    TagLineBound(ip);
    WrapAlike(TagBits(ip) * ip.tagAssoc, p.nspd, p.ndwl);
    if TagBits(ip) < 0 {
      NonPositiveScaled(TagBits(ip) + 1, ip.tagAssoc);
    }
  }

  /** Of 32-bit inputs a tag width is negative for few ways only, so the product stays above minus 2^31. */
  lemma TagLineBound(ip: Ip)
    requires ip.Positive() && !ip.fullyAssoc && ip.cacheSz < UNSIGNED_RANGE && ip.nbanks < UNSIGNED_RANGE
    ensures TagBits(ip) * ip.tagAssoc >= -UNSIGNED_RANGE / 2
  {
    if TagBits(ip) < 0 {
      NegativeTag(ip);
      NegativeTimes(TagBits(ip), ip.tagAssoc);
    } else {
      NonPositiveScaled(-TagBits(ip), ip.tagAssoc);
    }
  }

  lemma NegativeTag(ip: Ip)
    requires ip.Positive() && !ip.fullyAssoc && ip.cacheSz < UNSIGNED_RANGE && ip.nbanks < UNSIGNED_RANGE
    requires TagBits(ip) < 0
    ensures TagBits(ip) >= -16 && ip.tagAssoc <= 32768
  {
    LogBelow(ip.cacheSz);
    LogBelow(ip.nbanks);
    SmallLog(ip.tagAssoc * 2 - 1);
  }

  lemma SmallLog(n: nat)
    requires n > 0
    ensures Log2(n) < 15 ==> n < 32768
  {
    if Log2(n) < 15 {
      PowerBelow(Log2(n) + 1, 15);
    }
  }

  lemma LogBelow(n: nat)
    requires 0 < n < UNSIGNED_RANGE
    ensures Log2(n) <= 31
  {
    if Log2(n) >= 32 {
      PowerBelow(32, Log2(n));
      assert Pow2(16) == 65536;
      Pow2Sum(16, 16);
    }
  }

  lemma PowerBelow(a: nat, b: nat)
    requires a <= b
    ensures Pow2(a) <= Pow2(b) && Pow2(15) == 32768
  {
    assert Pow2(8) == 256;
    assert Pow2(15) == 128 * Pow2(8);
    if a < b {
      Pow2Increases(a, b);
    }
  }

  lemma NegativeTimes(t: int, a: nat)
    requires -16 <= t < 0 && a <= 32768
    ensures t * a >= -524288
  {
    assert t * a >= -16 * a;
  }

  lemma WrapAlike(n: int, s: real, d: nat)
    requires -UNSIGNED_RANGE / 2 <= n < UNSIGNED_RANGE && s >= MIN_TAG_SPD && 1 <= d <= MAX_DATAN
    ensures ColsInRange(SpreadOver(n % UNSIGNED_RANGE, s, d)) <==> ColsInRange(SpreadOver(n, s, d))
    ensures n < 0 ==>
              SpreadOver(n % UNSIGNED_RANGE, s, d) > MAX_SUBARRAY_COLS && SpreadOver(n, s, d) < MIN_SUBARRAY_COLS
  {
    hide SpreadOver;
    if n < 0 {
      SpreadNonPositive(n, s, d);
      SpreadWide(n + UNSIGNED_RANGE, s, d);
    }
  }

  /** Half the unsigned range, at the least Nspd and the most wordlines, is twice the column maximum. */
  lemma SpreadWide(n: int, s: real, d: nat)
    requires n >= UNSIGNED_RANGE / 2 && s >= MIN_TAG_SPD && 1 <= d <= MAX_DATAN
    ensures SpreadOver(n, s, d) > MAX_SUBARRAY_COLS
  {
    var q := n as real * s / d as real;
    assert q * d as real == n as real * s;
    ProductAtLeast(n as real, s, 268435456.0);
    if q < 524288.0 {
      ProductBelow(q, d as real, 524288.0, 512.0);
    }
  }

  lemma ProductAtLeast(n: real, s: real, m: real)
    requires n >= 8.0 * m && s >= 0.125 && m >= 0.0
    ensures n * s >= m
  {
    assert n * s - m == (n - 8.0 * m) * s + m * (8.0 * s - 1.0);
  }

  lemma ProductBelow(q: real, d: real, a: real, b: real)
    requires q < a && 0.0 < d <= b && a > 0.0
    ensures q * d < a * b
  {
    assert a * b - q * d == (a - q) * d + a * (b - d);
  }

  lemma NonPositiveScaled(t: int, a: nat)
    requires t <= 0
    ensures t * a <= 0
  {
  }

  lemma SpreadNonPositive(n: int, s: real, d: nat)
    requires n <= 0 && s > 0.0 && d > 0
    ensures SpreadOver(n, s, d) <= 0
  {
    NonPositiveQuotient(n as real, s, d as real);
  }

  lemma NonPositiveQuotient(x: real, s: real, d: real)
    requires x <= 0.0 && s > 0.0 && d > 0.0
    ensures x * s / d <= 0.0
  {
    var n := x * s;
    assert n <= 0.0;
    NonPositiveRatio(n, d);
  }

  lemma NonPositiveRatio(n: real, d: real)
    requires n <= 0.0 && d > 0.0
    ensures n / d <= 0.0
  {
  }

  lemma SubbankNonNegative(ip: Ip, isTag: bool, isMainMem: bool)
    requires ip.Positive() && (isTag ==> TagBits(ip) > 0)
    ensures SubbankOutBits(ip, isTag, isMainMem) >= 0
  {
    if isTag {
      PositiveProduct(TagBits(ip), ip.tagAssoc);
    }
  }

  lemma AtLeastOne(n: int, d: int)
    requires 0 < d <= n
    ensures n / d >= 1
  {
  }

  lemma RowsNonNegative(ip: Ip, isTag: bool, p: Partition)
    requires ip.Positive() && p.Positive() && p.ndbl >= 1
    ensures Rows(ip, isTag, p) >= 0
  {
    if ip.fullyAssoc {
      PositiveProduct(ip.blockSz, p.ndbl);
    } else {
      ScaledPositive(RowDivisor(ip, isTag, p), p.nspd);
      NonNegativeRatio(ip.cacheSz as real, RowDivisor(ip, isTag, p) as real * p.nspd);
    }
  }

  lemma NonNegativeRatio(n: real, d: real)
    requires n >= 0.0 && d > 0.0
    ensures n / d >= 0.0
  {
  }
}
