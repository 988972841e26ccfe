/**
 The input check that runs before any search.  It fixes the access mode and the associativities, and establishes
 what the geometry relies on.
 */
module Io {
  import opened BasicCircuit
  import opened Parameter
  import opened Conservation

  datatype Verdict =
    | Checked        // the program goes on
    | Rejected       // an error message and exit
    | DivideByZero   // the program divides by zero before it can answer

  /** The fields as read from the configuration; the check does not change them. */
  datatype Config = Config(
    cacheSz: nat, lineSz: nat, assoc: nat, nbanks: nat, outW: nat, accessMode: nat, featureSize: real,
    ports: nat, temp: nat, isMainMem: bool, aggressiveProjection: bool)
  {
    /** Bytes in one bank. */
    function BankBytes(): nat
      requires nbanks > 0
    {
      cacheSz / nbanks
    }

    /** Ways of a set: as many lines as fit in the bank when fully associative. */
    function Ways(): nat
      requires nbanks > 0 && lineSz > 0
    {
      if assoc == 0 then BankBytes() / lineSz else assoc
    }

    function Sets(): nat
      requires nbanks > 0 && lineSz > 0 && Ways() > 0
    {
      PositiveProduct(lineSz, Ways());
      BankBytes() / (lineSz * Ways())
    }

    /** The checks made before the number of sets is first divided out. */
    ghost predicate EarlyChecks() {
      && !(isMainMem && aggressiveProjection)
      && lineSz >= 1 && lineSz * 8 >= outW
      && 0.0 < featureSize <= 0.091
      && ports >= 1
      && PowerOfTwo(nbanks) && nbanks > 0
      && BankBytes() >= 64
      && (assoc <= 1 || PowerOfTwo(assoc))
    }

    /** The division that has no guard: a fully associative bank smaller than one line has zero ways. */
    ghost predicate NoWays()
      requires nbanks > 0
    {
      assoc == 0 && lineSz > BankBytes()
    }

    /** What the check as a whole lets through. */
    ghost predicate Passes() {
      EarlyChecks() && !NoWays() && Ways() > 0 && LateChecks()
    }

    ghost predicate LateChecks()
      requires nbanks > 0 && lineSz > 0 && Ways() > 0
    {
      && Sets() >= (if assoc == 0 then 1 else 2)
      && 300 <= temp <= 400 && temp % 10 == 0
    }
  }

  class InputParameter {
    const cfg: Config
    var fastAccess: bool
    var isSeqAcc: bool
    var fullyAssoc: bool
    var blockSz: nat
    var tagAssoc: nat
    var dataAssoc: nat
    var nsets: nat

    constructor (cfg: Config)
      ensures this.cfg == cfg
    {
      this.cfg := cfg;
    }

    /** What the search reads afterwards: sequential access looks the data array up as direct mapped. */
    ghost predicate ModesSet()
      reads this
      requires cfg.nbanks > 0 && cfg.lineSz > 0 && cfg.Ways() > 0
    {
      && fastAccess == (cfg.accessMode >= 2)
      && isSeqAcc == (cfg.accessMode == 1)
      && fullyAssoc == (cfg.assoc == 0)
      && blockSz == cfg.lineSz
      && tagAssoc == cfg.Ways()
      && dataAssoc == (if isSeqAcc || fullyAssoc then 1 else cfg.Ways())
      && nsets == cfg.Sets()
    }

    /** The input as the geometry reads it; the remaining fields come from elsewhere in the configuration. */
    function Snapshot(rest: Ip): Ip
      reads this
    {
      rest.(cacheSz := cfg.cacheSz, blockSz := blockSz, nbanks := cfg.nbanks, outW := cfg.outW,
            tagAssoc := tagAssoc, dataAssoc := dataAssoc, fastAccess := fastAccess, fullyAssoc := fullyAssoc,
            isMainMem := cfg.isMainMem)
    }

    method CheckShape() returns (ok: bool)
      ensures ok <==> cfg.EarlyChecks()
    {
      if cfg.isMainMem && cfg.aggressiveProjection { return false; }
      if cfg.lineSz < 1 { return false; }
      if cfg.lineSz * 8 < cfg.outW { return false; }
      if cfg.featureSize <= 0.0 || cfg.featureSize > 0.091 { return false; }
      if cfg.ports < 1 { return false; }
      var pow2 := IsPow2(cfg.nbanks);
      if !pow2 { return false; }
      var c := cfg.cacheSz / cfg.nbanks;
      if c < 64 { return false; }
      if cfg.assoc > 1 {
        pow2 := IsPow2(cfg.assoc);
        if !pow2 { return false; }
      }
      return true;
    }

    /** The check, with its exact outcome on every input. */
    method ErrorChecking() returns (v: Verdict)
      modifies this
      ensures v == Rejected || cfg.EarlyChecks()
      ensures v == DivideByZero <==> cfg.EarlyChecks() && cfg.NoWays()
      ensures v == Checked <==> cfg.Passes()
      ensures v == Checked ==> ModesSet()
    {
      var seqAccess := cfg.accessMode == 1;
      fastAccess := !(cfg.accessMode == 0 || cfg.accessMode == 1);
      var ok := CheckShape();
      if !ok { return Rejected; }
      var c := cfg.cacheSz / cfg.nbanks;
      fullyAssoc := cfg.assoc == 0;
      var a := if cfg.assoc == 0 then c / cfg.lineSz else cfg.assoc;
      ZeroWays(c, cfg.lineSz);
      if a == 0 { return DivideByZero; }
      PositiveProduct(cfg.lineSz, a);
      var sets := c / (cfg.lineSz * a);
      if sets <= 1 && !fullyAssoc { return Rejected; }
      blockSz := cfg.lineSz;
      tagAssoc, dataAssoc, isSeqAcc := a, if seqAccess then 1 else a, seqAccess;
      if fullyAssoc { dataAssoc := 1; }
      nsets := sets;
      if cfg.temp < 300 || cfg.temp > 400 || cfg.temp % 10 != 0 { return Rejected; }
      if nsets < 1 { return Rejected; }
      return Checked;
    }
  }

  lemma ZeroWays(c: nat, line: nat)
    requires line > 0
    ensures c / line == 0 <==> line > c
  {
    if c >= line {
      AtLeastOne(c, line);
    }
  }

  /** The checks supply two of the four powers of two that capacity and address conservation ask for. */
  lemma CheckedOrganization(input: InputParameter, rest: Ip)
    requires input.cfg.Passes() && input.ModesSet()
    requires input.cfg.assoc != 0 && PowerOfTwo(input.cfg.lineSz) && PowerOfTwo(input.cfg.outW)
    ensures PowerOfTwoOrganization(input.Snapshot(rest)) && !input.Snapshot(rest).fullyAssoc
    ensures input.cfg.outW > 0 ==> input.Snapshot(rest).Positive()
  {
    assert Pow2(0) == 1;
    assert PowerOfTwo(1);
    assert input.cfg.cacheSz != 0 by {
      assert input.cfg.cacheSz / input.cfg.nbanks >= 64;
    }
  }

  /** A fully associative bank that passes is always a single set. */
  lemma FullyAssociativeIsOneSet(c: Config)
    requires c.EarlyChecks() && c.assoc == 0 && !c.NoWays()
    ensures c.Ways() > 0 && c.Sets() == 1
  {
    AtLeastOne(c.BankBytes(), c.lineSz);
    var line, q := c.lineSz, c.Ways();
    PositiveProduct(line, q);
    assert c.BankBytes() == q * line + c.BankBytes() % line;
    Scale(line, q);
    assert q * line == line * q;
    QuotientBracket(c.BankBytes(), line * q, 1);
  }

  /** 64 bytes, fully associative, in lines of 128 bytes. */
  const SHORT_OF_A_LINE := Config(64, 128, 0, 1, 64, 0, 0.032, 1, 300, false, false)

  /** An input on which the check divides by zero. */
  lemma ShortOfALineDivides()
    ensures SHORT_OF_A_LINE.EarlyChecks() && SHORT_OF_A_LINE.NoWays()
  {
    assert Pow2(0) == 1;
  }

  /** 1000 bytes in lines of 2, direct mapped. */
  const ODD_CONFIG := Config(1000, 2, 1, 1, 16, 0, 0.032, 1, 300, false, false)

  /** The odd capacity passes the check too, with the fields that `OddCapacityGrows` starts from. */
  lemma OddCapacityIsChecked(input: InputParameter)
    requires input.cfg == ODD_CONFIG
    ensures ODD_CONFIG.Passes()
    ensures input.ModesSet() ==> input.Snapshot(ODD_SIZE) == ODD_SIZE
  {
    assert Pow2(0) == 1;
  }

  /** 64 bytes in lines of one, a bit at a time: the array that is addressed more than once. */
  const SMALL_CONFIG := Config(64, 1, 1, 1, 1, 0, 0.032, 1, 300, false, false)

  lemma SmallIsChecked(input: InputParameter)
    requires input.cfg == SMALL_CONFIG
    ensures SMALL_CONFIG.Passes() && (input.ModesSet() ==> input.Snapshot(SMALL) == SMALL)
  {
    assert Pow2(0) == 1;
  }

  // ----- no output bits -----

  /** Nspd of the data search starts at the share of a line that is sent out at once. */
  function FirstDataSpd(ip: Ip): real
    requires ip.blockSz > 0
  {
    ip.outW as real / (ip.blockSz * 8) as real
  }

  /** Doubling from a start passes the maximum at some point. */
  ghost predicate DoublingEnds(start: real, max: real) {
    exists q: nat :: start * Pow2(q) as real > max
  }

  lemma DoublingEndsExactly(start: real, max: real)
    requires start >= 0.0 && max >= 0.0
    ensures DoublingEnds(start, max) <==> start > 0.0
  {
    if start > 0.0 {
      var q := (max / start).Floor + 1;
      assert max / start >= 0.0;
      ExceedsExponent(q);
      assert max / start * start == max;
      ScaleOrder(max / start, Pow2(q) as real, start);
    }
  }

  lemma {:induction false} ExceedsExponent(q: nat)
    ensures Pow2(q) >= q + 1
  {
    if q > 0 {
      ExceedsExponent(q - 1);
    }
  }

  const MAX_DATA_SPD := 256.0

  /** Of a checked input, the doubling loop of the data search ends if and only if some output bit is asked for. */
  lemma DataSearchEnds(input: InputParameter, rest: Ip)
    requires input.cfg.Passes() && input.ModesSet()
    ensures input.Snapshot(rest).blockSz > 0
    ensures DoublingEnds(FirstDataSpd(input.Snapshot(rest)), MAX_DATA_SPD) <==> input.cfg.outW > 0
  {
    var ip := input.Snapshot(rest);
    ShareSign(ip.outW as real, (ip.blockSz * 8) as real);
    DoublingEndsExactly(FirstDataSpd(ip), MAX_DATA_SPD);
  }

  lemma ShareSign(o: real, b: real)
    requires o >= 0.0 && b > 0.0
    ensures o / b >= 0.0 && (o / b > 0.0 <==> o > 0.0)
  {
    assert o / b * b == o;
  }

  /** 64 bytes of which no bit is sent out. */
  const NO_OUTPUT := Config(64, 1, 1, 1, 0, 0, 0.032, 1, 300, false, false)

  /** The check lets it through. */
  lemma NoOutputIsChecked()
    ensures NO_OUTPUT.Passes() && NO_OUTPUT.outW == 0
  {
    assert Pow2(0) == 1;
  }
}
