/**
 Sizing a chain of gates by logical effort: the number of stages from the total effort, the last stage from the load,
 and the stages before it filled in backwards, each smaller by the effective fanout.
 */
module GateChain {

  /** The library functions and device model the sizing calls: log(x)/log(4), pow, and gate capacitance by width. */
  datatype Library = Library(stagesOf: real -> real, pow: (real, real) -> real, gateC: real -> real)

  function MaxNat(a: int, b: int): int { if a > b then a else b }
  function MaxReal(a: real, b: real): real { if a > b then a else b }

  /** Conversion of a double to an int. */
  function Truncate(x: real): int {
    if x >= 0.0 then x.Floor else -((-x).Floor)
  }

  function RoundUpToEven(n: int): (r: int)
    ensures r % 2 == 0 && n <= r <= n + 1
  {
    if n % 2 != 0 then n + 1 else n
  }

  function Stages(lib: Library, effort: real, extra: int, atLeast: int): int {
    MaxNat(RoundUpToEven(Truncate(lib.stagesOf(effort)) + extra), atLeast)
  }

  /** A power raises a number of at least one to at least one, and one below one to below one. */
  ghost predicate PowerAt(lib: Library, x: real, e: real) {
    lib.pow(x, e) > 0.0 && (lib.pow(x, e) >= 1.0 <==> x >= 1.0)
  }

  /** A stage driving one of width x: smaller by the fanout, but no smaller than the minimum. */
  function StepDown(x: real, f: real, minW: real): real
    requires f > 0.0
  {
    MaxReal(x / f, minW)
  }

  function Pmos(ratio: real, w: real): real {
    ratio * w
  }

  /** Every stage from the stage after it. */
  ghost predicate FilledBackwards(w: seq<real>, n: nat, f: real, minW: real)
    requires n <= |w| && f > 0.0
  {
    forall i :: 1 <= i < n - 1 ==> w[i] == StepDown(w[i + 1], f, minW)
  }

  ghost predicate Ratio(wn: seq<real>, wp: seq<real>, from: int, n: nat, ratio: real)
    requires n <= |wn| && n <= |wp| && from >= 0
  {
    forall i :: from <= i < n ==> wp[i] == Pmos(ratio, wn[i])
  }

  /** Width of the n transistor of an inverter with the given input capacitance. */
  function WidthFor(lib: Library, ratio: real, cIn: real): real
    requires ratio > 0.0 && lib.gateC(1.0) > 0.0
  {
    1.0 / (1.0 + ratio) * cIn / lib.gateC(1.0)
  }

  /** Width of both transistors of an inverter together. */
  function BothWidths(ratio: real, w: real): real {
    (1.0 + ratio) * w
  }

  function Reciprocal(n: int): real
    requires n > 0
  {
    1.0 / n as real
  }

  /** What the caller hands over. */
  datatype Job = Job(atLeast: int, g: real, effort: real, load: real, ratio: real, minW: real, maxW: real)
  {
    predicate Valid(lib: Library) {
      && atLeast >= 2 && ratio > 0.0 && 0.0 < minW <= maxW && lib.gateC(1.0) > 0.0
      && lib.pow(effort, Reciprocal(FirstCount(lib))) > 0.0
    }

    function FirstCount(lib: Library): (n: int)
      ensures n >= atLeast
    {
      Stages(lib, effort, 0, atLeast)
    }

    /** Width of the last stage the load asks for, not below the minimum. */
    function LastWidth(lib: Library): real
      requires Valid(lib)
    {
      var cIn := load / lib.pow(effort, Reciprocal(FirstCount(lib)));
      MaxReal(WidthFor(lib, ratio, cIn), minW)
    }

    /** Effort of the chain ahead of a last stage of greatest width. */
    function CappedEffort(lib: Library, first: real): real
      requires lib.gateC(first) > 0.0
    {
      g * lib.gateC(BothWidths(ratio, maxW)) / lib.gateC(first)
    }

    function CappedCount(lib: Library, first: real): (n: int)
      requires lib.gateC(first) > 0.0
      ensures n >= atLeast
    {
      Stages(lib, CappedEffort(lib, first), 1, atLeast)
    }
  }

  /** The sizing in effect: number of stages, fanout and the effort it is the root of, and the last width. */
  datatype Sizing = Sizing(n: nat, f: real, effort: real, exponent: real, last: real)

  /** Without the width limit, and with it. */
  function SizingOf(lib: Library, j: Job, first: real): Sizing
    requires j.Valid(lib) && lib.gateC(first) > 0.0
  {
    var n := j.FirstCount(lib);
    if j.LastWidth(lib) > j.maxW then
      var m, e := j.CappedCount(lib, first), j.CappedEffort(lib, first);
      Sizing(m, lib.pow(e, Reciprocal(m - 1)), e, Reciprocal(m - 1), j.maxW)
    else
      Sizing(n, lib.pow(j.effort, Reciprocal(n)), j.effort, Reciprocal(n), j.LastWidth(lib))
  }

  /** The stage count is even, or the minimum asked for; the last width lies within the limits. */
  lemma SizingShape(lib: Library, j: Job, first: real)
    requires j.Valid(lib) && lib.gateC(first) > 0.0
    ensures var s := SizingOf(lib, j, first);
            && s.n >= 2 && (s.n % 2 == 0 || s.n == j.atLeast) && j.minW <= s.last <= j.maxW
            && (PowerAt(lib, s.effort, s.exponent) ==> (s.f >= 1.0 <==> s.effort >= 1.0))
  {
  }

  /** The last stage, capped at the greatest width; in that case the count and fanout are worked out anew. */
  method SizeLast(lib: Library, j: Job, wn: array<real>, wp: array<real>) returns (numGates: nat, f: real)
    requires wn != wp && wn.Length == wp.Length && wn.Length > 0
    requires j.Valid(lib) && lib.gateC(wn[0] + wp[0]) > 0.0
    requires j.FirstCount(lib) <= wn.Length
    requires j.LastWidth(lib) > j.maxW ==> j.CappedCount(lib, wn[0] + wp[0]) <= wn.Length
    modifies wn, wp
    ensures var s := SizingOf(lib, j, old(wn[0] + wp[0]));
            && numGates == s.n && 2 <= numGates <= wn.Length && f == s.f
            && wn[numGates - 1] == s.last && wp[numGates - 1] == Pmos(j.ratio, wn[numGates - 1])
    ensures wn[0] == old(wn[0]) && wp[0] == old(wp[0])
  {
    hide WidthFor;
    hide Reciprocal;
    hide Pmos;
    hide Stages;
    var gates := CountStages(lib, j.effort, 0, j.atLeast);
    numGates := gates;
    f := Root(lib, j.effort, numGates);
    var i := numGates - 1;
    var w := LastStage(lib, j, j.load / f);
    wn[i] := w;
    w := Opposite(j.ratio, wn[i]);
    wp[i] := w;
    if wn[i] > j.maxW {
      var effort := EffortToGreatest(lib, j, wn[0] + wp[0]);
      gates := CountStages(lib, effort, 1, j.atLeast);
      numGates := gates;
      f := Root(lib, effort, numGates - 1);
      i := numGates - 1;
      wn[i] := j.maxW;
      w := Opposite(j.ratio, wn[i]);
      wp[i] := w;
    }
  }

  method Root(lib: Library, effort: real, n: int) returns (f: real)
    requires n > 0
    ensures f == lib.pow(effort, Reciprocal(n))
  {
    f := lib.pow(effort, 1.0 / n as real);
  }

  /** The n transistor for an input capacitance, no narrower than the narrowest. */
  method LastStage(lib: Library, j: Job, cIn: real) returns (w: real)
    requires j.ratio > 0.0 && lib.gateC(1.0) > 0.0
    ensures w == MaxReal(WidthFor(lib, j.ratio, cIn), j.minW)
  {
    w := 1.0 / (1.0 + j.ratio) * cIn / lib.gateC(1.0);
    if w < j.minW {
      w := j.minW;
    }
  }

  method Opposite(ratio: real, wn: real) returns (wp: real)
    ensures wp == Pmos(ratio, wn)
  {
    wp := ratio * wn;
  }

  method EffortToGreatest(lib: Library, j: Job, first: real) returns (effort: real)
    requires lib.gateC(first) > 0.0
    ensures effort == j.CappedEffort(lib, first)
  {
    var w := j.maxW + j.ratio * j.maxW;
    assert w == BothWidths(j.ratio, j.maxW);
    effort := j.g * lib.gateC(w) / lib.gateC(first);
  }

  /** The stage ahead: smaller by the fanout, no narrower than the narrowest. */
  method StageAhead(next: real, f: real, minW: real) returns (w: real)
    requires f > 0.0
    ensures w == StepDown(next, f, minW)
  {
    w := next / f;
    if w < minW {
      w := minW;
    }
  }

  /** The logarithm truncated, plus what is asked for on top, made even, and no less than the least allowed. */
  method CountStages(lib: Library, effort: real, extra: int, atLeast: int) returns (n: int)
    ensures n == Stages(lib, effort, extra, atLeast)
  {
    n := Truncate(lib.stagesOf(effort)) + extra;
    if n % 2 != 0 {
      n := n + 1;
    }
    if n < atLeast {
      n := atLeast;
    }
  }

  /** Truncation towards zero, exactly. */
  lemma TruncateTowardsZero(x: real)
    ensures x >= 0.0 ==> 0.0 <= Truncate(x) as real <= x < Truncate(x) as real + 1.0
    ensures x <= 0.0 ==> Truncate(x) as real - 1.0 < x <= Truncate(x) as real <= 0.0
  {
    if x < 0.0 {
      var f := (-x).Floor;
      assert f as real <= -x < f as real + 1.0;
      assert Truncate(x) == -f;
      assert (-f) as real == 0.0 - f as real;
    }
  }

  method FillBack(n: nat, f: real, j: Job, wn: array<real>, wp: array<real>)
    requires wn != wp && wn.Length == wp.Length && 2 <= n <= wn.Length && f > 0.0
    requires wp[n - 1] == Pmos(j.ratio, wn[n - 1])
    modifies wn, wp
    ensures FilledBackwards(wn[..], n, f, j.minW) && Ratio(wn[..], wp[..], 1, n, j.ratio)
    ensures wn[0] == old(wn[0]) && wp[0] == old(wp[0]) && wn[n - 1] == old(wn[n - 1])
  {
    hide StepDown;
    hide Pmos;
    var i := n - 2;
    while i >= 1
      invariant 0 <= i <= n - 2 && wn[n - 1] == old(wn[n - 1])
      invariant forall k :: i < k < n - 1 ==> wn[k] == StepDown(wn[k + 1], f, j.minW)
      invariant forall k :: i < k < n ==> wp[k] == Pmos(j.ratio, wn[k])
      invariant wn[0] == old(wn[0]) && wp[0] == old(wp[0])
    {
      var w := StageAhead(wn[i + 1], f, j.minW);
      wn[i] := w;
      w := Opposite(j.ratio, wn[i]);
      wp[i] := w;
      i := i - 1;
    }
  }

  /** logical_effort: stage 0 is the caller's; stages 1 to n - 1 are written. */
  method LogicalEffort(lib: Library, j: Job, wn: array<real>, wp: array<real>) returns (numGates: nat)
    requires wn != wp && wn.Length == wp.Length && wn.Length > 0
    requires j.Valid(lib) && lib.gateC(wn[0] + wp[0]) > 0.0
    requires j.FirstCount(lib) <= wn.Length
    requires j.LastWidth(lib) > j.maxW ==> j.CappedCount(lib, wn[0] + wp[0]) <= wn.Length
    requires SizingOf(lib, j, wn[0] + wp[0]).f > 0.0
    modifies wn, wp
    ensures var s := SizingOf(lib, j, old(wn[0] + wp[0]));
            && numGates == s.n <= wn.Length && numGates >= 2 && wn[numGates - 1] == s.last
            && FilledBackwards(wn[..], numGates, s.f, j.minW)
            && Ratio(wn[..], wp[..], 1, numGates, j.ratio)
    ensures wn[0] == old(wn[0]) && wp[0] == old(wp[0])
  {
    hide SizingOf;
    var f;
    numGates, f := SizeLast(lib, j, wn, wp);
    FillBack(numGates, f, j, wn, wp);
  }

  ghost predicate Nondecreasing(w: seq<real>, from: nat, n: nat)
    requires n <= |w|
  {
    forall i :: from <= i < n - 1 ==> w[i] <= w[i + 1]
  }

  ghost predicate InLimits(w: seq<real>, n: nat, minW: real, maxW: real)
    requires n <= |w|
  {
    forall i :: 1 <= i < n ==> minW <= w[i] <= maxW
  }

  /** The next stage is f times this one, or less where this one is held at the minimum. */
  ghost predicate StepAtMost(w: real, next: real, f: real, minW: real) {
    next <= f * w && (next == f * w || w == minW)
  }

  ghost predicate StepsByAtMost(w: seq<real>, n: nat, f: real, minW: real)
    requires n <= |w|
  {
    forall i :: 1 <= i < n - 1 ==> StepAtMost(w[i], w[i + 1], f, minW)
  }

  lemma StepBack(x: real, f: real, minW: real)
    requires f > 0.0 && 0.0 < minW <= x
    ensures StepAtMost(StepDown(x, f, minW), x, f, minW)
    ensures f >= 1.0 ==> minW <= StepDown(x, f, minW) <= x
    ensures f < 1.0 ==> StepDown(x, f, minW) > x
  {
    var q := x / f;
    assert q * f == x;
    if q <= minW {
      Scaled(q, minW, f);
    }
    if f >= 1.0 {
      Scaled(1.0, f, q);
    } else {
      Shrinks(f, q);
    }
  }

  lemma Scaled(x: real, y: real, f: real)
    requires x <= y && f > 0.0
    ensures x * f <= y * f && f * x <= f * y
  {
  }

  lemma Shrinks(f: real, q: real)
    requires 0.0 < f < 1.0 && q * f > 0.0
    ensures q * f < q
  {
    assert q > 0.0;
    assert q - q * f == q * (1.0 - f);
  }

  lemma {:induction false} StagesFromBack(w: seq<real>, n: nat, f: real, minW: real, maxW: real, i: nat)
    requires 2 <= n <= |w| && f > 0.0 && 0.0 < minW && FilledBackwards(w, n, f, minW)
    requires minW <= w[n - 1] <= maxW && 1 <= i < n
    ensures w[i] >= minW && (f >= 1.0 ==> w[i] <= maxW)
    decreases n - i
  {
    if i < n - 1 {
      StagesFromBack(w, n, f, minW, maxW, i + 1);
      StepBack(w[i + 1], f, minW);
    }
  }

  /**
   The finished chain: steps of at most f; and sizes grow towards the load and stay within the limits exactly when the
   fanout in effect is at least one or there is no stage to fill in.
   */
  lemma ChainShape(w: seq<real>, n: nat, f: real, minW: real, maxW: real)
    requires 2 <= n <= |w| && f > 0.0 && 0.0 < minW && FilledBackwards(w, n, f, minW) && minW <= w[n - 1] <= maxW
    ensures StepsByAtMost(w, n, f, minW)
    ensures Nondecreasing(w, 1, n) <==> f >= 1.0 || n == 2
    ensures f >= 1.0 || n == 2 ==> InLimits(w, n, minW, maxW)
    ensures w[n - 1] == maxW ==> (InLimits(w, n, minW, maxW) <==> f >= 1.0 || n == 2)
  {
    hide StepAtMost;
    forall i | 1 <= i < n - 1
      ensures StepAtMost(w[i], w[i + 1], f, minW)
      ensures if f >= 1.0 then w[i] <= w[i + 1] else w[i] > w[i + 1]
    {
      StagesFromBack(w, n, f, minW, maxW, i + 1);
      StepBack(w[i + 1], f, minW);
    }
    forall i | 1 <= i < n ensures w[i] >= minW && (f >= 1.0 ==> w[i] <= maxW) {
      StagesFromBack(w, n, f, minW, maxW, i);
    }
    if f < 1.0 && n > 2 {
      assert w[n - 2] > w[n - 1];
    }
  }

  /** From the caller's side: with an effort of at least one in the branch taken, the chain is well formed. */
  lemma ChainFromEffort(lib: Library, j: Job, first: real, w: seq<real>)
    requires j.Valid(lib) && lib.gateC(first) > 0.0
    requires var s := SizingOf(lib, j, first);
             && s.n <= |w| && s.f > 0.0 && w[s.n - 1] == s.last && FilledBackwards(w, s.n, s.f, j.minW)
             && PowerAt(lib, s.effort, s.exponent)
    ensures var s := SizingOf(lib, j, first);
            && StepsByAtMost(w, s.n, s.f, j.minW)
            && (Nondecreasing(w, 1, s.n) <==> s.effort >= 1.0 || s.n == 2)
            && (s.effort >= 1.0 || s.n == 2 ==> InLimits(w, s.n, j.minW, j.maxW))
  {
    SizingShape(lib, j, first);
    var s := SizingOf(lib, j, first);
    ChainShape(w, s.n, s.f, j.minW, j.maxW);
  }
}
