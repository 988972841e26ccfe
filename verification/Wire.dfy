/**
 Global wires.  Initialization lays out a grid of candidate repeater spacings and sizes starting at the delay
 optimum, and picks for each allowed slowdown of 30, 20, 10 and 5 percent the cheapest candidate, filtering one list
 more and more tightly while it goes.
 */
module Wire {
  import opened MemArray
  import opened Repeater
  import opened Select
  import opened StdList

  /** A wire class: never assigned, or the figures of one repeater spacing and size. */
  datatype Component = Blank | Repeated(delay: real, dyn: real, leak: real, spacing: real, size: real)

  /** The model used for the candidates.  It loads each segment with the output, not the input, capacitance. */
  function WireModel(d: Device, spacing: real, size: real): Component
    requires spacing > 0.0 && size > 0.0
  {
    Repeated(Delay(d, d.outCap, 1.0, spacing, size), Dynamic(d, d.outCap, 1.0, spacing, size),
             Leakage(d, 1.0, spacing, size), spacing, size)
  }

  // ----- the candidate grid, spacings in microns -----

  const MICRON := 0.000001
  const MICRONS_PER_METRE := 1000000.0

  function Row(d: Device, j: real, i: real): seq<Component>
    requires j > 0.0
    decreases i
  {
    if i > 1.0 then [WireModel(d, j * MICRON, i)] + Row(d, j, i - 1.0) else []
  }

  function GridFrom(d: Device, sp: real, si: real, j: real): seq<Component>
    requires j > 0.0
    decreases 4.0 * sp - j
  {
    if j < 4.0 * sp then Row(d, j, si) + GridFrom(d, sp, si, j + 100.0) else []
  }

  /** Entry n of a row has size i - n, for as long as that exceeds one. */
  lemma {:induction false} RowAt(d: Device, j: real, i: real, n: nat)
    requires j > 0.0
    ensures n < |Row(d, j, i)| <==> i - n as real > 1.0
    ensures n < |Row(d, j, i)| ==> Row(d, j, i)[n] == WireModel(d, j * MICRON, i - n as real)
    decreases n
  {
    if i > 1.0 && n > 0 {
      RowAt(d, j, i - 1.0, n - 1);
    }
  }

  /** The candidate m columns and n sizes away from spacing j and size si. */
  predicate Entry(d: Device, sp: real, si: real, j: real, m: nat, n: nat, x: Component)
    requires j > 0.0
  {
    && j + 100.0 * m as real < 4.0 * sp && si - n as real > 1.0
    && x == WireModel(d, (j + 100.0 * m as real) * MICRON, si - n as real)
  }

  lemma EntryShift(d: Device, sp: real, si: real, j: real, m: nat, n: nat, x: Component)
    requires j > 0.0
    ensures Entry(d, sp, si, j, m + 1, n, x) <==> Entry(d, sp, si, j + 100.0, m, n, x)
  {
    hide WireModel;
    assert j + 100.0 * ((m + 1) as real) == j + 100.0 + 100.0 * m as real;
  }

  /** Exactly the spacings sp, sp + 100, ... below 4 sp, with the sizes si, si - 1, ... above 1. */
  lemma {:induction false} GridMembers(d: Device, sp: real, si: real, j: real, x: Component)
    requires j > 0.0
    ensures x in GridFrom(d, sp, si, j) <==> exists m: nat, n: nat :: Entry(d, sp, si, j, m, n, x)
    decreases 4.0 * sp - j
  {
    hide WireModel;
    if j < 4.0 * sp {
      var next := j + 100.0;
      GridMembers(d, sp, si, next, x);
      RowMembers(d, sp, si, j, x);
      if m: nat, n: nat :| Entry(d, sp, si, next, m, n, x) {
        EntryShift(d, sp, si, j, m, n, x);
        assert Entry(d, sp, si, j, m + 1, n, x);
      }
      if m: nat, n: nat :| Entry(d, sp, si, j, m, n, x) {
        if m > 0 {
          EntryShift(d, sp, si, j, m - 1, n, x);
        }
      }
    } else {
      forall m: nat, n: nat ensures !Entry(d, sp, si, j, m, n, x) {
      }
    }
  }

  lemma RowMembers(d: Device, sp: real, si: real, j: real, x: Component)
    requires 0.0 < j < 4.0 * sp
    ensures x in Row(d, j, si) <==> exists n: nat :: Entry(d, sp, si, j, 0, n, x)
  {
    hide WireModel;
    hide Row;
    if x in Row(d, j, si) {
      var n :| 0 <= n < |Row(d, j, si)| && Row(d, j, si)[n] == x;
      RowAt(d, j, si, n);
      assert Entry(d, sp, si, j, 0, n, x);
    }
    if n: nat :| Entry(d, sp, si, j, 0, n, x) {
      RowAt(d, j, si, n);
    }
  }

  /** The whole grid of a device. */
  function Grid(d: Device, root: real -> real): seq<Component>
    requires d.Positive() && OptimalSpacing(d, root) > 0.0
  {
    var sp := OptimalSpacing(d, root) * MICRONS_PER_METRE;
    GridFrom(d, sp, OptimalSize(d, root), sp)
  }

  /** The delay-optimal wire is the first candidate whenever its size exceeds one; otherwise there are none. */
  lemma GridStart(d: Device, root: real -> real)
    requires Rooted(d, root)
    ensures OptimalSize(d, root) > 1.0 ==>
              Grid(d, root) != [] && Grid(d, root)[0] == WireModel(d, OptimalSpacing(d, root), OptimalSize(d, root))
    ensures OptimalSize(d, root) <= 1.0 ==> Grid(d, root) == []
  {
    hide OptimalSpacing;
    hide OptimalSize;
    RootsPositive(d, root);
    var sp, si := OptimalSpacing(d, root) * MICRONS_PER_METRE, OptimalSize(d, root);
    assert sp * MICRON == OptimalSpacing(d, root);
    if si <= 1.0 {
      NoRows(d, sp, si, sp);
    }
  }

  lemma {:induction false} NoRows(d: Device, sp: real, si: real, j: real)
    requires j > 0.0 && si <= 1.0
    ensures GridFrom(d, sp, si, j) == []
    decreases 4.0 * sp - j
  {
    if j < 4.0 * sp {
      NoRows(d, sp, si, j + 100.0);
    }
  }

  // ----- how the two delay models relate -----

  /** The two delay expressions agree at the optimum exactly when the two capacitances do. */
  lemma ModelsAgree(d: Device, spacing: real, size: real)
    requires d.Positive() && spacing > 0.0 && size > 0.0
    ensures WireModel(d, spacing, size).delay == Delay(d, d.inCap, 1.0, spacing, size) <==> d.inCap == d.outCap
  {
    hide Delay;
    hide SizePart;
    DelaySplits(d, d.outCap, 1.0, spacing, size);
    DelaySplits(d, d.inCap, 1.0, spacing, size);
    LoadDifference(d, size);
  }

  lemma LoadDifference(d: Device, size: real)
    requires d.Positive() && size > 0.0
    ensures SizePart(d, d.outCap, size) == SizePart(d, d.inCap, size) <==> d.inCap == d.outCap
  {
    ProductPositive(d.wireRes, size);
    ScaledSign(d.wireRes * size, d.outCap - d.inCap);
    assert d.wireRes * size * (d.outCap - d.inCap) == d.wireRes * d.outCap * size - d.wireRes * d.inCap * size;
  }

  /** What decides whether one size smaller is faster in the candidates' model. */
  predicate OptimumHolds(d: Device, si: real) {
    si <= 2.0 || (si - 1.0) * d.outCap <= si * d.inCap
  }

  lemma SmallerSize(d: Device, si: real, i: real)
    requires d.Positive() && d.outRes * d.wireCap == d.wireRes * d.inCap * (si * si) && 0.0 < i < si
    ensures SizePart(d, d.outCap, i) < SizePart(d, d.outCap, si) <==> i * d.outCap > si * d.inCap
  {
    SpreadOrder(d.outRes * d.wireCap, d.wireRes * d.outCap, i, si);
    ProductPositive(d.wireRes, si);
    CompareScaled(d.outRes * d.wireCap, d.wireRes, si, i, d.outCap, d.inCap);
  }

  lemma CompareScaled(a: real, r: real, si: real, i: real, co: real, ci: real)
    requires r * si > 0.0 && a == r * ci * (si * si)
    ensures r * co * (i * si) > a <==> i * co > si * ci
  {
    ScaledSign(r * si, i * co - si * ci);
    FourProduct(r, co, i, si);
    FourProduct(r, ci, si, si);
  }

  lemma FourProduct(a: real, b: real, c: real, e: real)
    ensures a * b * (c * e) == a * e * (c * b)
  {
  }

  lemma SizesSlower(d: Device, k: real, i: real)
    requires d.Positive() && d.outRes * d.wireCap == d.wireRes * d.inCap * (k * k) && OptimumHolds(d, k)
    requires 1.0 < i && (i == k || i <= k - 1.0)
    ensures SizePart(d, d.outCap, i) >= SizePart(d, d.outCap, k)
  {
    hide SizePart;
    if i < k {
      SmallerSize(d, k, i);
      ScaledNonNegative(k - 1.0 - i, d.outCap);
      assert (k - 1.0 - i) * d.outCap == (k - 1.0) * d.outCap - i * d.outCap;
    }
  }

  lemma DelayOrder(d: Device, load: real, s: real, k: real, s2: real, k2: real)
    requires s > 0.0 && k > 0.0 && s2 > 0.0 && k2 > 0.0
    ensures Delay(d, load, 1.0, s, k) <= Delay(d, load, 1.0, s2, k2)
       <==> SpacingPart(d, s) + SizePart(d, load, k) <= SpacingPart(d, s2) + SizePart(d, load, k2)
  {
    hide SizePart;
    hide SpacingPart;
    hide Delay;
    DelaySplits(d, load, 1.0, s, k);
    DelaySplits(d, load, 1.0, s2, k2);
  }

  /** No candidate is faster than the first, when no smaller size is. */
  lemma CandidateSlower(d: Device, root: real -> real, spacing: real, i: real)
    requires Rooted(d, root) && spacing > 0.0 && OptimumHolds(d, OptimalSize(d, root))
    requires 1.0 < i && (i == OptimalSize(d, root) || i <= OptimalSize(d, root) - 1.0)
    ensures WireModel(d, spacing, i).delay >= WireModel(d, OptimalSpacing(d, root), OptimalSize(d, root)).delay
  {
    hide Delay;
    hide Dynamic;
    hide Leakage;
    hide SizePart;
    hide SpacingPart;
    hide OptimumHolds;
    RootsPositive(d, root);
    var s, k := OptimalSpacing(d, root), OptimalSize(d, root);
    BestSpacing(d, root, spacing);
    SizeBalance(d, k);
    SizesSlower(d, k, i);
    DelayOrder(d, d.outCap, s, k, spacing, i);
  }

  lemma ScaledNonNegative(x: real, c: real)
    requires x >= 0.0 && c >= 0.0
    ensures x * c >= 0.0
  {
  }

  /**
   The wire recorded as delay optimal is the fastest of all candidates exactly when no smaller size is tried, or the
   output capacitance is too small for one size less to win.
   */
  lemma FirstIsFastest(d: Device, root: real -> real)
    requires Rooted(d, root) && OptimalSize(d, root) > 1.0
    ensures Grid(d, root) != []
    ensures (forall x :: x in Grid(d, root) ==> x.Repeated? && x.delay >= Grid(d, root)[0].delay)
            <==> OptimumHolds(d, OptimalSize(d, root))
  {
    hide SizePart;
    hide SpacingPart;
    hide OptimalSpacing;
    hide OptimalSize;
    hide Delay;
    hide Dynamic;
    hide Leakage;
    RootsPositive(d, root);
    GridStart(d, root);
    var s, k := OptimalSpacing(d, root), OptimalSize(d, root);
    var sp := s * MICRONS_PER_METRE;
    var grid := Grid(d, root);
    if OptimumHolds(d, k) {
      forall x | x in grid ensures x.Repeated? && x.delay >= grid[0].delay {
        GridMembers(d, sp, k, sp, x);
        var m: nat, n: nat :| Entry(d, sp, k, sp, m, n, x);
        CandidateSlower(d, root, (sp + 100.0 * m as real) * MICRON, k - n as real);
      }
    } else {
      SecondIsFaster(d, root);
    }
  }

  lemma SecondIsFaster(d: Device, root: real -> real)
    requires Rooted(d, root) && OptimalSize(d, root) > 2.0 && !OptimumHolds(d, OptimalSize(d, root))
    ensures |Grid(d, root)| > 1 && Grid(d, root)[0].Repeated? && Grid(d, root)[1].Repeated?
    ensures Grid(d, root)[1].delay < Grid(d, root)[0].delay
  {
    hide SizePart;
    hide SpacingPart;
    hide OptimalSpacing;
    hide OptimalSize;
    hide Delay;
    hide Dynamic;
    hide Leakage;
    hide Row;
    RootsPositive(d, root);
    GridStart(d, root);
    var s, k := OptimalSpacing(d, root), OptimalSize(d, root);
    var sp := s * MICRONS_PER_METRE;
    assert sp * MICRON == s;
    RowAt(d, sp, k, 1);
    DelayOrder(d, d.outCap, s, k, s, k - 1.0);
    SmallerAtOptimum(d, root);
  }

  lemma SmallerAtOptimum(d: Device, root: real -> real)
    requires Rooted(d, root) && OptimalSize(d, root) > 2.0
    ensures var k := OptimalSize(d, root);
            SizePart(d, d.outCap, k - 1.0) < SizePart(d, d.outCap, k) <==> (k - 1.0) * d.outCap > k * d.inCap
  {
    SizeBalance(d, OptimalSize(d, root));
    SmallerSize(d, OptimalSize(d, root), OptimalSize(d, root) - 1.0);
  }

  /** A repeater whose drain weighs seven times its gate: optimal every 12 microns at size 3. */
  const DRAIN_HEAVY := Device(9.0, 1.0, 7.0, 1000000.0, 1000000.0, 1.0, 1.0, 1.0, 2.0)

  function ItsRoots(x: real): real {
    if x == 9.0 then 3.0 else 0.000012
  }

  lemma DrainHeavyOptimum()
    ensures Rooted(DRAIN_HEAVY, ItsRoots) && OptimalSize(DRAIN_HEAVY, ItsRoots) == 3.0
  {
    assert SizeSquare(DRAIN_HEAVY) == 9.0;
    assert SpacingSquare(DRAIN_HEAVY) == 0.000000000144;
  }

  /** Its second candidate is faster than the wire recorded as delay optimal. */
  lemma DrainHeavyIsFasterSmaller()
    ensures Rooted(DRAIN_HEAVY, ItsRoots) && |Grid(DRAIN_HEAVY, ItsRoots)| > 1
    ensures var g := Grid(DRAIN_HEAVY, ItsRoots); g[0].Repeated? && g[1].Repeated? && g[1].delay < g[0].delay
  {
    DrainHeavyOptimum();
    SecondIsFaster(DRAIN_HEAVY, ItsRoots);
  }

  // ----- choosing the cheapest candidate under each allowed slowdown -----

  predicate Assigned(g: Component) {
    g.Repeated? && g.delay > 0.0 && g.dyn > 0.0 && g.leak > 0.0
  }

  /** Allowed delays of the classes 5, 10, 20 and 30 percent, in that order. */
  function Threshold(g: Component, i: nat): real
    requires Assigned(g) && i < 4
  {
    if i == 0 then g.delay + g.delay * 0.05
    else if i == 1 then g.delay + g.delay * 0.1
    else if i == 2 then g.delay + g.delay * 0.2
    else g.delay + g.delay * 0.3
  }

  function RelativeCost(c: Component, g: Component): real
    requires Assigned(g) && c.Repeated?
  {
    c.dyn / g.dyn + c.leak / g.leak
  }

  predicate AllRepeated(s: seq<Component>) {
    forall i :: 0 <= i < |s| ==> s[i].Repeated?
  }

  /** A candidate slower than the threshold is out; otherwise its cost counts. */
  function WireScore(c: Component, t: real, g: Component): Score
    requires Assigned(g) && c.Repeated?
  {
    if c.delay > t then Infeasible else Cost(RelativeCost(c, g))
  }

  ghost function WireScores(s: seq<Component>, t: real, g: Component): (r: seq<Score>)
    requires Assigned(g) && AllRepeated(s)
    ensures |r| == |s| && forall i :: 0 <= i < |s| ==> r[i] == WireScore(s[i], t, g)
  {
    seq(|s|, i requires 0 <= i < |s| => WireScore(s[i], t, g))
  }

  /** The candidates within a delay. */
  function FastEnough(s: seq<Component>, t: real): (r: seq<Component>)
    requires AllRepeated(s)
    ensures AllRepeated(r)
  {
    if s == [] then []
    else
      var front, last := s[..|s| - 1], s[|s| - 1];
      if last.delay > t then FastEnough(front, t) else FastEnough(front, t) + [last]
  }

  lemma FastEnoughSnoc(s: seq<Component>, x: Component, t: real)
    requires AllRepeated(s) && x.Repeated?
    ensures FastEnough(s + [x], t) == if x.delay > t then FastEnough(s, t) else FastEnough(s, t) + [x]
  {
    assert (s + [x])[..|s|] == s;
  }

  /** Filtering twice is filtering by the tighter bound. */
  lemma {:induction false} FilteredTwice(s: seq<Component>, t: real, u: real)
    requires AllRepeated(s) && u <= t
    ensures FastEnough(FastEnough(s, t), u) == FastEnough(s, u)
  {
    if s != [] {
      var front, last := s[..|s| - 1], s[|s| - 1];
      FilteredTwice(front, t, u);
      var w := FastEnough(front, t);
      if last.delay <= t {
        FastEnoughSnoc(w, last, u);
      }
    }
  }

  lemma ScoresSnoc(s: seq<Component>, x: Component, t: real, g: Component)
    requires Assigned(g) && AllRepeated(s) && x.Repeated?
    ensures WireScores(s + [x], t, g) == WireScores(s, t, g) + [WireScore(x, t, g)]
  {
  }

  /** Entry q of a and entry r of b are the same candidate, or both are missing. */
  ghost predicate SamePick(a: seq<Component>, q: int, b: seq<Component>, r: int) {
    if q == -1 then r == -1 else 0 <= q < |a| && 0 <= r < |b| && a[q] == b[r]
  }

  /** The first best of a filtered list is the first best of the list it came from. */
  lemma {:induction false} CascadeBest(s: seq<Component>, t: real, u: real, g: Component, q: int) returns (r: int)
    requires Assigned(g) && AllRepeated(s) && u <= t
    requires IsFirstBest(WireScores(FastEnough(s, t), u, g), q)
    ensures IsFirstBest(WireScores(s, u, g), r) && SamePick(FastEnough(s, t), q, s, r)
  {
    hide RelativeCost;
    if s == [] {
      r := -1;
    } else {
      var front, last := s[..|s| - 1], s[|s| - 1];
      var w := FastEnough(front, t);
      var q0 := FirstBest(WireScores(w, u, g));
      var r0 := CascadeBest(front, t, u, g, q0);
      var x := WireScore(last, u, g);
      assert s == front + [last];
      ScoresSnoc(front, last, u, g);
      r := BestAfter(WireScores(front, u, g), x, r0);
      if last.delay <= t {
        ScoresSnoc(w, last, u, g);
        FirstBestUnique(WireScores(w + [last], u, g), q, BestAfter(WireScores(w, u, g), x, q0));
      } else {
        FirstBestUnique(WireScores(w, u, g), q, q0);
      }
    }
  }

  /** What class i holds after the search over s: its first cheapest candidate, or what it held before. */
  ghost predicate IsClass(s: seq<Component>, g: Component, i: nat, before: Component, after: Component)
    requires AllRepeated(s) && i < 4 && (s != [] ==> Assigned(g))
  {
    if s == [] then after == before
    else exists r :: IsFirstBest(WireScores(s, Threshold(g, i), g), r) && after == (if r == -1 then before else s[r])
  }

  lemma ThresholdsOrdered(g: Component, i: nat, j: nat)
    requires Assigned(g) && i <= j < 4
    ensures g.delay <= Threshold(g, i) <= Threshold(g, j)
  {
  }

  /** A class searched after looser ones is the class an independent search would find. */
  lemma CascadeClass(s: seq<Component>, g: Component, j: nat, i: nat, before: Component, after: Component)
    requires AllRepeated(s) && s != [] && Assigned(g) && i <= j < 4
    requires IsClass(FastEnough(s, Threshold(g, j)), g, i, before, after)
    ensures IsClass(s, g, i, before, after)
  {
    hide Threshold;
    hide RelativeCost;
    ThresholdsOrdered(g, i, j);
    var t, u := Threshold(g, j), Threshold(g, i);
    var w := FastEnough(s, t);
    var q;
    if w == [] {
      q := FirstBest(WireScores(w, u, g));
      EmptyBest(WireScores(w, u, g), q);
    } else {
      q :| IsFirstBest(WireScores(w, u, g), q) && after == (if q == -1 then before else w[q]);
    }
    var r := CascadeBest(s, t, u, g, q);
  }

  lemma EmptyBest(s: seq<Score>, q: int)
    requires s == [] && IsFirstBest(s, q)
    ensures q == -1
  {
  }

  /** With the delay-optimal wire among the candidates, every class is assigned, in bounds, and no dearer than it. */
  lemma ClassAssigned(s: seq<Component>, g: Component, i: nat, before: Component, after: Component)
    requires AllRepeated(s) && Assigned(g) && g in s && i < 4 && IsClass(s, g, i, before, after)
    ensures after in s && after.Repeated? && after.delay <= Threshold(g, i)
    ensures RelativeCost(after, g) <= 2.0
    ensures forall x :: x in s && x.delay <= Threshold(g, i) ==> RelativeCost(after, g) <= RelativeCost(x, g)
  {
    hide Threshold;
    hide RelativeCost;
    ThresholdsOrdered(g, i, i);
    SelfCost(g);
    var t := Threshold(g, i);
    var scores := WireScores(s, t, g);
    var r :| IsFirstBest(scores, r) && after == (if r == -1 then before else s[r]);
    var k :| 0 <= k < |s| && s[k] == g;
    assert scores[k] == Cost(2.0);
    assert r != -1;
    forall x | x in s && x.delay <= t ensures RelativeCost(after, g) <= RelativeCost(x, g) {
      var m :| 0 <= m < |s| && s[m] == x;
      assert scores[m] == Cost(RelativeCost(x, g));
    }
  }

  lemma SelfCost(g: Component)
    requires Assigned(g)
    ensures RelativeCost(g, g) == 2.0
  {
    assert g.dyn / g.dyn == 1.0 && g.leak / g.leak == 1.0;
  }

  /** A class allowed more delay costs no more. */
  lemma LooserIsCheaper(s: seq<Component>, g: Component, i: nat, j: nat, tight: Component, loose: Component,
                        b: Component, c: Component)
    requires AllRepeated(s) && Assigned(g) && g in s && i <= j < 4
    requires IsClass(s, g, i, b, tight) && IsClass(s, g, j, c, loose)
    ensures tight.Repeated? && loose.Repeated? && RelativeCost(loose, g) <= RelativeCost(tight, g)
  {
    hide IsClass;
    hide Threshold;
    ThresholdsOrdered(g, i, j);
    ClassAssigned(s, g, i, b, tight);
    ClassAssigned(s, g, j, c, loose);
  }

  // ----- the wire object -----

  datatype WireType = Global | Global5 | Global10 | Global20 | Global30

  /** As many repeaters as spacings fit the length. */
  function RepeaterArea(len: real, spacing: real, gate: real): real
    requires spacing > 0.0
  {
    len / spacing * gate
  }

  function AreaPerMetre(spacing: real, gate: real): real
    requires spacing > 0.0
  {
    gate / spacing
  }

  lemma AreaLinear(len: real, spacing: real, gate: real)
    requires spacing > 0.0
    ensures RepeaterArea(len, spacing, gate) == len * AreaPerMetre(spacing, gate)
  {
    var p, q := len / spacing, gate / spacing;
    assert p * spacing == len && q * spacing == gate;
    assert p * (q * spacing) == p * spacing * q;
  }

  class Wire {
    const d: Device
    const root: real -> real
    const repeatedWire: List<Component>
    var global: Component
    /** The classes 5, 10, 20 and 30 percent, in that order. */
    var classes: seq<Component>
    var repeaterSpacing: real
    var repeaterSize: real
    var delay: real
    var dyn: real
    var leak: real
    var area: real
    /** Layout area of a repeater of a given size. */
    const gateArea: real -> real

    ghost predicate Valid()
      reads this`classes
    {
      Rooted(d, root) && |classes| == 4
    }

    constructor (d: Device, root: real -> real, gateArea: real -> real)
      requires Rooted(d, root)
      ensures Valid() && this.d == d && this.root == root && this.gateArea == gateArea
      ensures fresh(repeatedWire) && repeatedWire.elems == []
      ensures global == Blank && classes == [Blank, Blank, Blank, Blank]
    {
      this.d, this.root, this.gateArea := d, root, gateArea;
      repeatedWire := new List<Component>();
      global, classes := Blank, [Blank, Blank, Blank, Blank];
      repeaterSpacing, repeaterSize, delay, dyn, leak, area := 0.0, 0.0, 0.0, 0.0, 0.0, 0.0;
    }

    /** Delay, switching and short-circuit energy, and leakage of the repeaters of a wire. */
    method Figures(load: real, len: real, spacing: real, size: real) returns (delay: real, dyn: real, leak: real)
      requires spacing > 0.0 && size > 0.0
      ensures delay == Delay(d, load, len, spacing, size) && dyn == Dynamic(d, load, len, spacing, size)
      ensures leak == Leakage(d, len, spacing, size)
    {
      var tc := d.outRes * (d.inCap + d.outCap) + d.outRes * d.wireCap * spacing / size
              + d.wireRes * spacing * load * size + 0.5 * d.wireRes * d.wireCap * spacing * spacing;
      delay := 0.693 * tc * len / spacing;
      var switching := (size * (d.inCap + d.outCap) + spacing * d.wireCap) * d.vdd * d.vdd;
      var shortCircuit := d.vdd * d.minWidth * 0.000065 * 1.0986 * size * tc;
      dyn := len / spacing * (switching + shortCircuit);
      leak := len / spacing * (1.0 + d.beta) / 2.0 * d.vdd * d.iOff * d.minWidth * size;
    }

    /** wire_model: the figures of one metre, loaded with the output capacitance. */
    method Candidate(spacing: real, size: real) returns (c: Component)
      requires spacing > 0.0 && size > 0.0
      ensures c == WireModel(d, spacing, size)
    {
      hide Delay;
      hide Dynamic;
      hide Leakage;
      var delay, dyn, leak := Figures(d.outCap, 1.0, spacing, size);
      c := Repeated(delay, dyn, leak, spacing, size);
    }

    /** Size and space the repeaters of a wire for least delay. */
    method DelayOptimalWire(len: real)
      requires Valid() && len > 0.0
      modifies this`repeaterSpacing, this`repeaterSize, this`delay, this`dyn, this`leak, this`area
      ensures repeaterSpacing == OptimalSpacing(d, root) > 0.0 && repeaterSize == OptimalSize(d, root) > 0.0
      ensures delay == Delay(d, d.inCap, len, repeaterSpacing, repeaterSize)
      ensures dyn == Dynamic(d, d.inCap, len, repeaterSpacing, repeaterSize)
      ensures leak == Leakage(d, len, repeaterSpacing, repeaterSize)
      ensures area == len * AreaPerMetre(repeaterSpacing, gateArea(repeaterSize))
      ensures forall s, k :: s > 0.0 && k > 0.0 ==> delay <= Delay(d, d.inCap, len, s, k)
    {
      RootsPositive(d, root);
      repeaterSpacing, repeaterSize := root(SpacingSquare(d)), root(SizeSquare(d));
      delay, dyn, leak := Figures(d.inCap, len, repeaterSpacing, repeaterSize);
      area := RepeaterArea(len, repeaterSpacing, gateArea(repeaterSize));
      AreaLinear(len, repeaterSpacing, gateArea(repeaterSize));
      forall s, k | s > 0.0 && k > 0.0 ensures delay <= Delay(d, d.inCap, len, s, k) {
        DelayOptimum(d, root, len, s, k);
      }
    }

    /** One pass: drop the candidates beyond class i's allowance, keep the first cheapest of the rest. */
    method SearchClass(i: nat)
      requires Valid() && i < 4 && AllRepeated(repeatedWire.elems) && (repeatedWire.elems != [] ==> Assigned(global))
      modifies this`classes, repeatedWire
      ensures Valid() && AllRepeated(repeatedWire.elems)
      ensures repeatedWire.elems
           == if old(repeatedWire.elems) == [] then [] else InClass(old(repeatedWire.elems), global, i)
      ensures IsClass(old(repeatedWire.elems), global, i, old(classes)[i], classes[i])
      ensures classes == old(classes)[i := classes[i]]
    {
      ghost var s := repeatedWire.elems;
      ghost var before := classes;
      if repeatedWire.Empty() {
        return;
      }
      hide FastEnough;
      hide Threshold;
      hide RelativeCost;
      var threshold := Threshold(global, i);
      var cost := BIGNUM;
      ghost var k: nat, r: int := 0, -1;
      var citer := repeatedWire.Begin();
      FastEnoughNone(threshold);
      while citer != repeatedWire.End()
        invariant 0 <= citer <= |repeatedWire.elems|
        invariant Passing(s, k, threshold, repeatedWire.elems, citer)
        invariant IsFirstBest(WireScores(s[..k], threshold, global), r)
        invariant |classes| == 4 && classes == before[i := if r == -1 then before[i] else s[r]]
        invariant cost == if r == -1 then BIGNUM else RelativeCost(s[r], global)
        decreases |repeatedWire.elems| - citer
      {
        var c := repeatedWire.At(citer);
        PassingAt(s, k, threshold, repeatedWire.elems, citer);
        BestSnoc(s, k, threshold, global, r);
        if c.delay > threshold {
          PassingErase(s, k, threshold, repeatedWire.elems, citer);
          citer := repeatedWire.Erase(citer);
          citer := repeatedWire.Prev(citer);
        } else {
          PassingKeep(s, k, threshold, repeatedWire.elems, citer);
          var ncost := RelativeCost(c, global);
          if ncost < cost {
            cost := ncost;
            classes := classes[i := c];
            r := k;
          }
        }
        k := k + 1;
        citer := repeatedWire.Next(citer);
      }
      PassingDone(s, k, threshold, repeatedWire.elems, citer);
    }

    /** All four classes, loosest first, from one list. */
    method UpdateFullswing()
      requires Valid() && AllRepeated(repeatedWire.elems) && (repeatedWire.elems != [] ==> Assigned(global))
      modifies this`classes, repeatedWire
      ensures Valid()
      ensures forall i :: 0 <= i < 4 ==> IsClass(old(repeatedWire.elems), global, i, old(classes)[i], classes[i])
    {
      hide IsClass;
      ghost var s := repeatedWire.elems;
      ghost var before := classes;
      var i := 4;
      while i > 0
        invariant 0 <= i <= 4 && Valid()
        invariant repeatedWire.elems == if s == [] || i == 4 then s else InClass(s, global, i)
        invariant forall j :: 0 <= j < i ==> classes[j] == before[j]
        invariant forall j :: i <= j < 4 ==> IsClass(s, global, j, before[j], classes[j])
      {
        ghost var elems := repeatedWire.elems;
        SearchClass(i - 1);
        if s != [] && i < 4 {
          NextClass(s, global, i - 1, before[i - 1], classes[i - 1]);
        }
        i := i - 1;
      }
    }

    /** Lay out the candidates from the delay optimum on, then choose the classes among them. */
    method InitWire()
      requires Valid() && repeatedWire.elems == []
      modifies this, repeatedWire
      ensures Valid()
      ensures if OptimalSize(d, root) > 1.0 then WellChosen(d, root, global, classes)
              else global == old(global) && classes == old(classes)
    {
      DelayOptimalWire(1.0);
      LayOutCandidates();
      ghost var grid := repeatedWire.elems;
      ghost var before := classes;
      GridStart(d, root);
      GridRepeated(d, root);
      UpdateFullswing();
      if OptimalSize(d, root) > 1.0 {
        ChosenWell(d, root, global, before, classes);
      } else {
        assert classes == before;
      }
    }

    /** One spacing: every size from si down to above one. */
    method LayOutRow(sp: real, si: real, j: real, ghost acc: seq<Component>)
      requires j > 0.0 && repeatedWire.elems == acc + [Blank]
      modifies this`global, this`repeaterSpacing, this`repeaterSize, repeatedWire
      ensures repeatedWire.elems == acc + Row(d, j, si) + [Blank]
      ensures global == if j == sp && si > 1.0 then WireModel(d, j * MICRON, si) else old(global)
    {
      hide WireModel;
      assert acc + [] + [Blank] == acc + [Blank];
      ghost var done: seq<Component> := [];
      var i := si;
      while i > 1.0
        invariant i <= si && (i < si ==> si > 1.0) && repeatedWire.elems == acc + done + [Blank]
        invariant done + Row(d, j, i) == Row(d, j, si)
        invariant global == if j == sp && i < si then WireModel(d, j * MICRON, si) else old(global)
        decreases i
      {
        var c := Candidate(j * MICRON, i);
        repeaterSpacing, repeaterSize := j * MICRON, i;
        if j == sp && i == si {
          global := c;
        }
        repeatedWire.SetBack(c);
        repeatedWire.PushBack(Blank);
        assert done + ([c] + Row(d, j, i - 1.0)) == done + [c] + Row(d, j, i - 1.0);
        done := done + [c];
        i := i - 1.0;
      }
      assert done + [] == done;
    }

    method LayOutCandidates()
      requires Valid() && repeatedWire.elems == []
      requires repeaterSpacing == OptimalSpacing(d, root) && repeaterSize == OptimalSize(d, root)
      modifies this`global, this`repeaterSpacing, this`repeaterSize, repeatedWire
      ensures repeatedWire.elems == Grid(d, root)
      ensures global == if Grid(d, root) == [] then old(global) else Grid(d, root)[0]
    {
      hide WireModel;
      hide Row;
      hide OptimalSpacing;
      hide OptimalSize;
      RootsPositive(d, root);
      GridStart(d, root);
      var si, sp := repeaterSize, repeaterSpacing * MICRONS_PER_METRE;
      ghost var acc: seq<Component> := [];
      assert sp * MICRON == OptimalSpacing(d, root);
      repeatedWire.PushBack(Blank);
      var j := sp;
      while j < 4.0 * sp
        invariant j >= sp && repeatedWire.elems == acc + [Blank] && acc + GridFrom(d, sp, si, j) == Grid(d, root)
        invariant global == if j == sp || si <= 1.0 then old(global) else WireModel(d, sp * MICRON, si)
        decreases 4.0 * sp - j
      {
        LayOutRow(sp, si, j, acc);
        ghost var rest := GridFrom(d, sp, si, j + 100.0);
        assert acc + (Row(d, j, si) + rest) == acc + Row(d, j, si) + rest;
        acc := acc + Row(d, j, si);
        j := j + 100.0;
      }
      assert acc + [] == acc;
      repeatedWire.PopBack();
    }

    function ClassIndex(wt: WireType): nat {
      match wt
      case Global => 0
      case Global5 => 0
      case Global10 => 1
      case Global20 => 2
      case Global30 => 3
    }

    /** The figures of one metre of a wire type. */
    ghost function PerMetre(wt: WireType): Component
      requires Valid()
      reads this`classes
    {
      if wt == Global then
        var s, k := OptimalSpacing(d, root), OptimalSize(d, root);
        Repeated(Delay(d, d.inCap, 1.0, s, k), Dynamic(d, d.inCap, 1.0, s, k), Leakage(d, 1.0, s, k), s, k)
      else classes[ClassIndex(wt)]
    }

    /**
     Figures of a full-swing wire: proportional to its length, with spacing and size independent of it; its area is
     that of one repeater for every spacing.
     */
    method CalculateWireStats(wt: WireType, len: real)
      requires Valid() && len > 0.0
      requires wt != Global ==> classes[ClassIndex(wt)].Repeated? && classes[ClassIndex(wt)].spacing > 0.0
      modifies this`repeaterSpacing, this`repeaterSize, this`delay, this`dyn, this`leak, this`area
      ensures delay == len * PerMetre(wt).delay && dyn == len * PerMetre(wt).dyn && leak == len * PerMetre(wt).leak
      ensures repeaterSpacing == PerMetre(wt).spacing && repeaterSize == PerMetre(wt).size
      ensures area == len * AreaPerMetre(repeaterSpacing, gateArea(repeaterSize))
      ensures OptimalSize(d, root) > 1.0 && WellChosen(d, root, global, classes) ==>
                && (wt == Global5 ==> CheapestWithin(d, root, 5.0, len, delay, dyn, leak))
                && (wt == Global10 ==> CheapestWithin(d, root, 10.0, len, delay, dyn, leak))
                && (wt == Global20 ==> CheapestWithin(d, root, 20.0, len, delay, dyn, leak))
                && (wt == Global30 ==> CheapestWithin(d, root, 30.0, len, delay, dyn, leak))
    {
      hide Delay;
      hide Dynamic;
      hide Leakage;
      hide RepeaterArea;
      hide AreaPerMetre;
      hide WellChosen;
      hide OptimalSize;
      hide OptimalSpacing;
      DelayOptimalWire(len);
      LengthLinear(d, d.inCap, len, repeaterSpacing, repeaterSize);
      if wt != Global {
        match wt {
          case Global5 => UseClass(0, 5.0, len);
          case Global10 => UseClass(1, 10.0, len);
          case Global20 => UseClass(2, 20.0, len);
          case Global30 => UseClass(3, 30.0, len);
          case Global =>
        }
      }
    }

    /** Takes the figures of class i. */
    method UseClass(i: nat, ghost percent: real, len: real)
      requires Valid() && len > 0.0 && i < 4 && classes[i].Repeated? && classes[i].spacing > 0.0
      modifies this`repeaterSpacing, this`repeaterSize, this`delay, this`dyn, this`leak, this`area
      ensures delay == len * classes[i].delay && dyn == len * classes[i].dyn && leak == len * classes[i].leak
      ensures repeaterSpacing == classes[i].spacing && repeaterSize == classes[i].size
      ensures area == len * AreaPerMetre(repeaterSpacing, gateArea(repeaterSize))
      ensures OptimalSize(d, root) > 1.0 && WellChosen(d, root, global, classes) && PercentOf(i, percent) ==>
                CheapestWithin(d, root, percent, len, delay, dyn, leak)
    {
      hide RepeaterArea;
      hide AreaPerMetre;
      hide WellChosen;
      hide Grid;
      hide CheapestCandidate;
      var c := classes[i];
      delay, dyn, leak := c.delay * len, c.dyn * len, c.leak * len;
      repeaterSpacing, repeaterSize := c.spacing, c.size;
      area := RepeaterArea(len, repeaterSpacing, gateArea(repeaterSize));
      AreaLinear(len, repeaterSpacing, gateArea(repeaterSize));
      assert Spans(c, len, delay, dyn, leak);
      if OptimalSize(d, root) > 1.0 && WellChosen(d, root, global, classes) && PercentOf(i, percent) {
        ClassMeansPercent(d, root, global, classes, i, percent);
        WithinFrom(d, root, percent, len, delay, dyn, leak, c);
      }
    }
  }

  /** Class i lies on the grid, within its allowance, at no more than any candidate that does. */
  ghost predicate ClassChosen(d: Device, root: real -> real, i: nat, c: Component)
    requires Rooted(d, root) && i < 4
  {
    && c in Grid(d, root) && c.Repeated? && AllRepeated(Grid(d, root)) && Assigned(Grid(d, root)[0])
    && c.delay <= Threshold(Grid(d, root)[0], i)
    && RelativeCost(c, Grid(d, root)[0]) <= 2.0
    && (forall x :: x in Grid(d, root) && x.delay <= Threshold(Grid(d, root)[0], i) ==>
                      RelativeCost(c, Grid(d, root)[0]) <= RelativeCost(x, Grid(d, root)[0]))
  }

  /** The outcome of initialization: the delay optimum recorded, four classes chosen, looser ones no dearer. */
  ghost predicate WellChosen(d: Device, root: real -> real, g: Component, classes: seq<Component>)
    requires Rooted(d, root) && OptimalSize(d, root) > 1.0
  {
    && |classes| == 4 && g == WireModel(d, OptimalSpacing(d, root), OptimalSize(d, root)) && Assigned(g)
    && (forall i :: 0 <= i < 4 ==> ClassChosen(d, root, i, classes[i]))
    && (forall i :: 0 <= i < 3 ==> RelativeCost(classes[i + 1], g) <= RelativeCost(classes[i], g))
  }

  function Slowed(g: Component, percent: real): real
    requires g.Repeated?
  {
    g.delay * (1.0 + percent / 100.0)
  }

  /** Energy and leakage together, each in terms of the other's unit of g. */
  function Together(dyn: real, leak: real, g: Component): real
    requires g.Repeated?
  {
    dyn * g.leak + leak * g.dyn
  }

  /**
   Figures of a wire of this length made of a candidate: at most percent slower than the first candidate, and of all
   candidates within that bound the least in energy and leakage together, each relative to the first candidate's.
   */
  ghost predicate CheapestWithin(d: Device, root: real -> real, percent: real, len: real,
                                 delay: real, dyn: real, leak: real)
    requires Rooted(d, root)
  {
    && Grid(d, root) != [] && AllRepeated(Grid(d, root))
    && exists c :: CheapestCandidate(Grid(d, root), percent, c) && Spans(c, len, delay, dyn, leak)
  }

  /** The figures of c over a length. */
  ghost predicate Spans(c: Component, len: real, delay: real, dyn: real, leak: real) {
    c.Repeated? && delay == len * c.delay && dyn == len * c.dyn && leak == len * c.leak
  }

  ghost predicate CheapestCandidate(grid: seq<Component>, percent: real, c: Component) {
    && c in grid && c.Repeated? && grid[0].Repeated? && c.delay <= Slowed(grid[0], percent)
    && forall x :: x in grid && x.Repeated? && x.delay <= Slowed(grid[0], percent) ==>
                     Together(c.dyn, c.leak, grid[0]) <= Together(x.dyn, x.leak, grid[0])
  }

  /** So the wire keeps its bound and no candidate within it would cost less over the same length. */
  lemma WireWithin(d: Device, root: real -> real, percent: real, len: real, delay: real, dyn: real, leak: real,
                   x: Component)
    requires Rooted(d, root) && len > 0.0 && CheapestWithin(d, root, percent, len, delay, dyn, leak)
    ensures Grid(d, root) != [] && Grid(d, root)[0].Repeated?
    ensures var g := Grid(d, root)[0];
            && delay <= len * (g.delay * (1.0 + percent / 100.0))
            && (x in Grid(d, root) && x.Repeated? && x.delay <= g.delay * (1.0 + percent / 100.0) ==>
                  dyn * g.leak + leak * g.dyn <= len * (x.dyn * g.leak + x.leak * g.dyn))
  {
    hide Grid;
    var g := Grid(d, root)[0];
    var c :| CheapestCandidate(Grid(d, root), percent, c) && Spans(c, len, delay, dyn, leak);
    ScaledBound(len, c.delay, Slowed(g, percent));
    if x in Grid(d, root) && x.Repeated? && x.delay <= Slowed(g, percent) {
      ScaledBound(len, Together(c.dyn, c.leak, g), Together(x.dyn, x.leak, g));
      ScaledTogether(len, c.dyn, c.leak, g);
    }
  }

  lemma WithinFrom(d: Device, root: real -> real, percent: real, len: real, delay: real, dyn: real, leak: real,
                   c: Component)
    requires Rooted(d, root) && AllRepeated(Grid(d, root)) && CheapestCandidate(Grid(d, root), percent, c)
    requires Spans(c, len, delay, dyn, leak)
    ensures CheapestWithin(d, root, percent, len, delay, dyn, leak)
  {
    hide Grid;
    hide Spans;
    assert c in Grid(d, root);
  }

  lemma ScaledTogether(len: real, dyn: real, leak: real, g: Component)
    requires g.Repeated?
    ensures Together(len * dyn, len * leak, g) == len * Together(dyn, leak, g)
  {
    assert len * dyn * g.leak == len * (dyn * g.leak) && len * leak * g.dyn == len * (leak * g.dyn);
  }

  /** Relative costs compared without dividing. */
  lemma RelativeOrder(c: Component, x: Component, g: Component)
    requires Assigned(g) && c.Repeated? && x.Repeated?
    ensures RelativeCost(c, g) <= RelativeCost(x, g)
       <==> Together(c.dyn, c.leak, g) <= Together(x.dyn, x.leak, g)
  {
    hide RelativeCost;
    ProductPositive(g.dyn, g.leak);
    CostTimes(c, g);
    CostTimes(x, g);
    var p, q, u := RelativeCost(c, g), RelativeCost(x, g), g.dyn * g.leak;
    ScaledSign(u, q - p);
    assert u * (q - p) == q * u - p * u;
  }

  lemma CostTimes(c: Component, g: Component)
    requires Assigned(g) && c.Repeated?
    ensures RelativeCost(c, g) * (g.dyn * g.leak) == Together(c.dyn, c.leak, g)
  {
    var p, q := c.dyn / g.dyn, c.leak / g.leak;
    assert p * g.dyn == c.dyn && q * g.leak == c.leak;
    assert p * (g.dyn * g.leak) == p * g.dyn * g.leak;
    assert q * (g.dyn * g.leak) == q * g.leak * g.dyn;
  }

  lemma ScaledBound(len: real, x: real, y: real)
    requires len > 0.0 && x <= y
    ensures len * x <= len * y
  {
    ScaledNonNegative(y - x, len);
    assert (y - x) * len == len * y - len * x;
  }

  lemma ThresholdPercent(g: Component)
    requires Assigned(g)
    ensures Threshold(g, 0) == Slowed(g, 5.0) && Threshold(g, 1) == Slowed(g, 10.0)
    ensures Threshold(g, 2) == Slowed(g, 20.0) && Threshold(g, 3) == Slowed(g, 30.0)
  {
  }

  lemma ClassMeans(d: Device, root: real -> real, i: nat, percent: real, c: Component)
    requires Rooted(d, root) && i < 4 && Grid(d, root) != [] && ClassChosen(d, root, i, c)
    requires Threshold(Grid(d, root)[0], i) == Slowed(Grid(d, root)[0], percent)
    ensures CheapestCandidate(Grid(d, root), percent, c)
  {
    hide Grid;
    hide Threshold;
    hide RelativeCost;
    hide Slowed;
    hide Together;
    var g := Grid(d, root)[0];
    forall x | x in Grid(d, root) && x.Repeated? && x.delay <= Slowed(g, percent)
      ensures Together(c.dyn, c.leak, g) <= Together(x.dyn, x.leak, g)
    {
      RelativeOrder(c, x, g);
    }
  }

  /** The percentage of class i. */
  predicate PercentOf(i: nat, percent: real) {
    || (i == 0 && percent == 5.0) || (i == 1 && percent == 10.0)
    || (i == 2 && percent == 20.0) || (i == 3 && percent == 30.0)
  }

  lemma ChosenAt(d: Device, root: real -> real, g: Component, classes: seq<Component>, i: nat)
    requires Rooted(d, root) && OptimalSize(d, root) > 1.0 && WellChosen(d, root, g, classes) && i < 4
    ensures |classes| == 4 && ClassChosen(d, root, i, classes[i])
    ensures Grid(d, root) != [] && Assigned(Grid(d, root)[0])
  {
    GridStart(d, root);
    var c := classes[i];
    assert ClassChosen(d, root, i, c);
  }

  lemma ClassMeansPercent(d: Device, root: real -> real, g: Component, classes: seq<Component>, i: nat, percent: real)
    requires Rooted(d, root) && OptimalSize(d, root) > 1.0 && WellChosen(d, root, g, classes) && PercentOf(i, percent)
    ensures |classes| == 4 && AllRepeated(Grid(d, root)) && CheapestCandidate(Grid(d, root), percent, classes[i])
  {
    hide WellChosen;
    ChosenAt(d, root, g, classes, i);
    ThresholdPercent(Grid(d, root)[0]);
    ClassMeans(d, root, i, percent, classes[i]);
  }

  lemma ChosenWell(d: Device, root: real -> real, g: Component, before: seq<Component>, classes: seq<Component>)
    requires Rooted(d, root) && OptimalSize(d, root) > 1.0 && |before| == |classes| == 4
    requires AllRepeated(Grid(d, root)) && Grid(d, root) != [] && g == Grid(d, root)[0] && Assigned(g)
    requires forall i :: 0 <= i < 4 ==> IsClass(Grid(d, root), g, i, before[i], classes[i])
    ensures WellChosen(d, root, g, classes)
  {
    hide Grid;
    hide IsClass;
    hide Threshold;
    hide RelativeCost;
    hide WireModel;
    GridStart(d, root);
    forall i | 0 <= i < 4 ensures ClassChosen(d, root, i, classes[i]) {
      ClassAssigned(Grid(d, root), g, i, before[i], classes[i]);
    }
    forall i | 0 <= i < 3 ensures RelativeCost(classes[i + 1], g) <= RelativeCost(classes[i], g) {
      LooserIsCheaper(Grid(d, root), g, i, i + 1, classes[i], classes[i + 1], before[i], before[i + 1]);
    }
  }

  lemma ModelAssigned(d: Device, spacing: real, size: real)
    requires d.Positive() && spacing > 0.0 && size > 0.0
    ensures Assigned(WireModel(d, spacing, size))
  {
  }

  lemma {:induction false} RowRepeated(d: Device, j: real, i: real)
    requires j > 0.0
    ensures AllRepeated(Row(d, j, i))
    decreases i
  {
    if i > 1.0 {
      RowRepeated(d, j, i - 1.0);
    }
  }

  lemma {:induction false} GridFromRepeated(d: Device, sp: real, si: real, j: real)
    requires j > 0.0
    ensures AllRepeated(GridFrom(d, sp, si, j))
    decreases 4.0 * sp - j
  {
    if j < 4.0 * sp {
      RowRepeated(d, j, si);
      GridFromRepeated(d, sp, si, j + 100.0);
    }
  }

  lemma GridRepeated(d: Device, root: real -> real)
    requires Rooted(d, root)
    ensures AllRepeated(Grid(d, root)) && (Grid(d, root) != [] ==> Assigned(Grid(d, root)[0]))
  {
    hide WireModel;
    hide OptimalSpacing;
    hide OptimalSize;
    RootsPositive(d, root);
    GridStart(d, root);
    var sp := OptimalSpacing(d, root) * MICRONS_PER_METRE;
    GridFromRepeated(d, sp, OptimalSize(d, root), sp);
    ModelAssigned(d, OptimalSpacing(d, root), OptimalSize(d, root));
  }

  /** The pass for class i over what the pass for class i + 1 left. */
  lemma NextClass(s: seq<Component>, g: Component, i: nat, before: Component, after: Component)
    requires AllRepeated(s) && s != [] && Assigned(g) && i < 3
    requires IsClass(InClass(s, g, i + 1), g, i, before, after)
    ensures IsClass(s, g, i, before, after)
    ensures InClass(InClass(s, g, i + 1), g, i) == InClass(s, g, i)
  {
    hide Threshold;
    hide IsClass;
    ThresholdsOrdered(g, i, i + 1);
    CascadeClass(s, g, i + 1, i, before, after);
    FilteredTwice(s, Threshold(g, i + 1), Threshold(g, i));
  }

  function InClass(s: seq<Component>, g: Component, i: nat): (r: seq<Component>)
    requires AllRepeated(s) && Assigned(g) && i < 4
    ensures AllRepeated(r)
  {
    FastEnough(s, Threshold(g, i))
  }

  lemma FastEnoughNone(t: real)
    ensures FastEnough([], t) == []
  {
  }

  /** Cursor p: in front of it the survivors of the first k candidates, behind it the rest. */
  ghost predicate Passing(s: seq<Component>, k: nat, t: real, elems: seq<Component>, p: nat) {
    k <= |s| && AllRepeated(s) && p <= |elems| && elems[..p] == FastEnough(s[..k], t) && elems[p..] == s[k..]
  }

  lemma PassingAt(s: seq<Component>, k: nat, t: real, elems: seq<Component>, p: nat)
    requires Passing(s, k, t, elems, p) && p < |elems|
    ensures k < |s| && elems[p] == s[k]
  {
    assert elems[p..][0] == elems[p];
  }

  lemma PassingKeep(s: seq<Component>, k: nat, t: real, elems: seq<Component>, p: nat)
    requires Passing(s, k, t, elems, p) && p < |elems| && k < |s| && elems[p] == s[k] && s[k].delay <= t
    ensures Passing(s, k + 1, t, elems, p + 1)
  {
    hide FastEnough;
    assert s[..k + 1] == s[..k] + [s[k]];
    FastEnoughSnoc(s[..k], s[k], t);
    assert elems[p + 1..] == elems[p..][1..];
    assert s[k + 1..] == s[k..][1..];
  }

  lemma PassingErase(s: seq<Component>, k: nat, t: real, elems: seq<Component>, p: nat)
    requires Passing(s, k, t, elems, p) && p < |elems| && k < |s| && elems[p] == s[k] && s[k].delay > t
    ensures Passing(s, k + 1, t, elems[..p] + elems[p + 1..], p)
  {
    hide FastEnough;
    assert s[..k + 1] == s[..k] + [s[k]];
    FastEnoughSnoc(s[..k], s[k], t);
    assert elems[p + 1..] == elems[p..][1..];
    assert s[k + 1..] == s[k..][1..];
  }

  lemma PassingDone(s: seq<Component>, k: nat, t: real, elems: seq<Component>, p: nat)
    requires Passing(s, k, t, elems, p) && p == |elems|
    ensures k == |s| && elems == FastEnough(s, t) && s[..k] == s
  {
    assert elems[p..] == [];
    assert s[..k] == s;
    assert elems[..p] == elems;
  }

  lemma BestSnoc(s: seq<Component>, k: nat, t: real, g: Component, r: int)
    requires Assigned(g) && AllRepeated(s) && k < |s| && IsFirstBest(WireScores(s[..k], t, g), r)
    ensures var x := WireScore(s[k], t, g);
            var bound := if r == -1 then BIGNUM else RelativeCost(s[r], g);
            IsFirstBest(WireScores(s[..k + 1], t, g), if x.Cost? && x.c < bound then k else r)
  {
    hide RelativeCost;
    assert s[..k + 1] == s[..k] + [s[k]];
    ScoresSnoc(s[..k], s[k], t, g);
    FirstBestExtend(WireScores(s[..k], t, g), WireScore(s[k], t, g), r);
    if r != -1 {
      assert WireScores(s[..k], t, g)[r] == WireScore(s[r], t, g);
    }
  }
}
