/**
 H-trees: from the root, horizontal links halve and vertical links halve, with a gate at every node of a tree inside
 a bank.  Wires are full-swing, so every figure of a link is proportional to its length.
 */
module Htree {
  import opened BasicCircuit
  import opened Sequences

  /** Figures of one metre of wire, and its repeaters. */
  datatype WireRate = WireRate(delay: real, dyn: real, leak: real, spacing: real, size: real)

  /** What one gate adds. */
  datatype Gate = Gate(delay: real, dyn: real, leak: real)

  // ----- halving lengths -----

  function Halve(x: real, k: nat): real {
    if k == 0 then x else Halve(x, k - 1) / 2.0
  }

  /** x + x/2 + ... , k terms. */
  function Span(x: real, k: nat): real {
    if k == 0 then 0.0 else Span(x, k - 1) + Halve(x, k - 1)
  }

  /** The sum of k halvings is twice the start short of twice what is left. */
  lemma {:induction false} SpanClosed(x: real, k: nat)
    ensures Span(x, k) == 2.0 * (x - Halve(x, k))
  {
    if k > 0 {
      SpanClosed(x, k - 1);
    }
  }

  /** What is left after k halvings is x over 2^k. */
  lemma {:induction false} HalveClosed(x: real, k: nat)
    ensures Pow2(k) as real * Halve(x, k) == x
  {
    if k > 0 {
      HalveClosed(x, k - 1);
      assert Pow2(k) as real == 2.0 * Pow2(k - 1) as real;
      var p, y := Pow2(k - 1) as real, Halve(x, k - 1);
      assert 2.0 * p * (y / 2.0) == p * y;
    }
  }

  lemma {:induction false} HalveTwice(x: real, j: nat, k: nat)
    ensures Halve(x, j + k) == Halve(Halve(x, j), k)
  {
    if k > 0 {
      HalveTwice(x, j, k - 1);
    }
  }

  /** A doubled width over a halved link carries what one undivided link would. */
  lemma WidthTimesLength(init: nat, x: real, e: nat, k: nat)
    ensures (init * Pow2(k)) as real * Halve(x, e + k) == init as real * Halve(x, e)
  {
    HalveTwice(x, e, k);
    HalveClosed(Halve(x, e), k);
    var i, p, y := init as real, Pow2(k) as real, Halve(Halve(x, e), k);
    ProductAsReal(init, Pow2(k));
    assert i * p * y == i * (p * y);
  }

  function MinNat(a: nat, b: nat): nat { if a < b then a else b }

  // ----- what a descent adds up -----

  function GateDelays(s: seq<Gate>): real {
    if s == [] then 0.0 else GateDelays(s[..|s| - 1]) + s[|s| - 1].delay
  }

  function GateDyns(s: seq<Gate>): real {
    if s == [] then 0.0 else GateDyns(s[..|s| - 1]) + s[|s| - 1].dyn
  }

  function GateLeaks(s: seq<Gate>): real {
    if s == [] then 0.0 else GateLeaks(s[..|s| - 1]) + s[|s| - 1].leak
  }

  lemma GatesSnoc(s: seq<Gate>, g: Gate)
    ensures GateDelays(s + [g]) == GateDelays(s) + g.delay
    ensures GateDyns(s + [g]) == GateDyns(s) + g.dyn
    ensures GateLeaks(s + [g]) == GateLeaks(s) + g.leak
  {
    assert (s + [g])[..|s|] == s;
  }

  /** Length of wire along one path after a horizontal and b vertical links. */
  function PathLength(len: real, ht: real, a: nat, b: nat): real {
    Span(len, a) + Span(ht, b)
  }

  /** Horizontal links that come first, alone, when there are more of them. */
  function Excess(h: nat, v: nat): nat {
    if h > v then h - v else 0
  }

  /**
   Bits times length that leak after a horizontal and b vertical links.  A vertical link taken together with a
   horizontal one is counted twice.
   */
  function LeakLength(uca: bool, len: real, ht: real, h: nat, v: nat, a: nat, b: nat): real {
    var m, e := MinNat(b, MinNat(h, v)), Excess(h, v);
    if uca then Span(len, a) + Span(ht, b) + Span(ht, m)
    else Span(len, MinNat(a, e)) + m as real * Halve(len, e) + (b + m) as real * ht
  }

  /** The order of descent: excess horizontal links, then pairs, then the remaining vertical links. */
  ghost predicate OnPath(h: nat, v: nat, a: nat, b: nat) {
    && a <= h && b <= v
    && (if b == 0 then a <= Excess(h, v) else a == Excess(h, v) + MinNat(b, MinNat(h, v)))
  }

  lemma PathShape(h: nat, v: nat, a: nat, b: nat)
    requires OnPath(h, v, a, b)
    ensures h - a > v - b ==> b == 0 && a < Excess(h, v) && OnPath(h, v, a + 1, b)
    ensures h - a <= v - b && h - a > 0 ==>
              v - b > 0 && b < MinNat(h, v) && a == Excess(h, v) + b && OnPath(h, v, a + 1, b + 1)
    ensures h - a <= v - b && h - a == 0 && v - b > 0 ==> a == h && b >= MinNat(h, v) && OnPath(h, v, a, b + 1)
    ensures h - a == 0 && v - b == 0 ==> a == h && b == v
  {
  }

  /** The running figures of a descent. */
  datatype Figures = Figures(delay: real, dyn: real, leak: real, wireBw: nat)
  {
    /** One link of the given length at the present width. */
    function Link(rate: WireRate, length: real): Figures {
      Figures(delay + rate.delay * length, dyn + rate.dyn * length, leak + rate.leak * length * wireBw as real, wireBw)
    }

    /** The second count of a vertical link's leakage. */
    function LeakAgain(rate: WireRate, length: real): Figures {
      this.(leak := leak + rate.leak * length * wireBw as real)
    }

    function Doubled(): Figures {
      this.(wireBw := wireBw * 2)
    }

    function Node(g: Gate): Figures {
      Figures(delay + g.delay, dyn + g.dyn, leak + g.leak, wireBw)
    }
  }

  datatype Tree = Tree(uca: bool, rate: WireRate, initBw: nat, len: real, ht: real, h: nat, v: nat)

  /** Width of the links below b vertical nodes. */
  function Width(t: Tree, b: nat): nat {
    if t.uca then t.initBw else t.initBw * Pow2(b)
  }

  function Leaking(t: Tree, a: nat, b: nat): real {
    t.rate.leak * (t.initBw as real * LeakLength(t.uca, t.len, t.ht, t.h, t.v, a, b))
  }

  function PathDelay(t: Tree, a: nat, b: nat): real {
    t.rate.delay * PathLength(t.len, t.ht, a, b)
  }

  function PathDyn(t: Tree, a: nat, b: nat): real {
    t.rate.dyn * PathLength(t.len, t.ht, a, b)
  }

  /** The figures after a horizontal and b vertical links and the gates passed. */
  ghost predicate Totalled(t: Tree, a: nat, b: nat, gates: seq<Gate>, f: Figures) {
    && |gates| == (if t.uca then 0 else a + b)
    && f.wireBw == Width(t, b)
    && f.delay == PathDelay(t, a, b) + GateDelays(gates)
    && f.dyn == PathDyn(t, a, b) + GateDyns(gates)
    && f.leak == Leaking(t, a, b) + GateLeaks(gates)
  }

  lemma LinkSum(r: real, x: real, y: real)
    ensures r * (x + y) == r * x + r * y
  {
  }

  lemma LeakSum(r: real, i: real, x: real, len: real, w: real, y: real)
    requires w * len == i * y
    ensures r * (i * x) + r * len * w == r * (i * (x + y))
  {
    assert r * len * w == r * (w * len);
    LinkSum(i, x, y);
    LinkSum(r, i * x, i * y);
  }

  /** Leakage of a link of the given length that extends the leaking length by y. */
  lemma LinkLeaks(t: Tree, a: nat, b: nat, a2: nat, b2: nat, f: Figures, length: real, y: real, rest: real)
    requires f.wireBw == Width(t, b) && f.leak == Leaking(t, a, b) + rest
    requires Width(t, b) as real * length == t.initBw as real * y
    requires LeakLength(t.uca, t.len, t.ht, t.h, t.v, a2, b2) == LeakLength(t.uca, t.len, t.ht, t.h, t.v, a, b) + y
    ensures f.leak + t.rate.leak * length * f.wireBw as real == Leaking(t, a2, b2) + rest
  {
    hide LeakLength;
    LeakSum(t.rate.leak, t.initBw as real, LeakLength(t.uca, t.len, t.ht, t.h, t.v, a, b), length,
            Width(t, b) as real, y);
  }

  /** A link in either direction extends the path by its length. */
  lemma PathNext(t: Tree, a: nat, b: nat)
    ensures PathDelay(t, a + 1, b)
         == PathDelay(t, a, b) + t.rate.delay * Halve(t.len, a)
    ensures PathDyn(t, a + 1, b)
         == PathDyn(t, a, b) + t.rate.dyn * Halve(t.len, a)
    ensures PathDelay(t, a, b + 1)
         == PathDelay(t, a, b) + t.rate.delay * Halve(t.ht, b)
    ensures PathDyn(t, a, b + 1)
         == PathDyn(t, a, b) + t.rate.dyn * Halve(t.ht, b)
  {
    LinkSum(t.rate.delay, PathLength(t.len, t.ht, a, b), Halve(t.len, a));
    LinkSum(t.rate.dyn, PathLength(t.len, t.ht, a, b), Halve(t.len, a));
    LinkSum(t.rate.delay, PathLength(t.len, t.ht, a, b), Halve(t.ht, b));
    LinkSum(t.rate.dyn, PathLength(t.len, t.ht, a, b), Halve(t.ht, b));
  }

  lemma WidthNext(t: Tree, b: nat)
    ensures Width(t, 0) == t.initBw
    ensures Width(t, b + 1) == if t.uca then Width(t, b) else Width(t, b) * 2
  {
    assert Pow2(0) == 1;
    if !t.uca {
      assert t.initBw * Pow2(b + 1) == t.initBw * Pow2(b) * 2;
    }
  }

  lemma LeakHorizontal(t: Tree, a: nat)
    requires a < Excess(t.h, t.v)
    ensures LeakLength(t.uca, t.len, t.ht, t.h, t.v, a + 1, 0)
         == LeakLength(t.uca, t.len, t.ht, t.h, t.v, a, 0) + Halve(t.len, a)
  {
  }

  /** First level of an iteration. */
  function FirstOf(t: Tree, f: Figures, length: real, option: int, g: Gate): Figures {
    var f1 := f.Link(t.rate, length);
    if t.uca then f1 else if option == 2 then f1.Doubled().Node(g) else f1.Node(g)
  }

  /** Second level, of a pair. */
  function SecondOf(t: Tree, f: Figures, length: real, g: Gate): Figures {
    var f1 := f.Link(t.rate, length).LeakAgain(t.rate, length);
    if t.uca then f1 else f1.Doubled().Node(g)
  }

  function AfterOne(t: Tree, gates: seq<Gate>, g: Gate): seq<Gate> {
    if t.uca then gates else gates + [g]
  }

  lemma FirstFigures(t: Tree, f: Figures, length: real, option: int, gates: seq<Gate>, g: Gate)
    ensures var f1, after := FirstOf(t, f, length, option, g), AfterOne(t, gates, g);
            && |after| == |gates| + (if t.uca then 0 else 1)
            && f1.wireBw == f.wireBw * (if t.uca || option != 2 then 1 else 2)
            && f1.delay - GateDelays(after) == f.delay - GateDelays(gates) + t.rate.delay * length
            && f1.dyn - GateDyns(after) == f.dyn - GateDyns(gates) + t.rate.dyn * length
            && f1.leak - GateLeaks(after) == f.leak - GateLeaks(gates) + t.rate.leak * length * f.wireBw as real
  {
    GatesSnoc(gates, g);
  }

  lemma LinkTotals(t: Tree, a: nat, b: nat, a2: nat, b2: nat, length: real, option: int,
                   gates: seq<Gate>, f: Figures, g: Gate)
    requires Totalled(t, a, b, gates, f) && a2 + b2 == a + b + 1
    requires Width(t, b2) == Width(t, b) * (if t.uca || option != 2 then 1 else 2)
    requires PathDelay(t, a2, b2) == PathDelay(t, a, b) + t.rate.delay * length
    requires PathDyn(t, a2, b2) == PathDyn(t, a, b) + t.rate.dyn * length
    requires f.leak + t.rate.leak * length * f.wireBw as real == Leaking(t, a2, b2) + GateLeaks(gates)
    ensures Totalled(t, a2, b2, AfterOne(t, gates, g), FirstOf(t, f, length, option, g))
  {
    hide FirstOf;
    hide AfterOne;
    FirstFigures(t, f, length, option, gates, g);
  }

  lemma HorizontalLeaks(t: Tree, a: nat, f: Figures, rest: real)
    requires a < Excess(t.h, t.v) && f.wireBw == Width(t, 0) && f.leak == Leaking(t, a, 0) + rest
    ensures f.leak + t.rate.leak * Halve(t.len, a) * f.wireBw as real == Leaking(t, a + 1, 0) + rest
  {
    LeakHorizontal(t, a);
    WidthNext(t, 0);
    hide Width;
    hide LeakLength;
    hide Halve;
    LinkLeaks(t, a, 0, a + 1, 0, f, Halve(t.len, a), Halve(t.len, a), rest);
  }

  lemma TotalledParts(t: Tree, a: nat, b: nat, gates: seq<Gate>, f: Figures)
    requires Totalled(t, a, b, gates, f)
    ensures f.wireBw == Width(t, b) && f.leak == Leaking(t, a, b) + GateLeaks(gates)
  {
  }

  lemma StepHorizontal(t: Tree, a: nat, b: nat, gates: seq<Gate>, f: Figures, g: Gate)
    requires OnPath(t.h, t.v, a, b) && t.h - a > t.v - b && Totalled(t, a, b, gates, f)
    ensures Totalled(t, a + 1, b, AfterOne(t, gates, g), FirstOf(t, f, Halve(t.len, a), 0, g))
  {
    hide Totalled;
    PathShape(t.h, t.v, a, b);
    PathNext(t, a, b);
    TotalledParts(t, a, b, gates, f);
    HorizontalLeaks(t, a, f, GateLeaks(gates));
    LinkTotals(t, a, b, a + 1, b, Halve(t.len, a), 0, gates, f, g);
  }

  /** What the next vertical link adds to the leaking length: its own inside a tree of constant width, ht otherwise. */
  function VerticalExtent(t: Tree, b: nat): real {
    if t.uca then Halve(t.ht, b) else t.ht
  }

  lemma VerticalWidth(t: Tree, b: nat)
    ensures Width(t, b) as real * Halve(t.ht, b) == t.initBw as real * VerticalExtent(t, b)
  {
    if !t.uca {
      WidthTimesLength(t.initBw, t.ht, 0, b);
    }
  }

  lemma VerticalLeaks(t: Tree, a: nat, b: nat, f: Figures, rest: real)
    requires b >= MinNat(t.h, t.v) && f.wireBw == Width(t, b) && f.leak == Leaking(t, a, b) + rest
    ensures f.leak + t.rate.leak * Halve(t.ht, b) * f.wireBw as real == Leaking(t, a, b + 1) + rest
  {
    LeakVertical(t, a, b);
    VerticalWidth(t, b);
    hide VerticalExtent;
    hide Width;
    hide LeakLength;
    hide Halve;
    LinkLeaks(t, a, b, a, b + 1, f, Halve(t.ht, b), VerticalExtent(t, b), rest);
  }

  lemma StepVertical(t: Tree, a: nat, b: nat, gates: seq<Gate>, f: Figures, g: Gate)
    requires OnPath(t.h, t.v, a, b) && a == t.h && b < t.v && Totalled(t, a, b, gates, f)
    ensures Totalled(t, a, b + 1, AfterOne(t, gates, g), FirstOf(t, f, Halve(t.ht, b), 2, g))
  {
    hide Totalled;
    PathShape(t.h, t.v, a, b);
    PathNext(t, a, b);
    WidthNext(t, b);
    TotalledParts(t, a, b, gates, f);
    VerticalLeaks(t, a, b, f, GateLeaks(gates));
    LinkTotals(t, a, b, a, b + 1, Halve(t.ht, b), 2, gates, f, g);
  }

  lemma LeakVertical(t: Tree, a: nat, b: nat)
    requires b >= MinNat(t.h, t.v)
    ensures LeakLength(t.uca, t.len, t.ht, t.h, t.v, a, b + 1)
         == LeakLength(t.uca, t.len, t.ht, t.h, t.v, a, b) + VerticalExtent(t, b)
  {
    var m := MinNat(t.h, t.v);
    assert (b + 1 + m) as real == (b + m) as real + 1.0;
  }

  /** Leakage proportional to the length x, plus the gates'. */
  ghost predicate Leaks(t: Tree, f: Figures, x: real, gates: real) {
    f.leak == t.rate.leak * (t.initBw as real * x) + gates
  }

  lemma LinkExtends(t: Tree, f: Figures, x: real, gates: real, length: real, y: real)
    requires Leaks(t, f, x, gates) && f.wireBw as real * length == t.initBw as real * y
    ensures Leaks(t, f.Link(t.rate, length), x + y, gates) && Leaks(t, f.LeakAgain(t.rate, length), x + y, gates)
  {
    LeakSum(t.rate.leak, t.initBw as real, x, length, f.wireBw as real, y);
  }

  /** A pair of links extends the leaking length by one horizontal and, counted twice, one vertical link. */
  lemma LeakPair(t: Tree, a: nat, b: nat)
    requires b < MinNat(t.h, t.v) && a == Excess(t.h, t.v) + b
    ensures LeakLength(t.uca, t.len, t.ht, t.h, t.v, a + 1, b + 1)
         == LeakLength(t.uca, t.len, t.ht, t.h, t.v, a, b)
            + (if t.uca then Halve(t.len, a) else Halve(t.len, Excess(t.h, t.v)))
            + VerticalExtent(t, b) + VerticalExtent(t, b)
  {
    if !t.uca {
      assert (b + 1) as real == b as real + 1.0 && (b + 1 + (b + 1)) as real == (b + b) as real + 2.0;
      LinkSum(Halve(t.len, Excess(t.h, t.v)), b as real, 1.0);
      LinkSum(t.ht, (b + b) as real, 2.0);
    }
  }

  lemma PairWidth(t: Tree, a: nat, b: nat)
    requires a == Excess(t.h, t.v) + b
    ensures Width(t, b) as real * Halve(t.len, a)
         == t.initBw as real * (if t.uca then Halve(t.len, a) else Halve(t.len, Excess(t.h, t.v)))
  {
    if !t.uca {
      WidthTimesLength(t.initBw, t.len, Excess(t.h, t.v), b);
    }
  }

  /** What one iteration with a horizontal and a vertical link does. */
  function PairOfLinks(t: Tree, f: Figures, x: real, y: real, g1: Gate, g2: Gate): Figures {
    SecondOf(t, FirstOf(t, f, x, 1, g1), y, g2)
  }

  lemma PairLeaks(t: Tree, a: nat, b: nat, f: Figures, gates: real, g1: Gate, g2: Gate)
    requires b < MinNat(t.h, t.v) && a == Excess(t.h, t.v) + b
    requires f.wireBw == Width(t, b) && Leaks(t, f, LeakLength(t.uca, t.len, t.ht, t.h, t.v, a, b), gates)
    ensures Leaks(t, PairOfLinks(t, f, Halve(t.len, a), Halve(t.ht, b), g1, g2),
                  LeakLength(t.uca, t.len, t.ht, t.h, t.v, a + 1, b + 1),
                  gates + if t.uca then 0.0 else g1.leak + g2.leak)
  {
    hide LeakLength;
    hide Leaks;
    hide Halve;
    hide Width;
    var x, y := Halve(t.len, a), Halve(t.ht, b);
    var u := if t.uca then x else Halve(t.len, Excess(t.h, t.v));
    var w := VerticalExtent(t, b);
    var l := LeakLength(t.uca, t.len, t.ht, t.h, t.v, a, b);
    PairWidth(t, a, b);
    VerticalWidth(t, b);
    LeakPair(t, a, b);
    LinkExtends(t, f, l, gates, x, u);
    var f1 := f.Link(t.rate, x);
    var r1 := gates;
    if !t.uca {
      NodeLeaks(t, f1, l + u, gates, g1);
      f1, r1 := f1.Node(g1), gates + g1.leak;
    }
    LinkExtends(t, f1, l + u, r1, y, w);
    var f2 := f1.Link(t.rate, y);
    LinkExtends(t, f2, l + u + w, r1, y, w);
    var f3 := f2.LeakAgain(t.rate, y);
    if !t.uca {
      NodeLeaks(t, f3, l + u + w + w, r1, g2);
    }
  }

  lemma NodeLeaks(t: Tree, f: Figures, x: real, gates: real, g: Gate)
    requires Leaks(t, f, x, gates)
    ensures Leaks(t, f.Node(g), x, gates + g.leak) && Leaks(t, f.Doubled().Node(g), x, gates + g.leak)
  {
  }

  lemma PairPath(t: Tree, a: nat, b: nat)
    ensures PathDelay(t, a + 1, b + 1)
         == PathDelay(t, a, b) + t.rate.delay * Halve(t.len, a) + t.rate.delay * Halve(t.ht, b)
    ensures PathDyn(t, a + 1, b + 1)
         == PathDyn(t, a, b) + t.rate.dyn * Halve(t.len, a) + t.rate.dyn * Halve(t.ht, b)
  {
    hide Halve;
    PathNext(t, a, b);
    PathNext(t, a + 1, b);
  }

  lemma PairGates(t: Tree, gates: seq<Gate>, g1: Gate, g2: Gate)
    ensures var after := if t.uca then gates else gates + [g1] + [g2];
            && |after| == |gates| + (if t.uca then 0 else 2)
            && GateDelays(after) == GateDelays(gates) + (if t.uca then 0.0 else g1.delay + g2.delay)
            && GateDyns(after) == GateDyns(gates) + (if t.uca then 0.0 else g1.dyn + g2.dyn)
            && GateLeaks(after) == GateLeaks(gates) + (if t.uca then 0.0 else g1.leak + g2.leak)
  {
    GatesSnoc(gates, g1);
    GatesSnoc(gates + [g1], g2);
  }

  lemma PairFigures(t: Tree, f: Figures, x: real, y: real, g1: Gate, g2: Gate)
    ensures var f2 := PairOfLinks(t, f, x, y, g1, g2);
            && f2.delay == f.delay + t.rate.delay * x + t.rate.delay * y + (if t.uca then 0.0 else g1.delay + g2.delay)
            && f2.dyn == f.dyn + t.rate.dyn * x + t.rate.dyn * y + (if t.uca then 0.0 else g1.dyn + g2.dyn)
            && f2.wireBw == f.wireBw * if t.uca then 1 else 2
  {
  }

  function AfterPair(t: Tree, gates: seq<Gate>, g1: Gate, g2: Gate): seq<Gate> {
    if t.uca then gates else gates + [g1] + [g2]
  }

  lemma PairDelay(t: Tree, a: nat, b: nat, gates: seq<Gate>, f: Figures, g1: Gate, g2: Gate)
    requires f.delay == PathDelay(t, a, b) + GateDelays(gates) && f.dyn == PathDyn(t, a, b) + GateDyns(gates)
    ensures var f2 := PairOfLinks(t, f, Halve(t.len, a), Halve(t.ht, b), g1, g2);
            && f2.delay == PathDelay(t, a + 1, b + 1) + GateDelays(AfterPair(t, gates, g1, g2))
            && f2.dyn == PathDyn(t, a + 1, b + 1) + GateDyns(AfterPair(t, gates, g1, g2))
  {
    hide PairOfLinks;
    PairFigures(t, f, Halve(t.len, a), Halve(t.ht, b), g1, g2);
    PairGates(t, gates, g1, g2);
    PairPath(t, a, b);
  }

  lemma PairLeak(t: Tree, a: nat, b: nat, gates: seq<Gate>, f: Figures, g1: Gate, g2: Gate)
    requires b < MinNat(t.h, t.v) && a == Excess(t.h, t.v) + b
    requires f.wireBw == Width(t, b) && f.leak == Leaking(t, a, b) + GateLeaks(gates)
    ensures var f2 := PairOfLinks(t, f, Halve(t.len, a), Halve(t.ht, b), g1, g2);
            && f2.leak == Leaking(t, a + 1, b + 1) + GateLeaks(AfterPair(t, gates, g1, g2))
            && f2.wireBw == Width(t, b + 1)
            && |AfterPair(t, gates, g1, g2)| == |gates| + (if t.uca then 0 else 2)
  {
    hide PairOfLinks;
    hide Width;
    PairLeaks(t, a, b, f, GateLeaks(gates), g1, g2);
    PairFigures(t, f, Halve(t.len, a), Halve(t.ht, b), g1, g2);
    PairGates(t, gates, g1, g2);
    WidthNext(t, b);
  }

  lemma StepPair(t: Tree, a: nat, b: nat, gates: seq<Gate>, f: Figures, g1: Gate, g2: Gate)
    requires OnPath(t.h, t.v, a, b) && 0 < t.h - a <= t.v - b && Totalled(t, a, b, gates, f)
    ensures Totalled(t, a + 1, b + 1, AfterPair(t, gates, g1, g2),
                     SecondOf(t, FirstOf(t, f, Halve(t.len, a), 1, g1), Halve(t.ht, b), g2))
  {
    PathShape(t.h, t.v, a, b);
    PairDelay(t, a, b, gates, f, g1, g2);
    PairLeak(t, a, b, gates, f, g1, g2);
  }

  /** Size of the gate driving a link: a repeater's, or less on a link shorter than one repeater span. */
  function DriverSize(rate: WireRate, lenTemp: real, extent: real): real
    requires rate.spacing > 0.0
  {
    if extent > rate.spacing then rate.size else lenTemp / rate.spacing * rate.size
  }

  function LoadLength(rate: WireRate, length: real, extent: real): real {
    if extent > rate.spacing then rate.spacing else length
  }

  /**
   The gates still to pass with h horizontal and v vertical levels left; lenTemp and htTemp are the lengths of the
   last link of either kind.
   */
  function GatesFrom(t: Tree, gate: (real, real, real, nat) -> Gate, h: nat, v: nat,
                     lenTemp: real, htTemp: real): seq<Gate>
    requires t.rate.spacing > 0.0 && h <= t.h && v <= t.v
    decreases h + v
  {
    var x, y, w := Halve(t.len, t.h - h), Halve(t.ht, t.v - v), Width(t, t.v - v);
    if t.uca || h + v == 0 then []
    else if h > v then
      [gate(DriverSize(t.rate, x, x), DriverSize(t.rate, x, htTemp), LoadLength(t.rate, x, x), w)]
      + GatesFrom(t, gate, h - 1, v, x, htTemp)
    else if h > 0 then
      var s2 := DriverSize(t.rate, x, y);
      [gate(DriverSize(t.rate, x, x), s2, LoadLength(t.rate, x, x), w), gate(s2, s2, LoadLength(t.rate, y, y), w * 2)]
      + GatesFrom(t, gate, h - 1, v - 1, x, y)
    else
      [gate(DriverSize(t.rate, lenTemp, lenTemp), DriverSize(t.rate, lenTemp, y),
            LoadLength(t.rate, lenTemp, lenTemp), w * 2)]
      + GatesFrom(t, gate, h, v - 1, lenTemp, y)
  }

  lemma GatesHorizontal(t: Tree, gate: (real, real, real, nat) -> Gate, h: nat, v: nat, lenTemp: real, htTemp: real,
                        gates: seq<Gate>, g: Gate)
    requires t.rate.spacing > 0.0 && v < h <= t.h && v <= t.v
    requires var x := Halve(t.len, t.h - h);
             !t.uca ==> g == gate(DriverSize(t.rate, x, x), DriverSize(t.rate, x, htTemp),
                                  LoadLength(t.rate, x, x), Width(t, t.v - v))
    ensures AfterOne(t, gates, g) + GatesFrom(t, gate, h - 1, v, Halve(t.len, t.h - h), htTemp)
         == gates + GatesFrom(t, gate, h, v, lenTemp, htTemp)
  {
    hide DriverSize;
    hide LoadLength;
    hide Width;
    AppendAssociates(gates, [g], GatesFrom(t, gate, h - 1, v, Halve(t.len, t.h - h), htTemp));
  }

  lemma GatesPair(t: Tree, gate: (real, real, real, nat) -> Gate, h: nat, v: nat, lenTemp: real, htTemp: real,
                  gates: seq<Gate>, g1: Gate, g2: Gate)
    requires t.rate.spacing > 0.0 && 0 < h <= v <= t.v && h <= t.h
    requires var x, y, w := Halve(t.len, t.h - h), Halve(t.ht, t.v - v), Width(t, t.v - v);
             var s2 := DriverSize(t.rate, x, y);
             !t.uca ==> g1 == gate(DriverSize(t.rate, x, x), s2, LoadLength(t.rate, x, x), w)
                        && g2 == gate(s2, s2, LoadLength(t.rate, y, y), w * 2)
    ensures AfterPair(t, gates, g1, g2) + GatesFrom(t, gate, h - 1, v - 1, Halve(t.len, t.h - h), Halve(t.ht, t.v - v))
         == gates + GatesFrom(t, gate, h, v, lenTemp, htTemp)
  {
    hide DriverSize;
    hide LoadLength;
    hide Width;
    var rest := GatesFrom(t, gate, h - 1, v - 1, Halve(t.len, t.h - h), Halve(t.ht, t.v - v));
    AppendAssociates(gates, [g1, g2], rest);
    assert gates + [g1] + [g2] == gates + [g1, g2];
  }

  lemma GatesVertical(t: Tree, gate: (real, real, real, nat) -> Gate, v: nat, lenTemp: real, htTemp: real,
                      gates: seq<Gate>, g: Gate)
    requires t.rate.spacing > 0.0 && 0 < v <= t.v
    requires var y := Halve(t.ht, t.v - v);
             !t.uca ==> g == gate(DriverSize(t.rate, lenTemp, lenTemp), DriverSize(t.rate, lenTemp, y),
                                  LoadLength(t.rate, lenTemp, lenTemp), Width(t, t.v - v) * 2)
    ensures AfterOne(t, gates, g) + GatesFrom(t, gate, 0, v - 1, lenTemp, Halve(t.ht, t.v - v))
         == gates + GatesFrom(t, gate, 0, v, lenTemp, htTemp)
  {
    hide DriverSize;
    hide LoadLength;
    hide Width;
    AppendAssociates(gates, [g], GatesFrom(t, gate, 0, v - 1, lenTemp, Halve(t.ht, t.v - v)));
  }

  class Htree {
    const t: Tree
    const gate: (real, real, real, nat) -> Gate
    var delay: real
    var dyn: real
    var leak: real
    var wireBw: nat

    constructor (t: Tree, gate: (real, real, real, nat) -> Gate)
      ensures this.t == t && this.gate == gate
      ensures Now() == Figures(0.0, 0.0, 0.0, t.initBw)
    {
      this.t, this.gate := t, gate;
      delay, dyn, leak, wireBw := 0.0, 0.0, 0.0, t.initBw;
    }

    function Now(): Figures
      reads this
    {
      Figures(delay, dyn, leak, wireBw)
    }

    method AddLink(length: real)
      modifies this
      ensures Now() == old(Now()).Link(t.rate, length)
    {
      delay := delay + t.rate.delay * length;
      dyn := dyn + t.rate.dyn * length;
      leak := leak + t.rate.leak * length * wireBw as real;
    }

    /** input_nand or output_buffer. */
    method AddGate(s1: real, s2: real, lEff: real) returns (ghost g: Gate)
      modifies this
      ensures Now() == old(Now()).Node(g) && g == gate(s1, s2, lEff, old(wireBw))
    {
      var added := gate(s1, s2, lEff, wireBw);
      g := added;
      delay := delay + added.delay;
      dyn := dyn + added.dyn;
      leak := leak + added.leak;
    }

    /** A full repeater where the link reaches past one span, a smaller one in proportion where it does not. */
    method Driver(lenTemp: real, extent: real) returns (s: real)
      requires t.rate.spacing > 0.0
      ensures s == DriverSize(t.rate, lenTemp, extent)
    {
      if extent > t.rate.spacing {
        s := t.rate.size;
      } else {
        s := lenTemp / t.rate.spacing * t.rate.size;
      }
    }

    /** The wire a gate drives, up to the first repeater. */
    method Load(length: real) returns (l: real)
      ensures l == LoadLength(t.rate, length, length)
    {
      if length > t.rate.spacing {
        l := t.rate.spacing;
      } else {
        l := length;
      }
    }

    /** First level of an iteration: one link, and inside a bank one gate; a lone vertical link doubles the width. */
    method FirstLevel(length: real, lenTemp: real, htTemp: real, option: int) returns (s2: real, ghost g: Gate)
      requires t.rate.spacing > 0.0
      modifies this
      ensures Now() == FirstOf(t, old(Now()), length, option, g)
      ensures wireBw == if !t.uca && option == 2 then old(wireBw) * 2 else old(wireBw)
      ensures !t.uca ==> s2 == DriverSize(t.rate, lenTemp, htTemp)
      ensures !t.uca ==>
                g == gate(DriverSize(t.rate, lenTemp, lenTemp), s2, LoadLength(t.rate, lenTemp, lenTemp),
                          if option == 2 then old(wireBw) * 2 else old(wireBw))
    {
      AddLink(length);
      if !t.uca && option == 2 {
        wireBw := wireBw * 2;
      }
      s2 := 0.0;
      g := Gate(0.0, 0.0, 0.0);
      if !t.uca {
        var s1 := Driver(lenTemp, lenTemp);
        var lEff := Load(lenTemp);
        s2 := Driver(lenTemp, htTemp);
        g := AddGate(s1, s2, lEff);
      }
    }

    /** Second level, of a pair: the vertical link, its leakage once more, and inside a bank the second gate. */
    method SecondLevel(length: real, lenTemp: real, htTemp: real, s2: real) returns (ghost g: Gate)
      requires t.rate.spacing > 0.0
      modifies this
      ensures Now() == SecondOf(t, old(Now()), length, g)
      ensures !t.uca ==>
                g == gate(s2, DriverSize(t.rate, lenTemp, htTemp), LoadLength(t.rate, htTemp, htTemp), old(wireBw) * 2)
    {
      AddLink(length);
      leak := leak + t.rate.leak * length * wireBw as real;
      g := Gate(0.0, 0.0, 0.0);
      if !t.uca {
        wireBw := wireBw * 2;
        var s3 := Driver(lenTemp, htTemp);
        var lEff := Load(htTemp);
        g := AddGate(s2, s3, lEff);
      }
    }

    /** in_htree and out_htree, which differ only in their gate. */
    method Descend() returns (ghost gates: seq<Gate>)
      requires t.rate.spacing > 0.0 && Now() == Figures(0.0, 0.0, 0.0, t.initBw)
      modifies this
      ensures Totalled(t, t.h, t.v, gates, Now())
      ensures gates == GatesFrom(t, gate, t.h, t.v, t.len, 2.0 * t.ht)
    {
      hide DriverSize;
      hide LoadLength;
      hide Width;
      hide Totalled;
      hide GatesFrom;
      hide AfterOne;
      hide AfterPair;
      hide FirstOf;
      hide SecondOf;
      var h, v, len, ht := t.h, t.v, t.len, t.ht;
      var lenTemp, htTemp := len, 2.0 * ht;
      gates := [];
      ghost var a: nat, b: nat := 0, 0;
      ghost var all := GatesFrom(t, gate, h, v, lenTemp, htTemp);
      assert gates + all == all;
      StartTotals(t);
      while v > 0 || h > 0
        invariant 0 <= h && 0 <= v && a == t.h - h && b == t.v - v && OnPath(t.h, t.v, a, b)
        invariant len == Halve(t.len, a) && ht == Halve(t.ht, b)
        invariant Totalled(t, a, b, gates, Now())
        invariant gates + GatesFrom(t, gate, h, v, lenTemp, htTemp) == all
        decreases h + v
      {
        ghost var before := Now();
        WidthNow(t, a, b, gates, before);
        ghost var g1, g2;
        var s2;
        PathShape(t.h, t.v, a, b);
        if h > v {
          ghost var lastLen := lenTemp;
          lenTemp := len;
          s2, g1 := FirstLevel(len, lenTemp, htTemp, 0);
          GatesHorizontal(t, gate, h, v, lastLen, htTemp, gates, g1);
          StepHorizontal(t, a, b, gates, before, g1);
          len, h := len / 2.0, h - 1;
          gates, a := AfterOne(t, gates, g1), a + 1;
        } else if v > 0 && h > 0 {
          ghost var lastLen, lastHt := lenTemp, htTemp;
          lenTemp, htTemp := len, ht;
          s2, g1 := FirstLevel(len, lenTemp, htTemp, 1);
          g2 := SecondLevel(ht, lenTemp, htTemp, s2);
          GatesPair(t, gate, h, v, lastLen, lastHt, gates, g1, g2);
          StepPair(t, a, b, gates, before, g1, g2);
          len, ht, v, h := len / 2.0, ht / 2.0, v - 1, h - 1;
          gates, a, b := AfterPair(t, gates, g1, g2), a + 1, b + 1;
        } else {
          assert h == 0;
          ghost var lastHt := htTemp;
          htTemp := ht;
          s2, g1 := FirstLevel(ht, lenTemp, htTemp, 2);
          GatesVertical(t, gate, v, lenTemp, lastHt, gates, g1);
          StepVertical(t, a, b, gates, before, g1);
          ht, v := ht / 2.0, v - 1;
          gates, b := AfterOne(t, gates, g1), b + 1;
        }
      }
      GatesDone(t, gate, lenTemp, htTemp, gates);
    }
  }

  lemma GatesDone(t: Tree, gate: (real, real, real, nat) -> Gate, lenTemp: real, htTemp: real, gates: seq<Gate>)
    requires t.rate.spacing > 0.0
    ensures gates + GatesFrom(t, gate, 0, 0, lenTemp, htTemp) == gates
  {
  }

  lemma WidthNow(t: Tree, a: nat, b: nat, gates: seq<Gate>, f: Figures)
    requires Totalled(t, a, b, gates, f)
    ensures f.wireBw == Width(t, b)
  {
  }

  lemma StartTotals(t: Tree)
    ensures OnPath(t.h, t.v, 0, 0) && Totalled(t, 0, 0, [], Figures(0.0, 0.0, 0.0, t.initBw))
  {
    assert Pow2(0) == 1;
    assert PathLength(t.len, t.ht, 0, 0) == 0.0;
    assert LeakLength(t.uca, t.len, t.ht, t.h, t.v, 0, 0) == 0.0;
  }

  /** x divided over 2^k. */
  function Share(x: real, k: nat): real {
    x / Pow2(k) as real
  }

  lemma HalveIsShare(x: real, k: nat)
    ensures Halve(x, k) == Share(x, k)
  {
    HalveClosed(x, k);
    Divided(Pow2(k) as real, Halve(x, k), x);
  }

  lemma Divided(p: real, y: real, x: real)
    requires p > 0.0 && p * y == x
    ensures y == x / p
  {
  }

  /** Full length of wire from the root to a leaf. */
  function RootToLeaf(t: Tree): real {
    2.0 * (t.len - Share(t.len, t.h)) + 2.0 * (t.ht - Share(t.ht, t.v))
  }

  lemma PathClosed(t: Tree)
    ensures PathLength(t.len, t.ht, t.h, t.v) == RootToLeaf(t)
  {
    SpanClosed(t.len, t.h);
    SpanClosed(t.ht, t.v);
    HalveIsShare(t.len, t.h);
    HalveIsShare(t.ht, t.v);
  }

  /** Length of wire that leaks, per bit at the root. */
  function LeakyLength(t: Tree): real {
    var m, e := MinNat(t.h, t.v), Excess(t.h, t.v);
    if t.uca then RootToLeaf(t) + 2.0 * (t.ht - Share(t.ht, m))
    else 2.0 * (t.len - Share(t.len, e)) + m as real * Share(t.len, e) + (t.v + m) as real * t.ht
  }

  lemma LeakClosed(t: Tree)
    ensures LeakLength(t.uca, t.len, t.ht, t.h, t.v, t.h, t.v) == LeakyLength(t)
  {
    hide RootToLeaf;
    hide Share;
    var m, e := MinNat(t.h, t.v), Excess(t.h, t.v);
    PathClosed(t);
    SpanClosed(t.ht, m);
    HalveIsShare(t.ht, m);
    SpanClosed(t.len, e);
    HalveIsShare(t.len, e);
    assert MinNat(t.h, e) == e && MinNat(t.v, m) == m;
  }

  lemma TotalledLeak(t: Tree, gates: seq<Gate>, f: Figures)
    requires Totalled(t, t.h, t.v, gates, f)
    ensures f.leak == t.rate.leak * (t.initBw as real * LeakyLength(t)) + GateLeaks(gates)
  {
    hide LeakyLength;
    LeakClosed(t);
  }

  lemma PathTotals(t: Tree)
    ensures PathDelay(t, t.h, t.v) == t.rate.delay * RootToLeaf(t) && PathDyn(t, t.h, t.v) == t.rate.dyn * RootToLeaf(t)
  {
    hide RootToLeaf;
    hide PathLength;
    PathClosed(t);
  }

  lemma TotalledFigures(t: Tree, gates: seq<Gate>, f: Figures)
    requires Totalled(t, t.h, t.v, gates, f)
    ensures |gates| == (if t.uca then 0 else t.h + t.v) && f.wireBw == Width(t, t.v)
    ensures f.delay == PathDelay(t, t.h, t.v) + GateDelays(gates) && f.dyn == PathDyn(t, t.h, t.v) + GateDyns(gates)
  {
  }

  lemma TotalledPath(t: Tree, gates: seq<Gate>, f: Figures)
    requires Totalled(t, t.h, t.v, gates, f)
    ensures |gates| == (if t.uca then 0 else t.h + t.v)
    ensures f.wireBw == (if t.uca then t.initBw else t.initBw * Pow2(t.v))
    ensures f.delay == t.rate.delay * RootToLeaf(t) + GateDelays(gates)
    ensures f.dyn == t.rate.dyn * RootToLeaf(t) + GateDyns(gates)
  {
    hide Totalled;
    hide RootToLeaf;
    hide PathDelay;
    hide PathDyn;
    TotalledFigures(t, gates, f);
    PathTotals(t);
  }

  /**
   Between banks: constant width, no gates, and totals that do not depend on how the levels interleave; but vertical
   links taken in a pair leak twice.
   */
  lemma InterbankTotals(t: Tree, gates: seq<Gate>, f: Figures)
    requires t.uca && Totalled(t, t.h, t.v, gates, f)
    ensures f.wireBw == t.initBw
    ensures f.delay == t.rate.delay * RootToLeaf(t) && f.dyn == t.rate.dyn * RootToLeaf(t)
    ensures f.leak == t.rate.leak * (t.initBw as real * LeakyLength(t))
  {
    hide Totalled;
    hide LeakyLength;
    hide RootToLeaf;
    TotalledPath(t, gates, f);
    TotalledLeak(t, gates, f);
    assert gates == [];
  }

  /** Inside a bank: one gate per node, the width doubled at every vertical node, so each vertical level leaks alike. */
  lemma BankTotals(t: Tree, gates: seq<Gate>, f: Figures)
    requires !t.uca && Totalled(t, t.h, t.v, gates, f)
    ensures |gates| == t.h + t.v && f.wireBw == t.initBw * Pow2(t.v)
    ensures f.delay == t.rate.delay * RootToLeaf(t) + GateDelays(gates)
    ensures f.dyn == t.rate.dyn * RootToLeaf(t) + GateDyns(gates)
    ensures f.leak == t.rate.leak * (t.initBw as real * LeakyLength(t)) + GateLeaks(gates)
  {
    hide Totalled;
    hide LeakyLength;
    hide RootToLeaf;
    TotalledPath(t, gates, f);
    TotalledLeak(t, gates, f);
  }

  /** The node counts a partition asks for: a tree over ndwl by ndbl subarrays ends in one link per pair of rows. */
  lemma LeafWidth(t: Tree, ndbl: nat)
    requires ndbl >= 2 && PowerOfTwo(ndbl) && !t.uca && t.v == Log2(ndbl / 2)
    ensures Width(t, t.v) == t.initBw * (ndbl / 2)
  {
    var k: nat :| ndbl == Pow2(k);
    assert Pow2(0) == 1;
    assert ndbl / 2 == Pow2(k - 1);
    Log2OfPow2(k - 1);
  }
}
