/**
 The enumeration behind the NUCA search: bank counts, then wire types, then routers.  The optimum found for one
 combination is only partly reset before the next.
 */
module SimNuca {
  import opened BasicCircuit
  import opened Sequences
  import opened MemArray
  import opened NucaGrid
  import opened Nuca
  import opened StdList

  const ROUTER_TYPES := 3
  const INF := 9999999.0

  /** The bank solution, the wires and the router of one combination, as far as the grid search sees them. */
  datatype Setup = Setup(net: Network, contention: real, cycle: real, tileHeight: real, tileWidth: real)

  type Study = (nat, nat, nat) -> Setup

  datatype Job = Job(it: nat, wr: nat, ro: nat, banks: nat)

  const BLANK := NucaOrg(Perf(0.0, 0.0, 0.0, 0.0, 0.0), 0, 0, 0)
  const FRESH := Best(INF, 0, 0, INF, INF, 0.0, 0.0, 0.0, 0.0)

  function SetupOf(study: Study, j: Job): Setup {
    study(j.it, j.wr, j.ro)
  }

  /** The list entry made from an optimum. */
  function OrgOf(b: Best, s: Setup, banks: nat): NucaOrg {
    var area := (b.rows as real * s.tileHeight) * (b.columns as real * s.tileWidth);
    NucaOrg(Perf(b.acclat + s.contention, b.dyn, b.leak, area, s.cycle), b.rows, b.columns, banks)
  }

  // ----- the combinations, in order -----

  function RouterJobs(it: nat, wr: nat, ro: nat, banks: nat): seq<Job>
    decreases ROUTER_TYPES - ro
  {
    if ro < ROUTER_TYPES then [Job(it, wr, ro, banks)] + RouterJobs(it, wr, ro + 1, banks) else []
  }

  function WireJobs(it: nat, wr: nat, wtMax: nat, banks: nat): seq<Job>
    decreases wtMax + 1 - wr
  {
    if wr <= wtMax then RouterJobs(it, wr, 0, banks) + WireJobs(it, wr + 1, wtMax, banks) else []
  }

  /** Enough capacity for every halving. */
  predicate Halvable(sz: nat, halvings: int) {
    halvings <= 0 || sz >= Pow2(halvings - 1)
  }

  function Half(sz: nat): nat {
    sz / 2
  }

  lemma HalvableNext(sz: nat, k: int)
    requires k > 0 && Halvable(sz, k)
    ensures sz > 0 && Halvable(Half(sz), k - 1)
  {
    if k > 1 {
      assert Pow2(k - 1) == 2 * Pow2(k - 2);
    }
  }

  function BankCount(total: nat, sz: nat): nat
    requires sz > 0
  {
    total / sz
  }

  function BankJobs(it: nat, iterations: nat, wtMin: nat, wtMax: nat, total: nat, sz: nat): seq<Job>
    requires Halvable(sz, iterations - it)
    decreases iterations - it
  {
    if it < iterations then
      HalvableNext(sz, iterations - it);
      WireJobs(it, wtMin, wtMax, BankCount(total, sz)) + BankJobs(it + 1, iterations, wtMin, wtMax, total, Half(sz))
    else []
  }

  lemma BankJobsNext(it: nat, iterations: nat, wtMin: nat, wtMax: nat, total: nat, sz: nat)
    requires it < iterations && Halvable(sz, iterations - it)
    ensures sz > 0 && Halvable(Half(sz), iterations - (it + 1))
    ensures BankJobs(it, iterations, wtMin, wtMax, total, sz)
         == WireJobs(it, wtMin, wtMax, BankCount(total, sz))
            + BankJobs(it + 1, iterations, wtMin, wtMax, total, Half(sz))
  {
    HalvableNext(sz, iterations - it);
  }

  lemma BankJobsEnd(it: nat, iterations: nat, wtMin: nat, wtMax: nat, total: nat, sz: nat)
    requires it >= iterations
    ensures Halvable(sz, iterations - it) && BankJobs(it, iterations, wtMin, wtMax, total, sz) == []
  {
  }

  lemma FirstOfWires(it: nat, wtMin: nat, wtMax: nat, banks: nat)
    requires wtMin <= wtMax
    ensures Job(it, wtMin, 0, banks) in WireJobs(it, wtMin, wtMax, banks)
  {
    assert RouterJobs(it, wtMin, 0, banks)[0] == Job(it, wtMin, 0, banks);
  }

  /** Every job of these iterations has the bank count of its iteration: first at iteration it, doubled by each. */
  ghost predicate Doubling(jobs: seq<Job>, it: nat, iterations: nat, first: nat) {
    forall j :: j in jobs ==> it <= j.it < iterations && j.banks == Pow2(first + (j.it - it))
  }

  lemma {:induction false} JobsOfRouters(it: nat, wr: nat, ro: nat, banks: nat)
    ensures forall j :: j in RouterJobs(it, wr, ro, banks) ==> j.it == it && j.banks == banks
    decreases ROUTER_TYPES - ro
  {
    if ro < ROUTER_TYPES {
      JobsOfRouters(it, wr, ro + 1, banks);
    }
  }

  lemma {:induction false} JobsOfWires(it: nat, wr: nat, wtMax: nat, banks: nat)
    ensures forall j :: j in WireJobs(it, wr, wtMax, banks) ==> j.it == it && j.banks == banks
    decreases wtMax + 1 - wr
  {
    if wr <= wtMax {
      JobsOfRouters(it, wr, 0, banks);
      JobsOfWires(it, wr + 1, wtMax, banks);
    }
  }

  /**
   With power-of-two capacities the bank count starts at their quotient and doubles from one iteration to the next,
   for every wire type and router.
   */
  lemma {:induction false} BankCounts(it: nat, iterations: nat, wtMin: nat, wtMax: nat, a: nat, b: nat)
    requires b <= a && iterations - it <= b + 1 && Halvable(Pow2(b), iterations - it)
    ensures Doubling(BankJobs(it, iterations, wtMin, wtMax, Pow2(a), Pow2(b)), it, iterations, a - b)
    decreases iterations - it
  {
    hide WireJobs;
    if it < iterations {
      HalvableNext(Pow2(b), iterations - it);
      PowerBanks(a, b);
      JobsOfWires(it, wtMin, wtMax, Pow2(a - b));
      if b > 0 {
        HalfPower(b);
        BankCounts(it + 1, iterations, wtMin, wtMax, a, b - 1);
      } else {
        BankJobsEnd(it + 1, iterations, wtMin, wtMax, Pow2(a), Half(Pow2(b)));
      }
    }
  }

  /** And no iteration is left out. */
  lemma {:induction false} BankCountReached(it: nat, iterations: nat, wtMin: nat, wtMax: nat, a: nat, b: nat,
                                            k: nat, e: nat)
    requires it + k < iterations && b <= a && iterations - it <= b + 1 && wtMin <= wtMax && e == a - b + k
    requires Halvable(Pow2(b), iterations - it)
    ensures Job(it + k, wtMin, 0, Pow2(e)) in BankJobs(it, iterations, wtMin, wtMax, Pow2(a), Pow2(b))
    decreases k
  {
    hide WireJobs;
    HalvableNext(Pow2(b), iterations - it);
    if k > 0 {
      HalfPower(b);
      BankCountReached(it + 1, iterations, wtMin, wtMax, a, b - 1, k - 1, e);
    } else {
      PowerBanks(a, b);
      FirstOfWires(it, wtMin, wtMax, Pow2(e));
    }
  }

  lemma HalfPower(b: nat)
    requires b > 0
    ensures Half(Pow2(b)) == Pow2(b - 1)
  {
  }

  lemma PowerBanks(a: nat, b: nat)
    requires b <= a
    ensures Pow2(b) > 0 && BankCount(Pow2(a), Pow2(b)) == Pow2(a - b)
  {
    Pow2Quotient(a, b);
  }

  // ----- what the enumeration leaves in the list -----

  /** Where the search of combination k starts: afresh, or from the previous optimum with only its latency reset. */
  function StartOf(bests: seq<Best>, k: nat): Best
    requires k <= |bests|
  {
    if k == 0 then FRESH else bests[k - 1].(acclat := BIGNUM)
  }

  ghost predicate Entry(study: Study, j: Job, start: Best, b: Best, org: NucaOrg) {
    && (exists k :: Found(SetupOf(study, j).net, j.banks, DivisorsFrom(j.banks, 1), start, k, b))
    && org == OrgOf(b, SetupOf(study, j), j.banks)
  }

  ghost predicate History(study: Study, jobs: seq<Job>, orgs: seq<NucaOrg>, bests: seq<Best>) {
    && |jobs| == |orgs| == |bests|
    && forall k :: 0 <= k < |jobs| ==> Entry(study, jobs[k], StartOf(bests, k), bests[k], orgs[k])
  }

  lemma HistorySnoc(study: Study, jobs: seq<Job>, orgs: seq<NucaOrg>, bests: seq<Best>, j: Job, b: Best, org: NucaOrg)
    requires History(study, jobs, orgs, bests) && Entry(study, j, StartOf(bests, |bests|), b, org)
    ensures History(study, jobs + [j], orgs + [org], bests + [b])
  {
    hide Entry;
    var bs := bests + [b];
    forall k | 0 <= k < |bs| ensures StartOf(bs, k) == StartOf(bests, k) {
    }
  }

  /** The list ends in one blank; the rest is history, and the minima cover it. */
  ghost predicate Progress(study: Study, jobs: seq<Job>, elems: seq<NucaOrg>, bests: seq<Best>, opt: Best, m: Minima) {
    && elems != [] && History(study, jobs, elems[..|elems| - 1], bests)
    && opt == StartOf(bests, |bests|) && m == MinOver(NucaPerfs(elems[..|elems| - 1]), NO_MINIMA)
  }

  lemma MinimaSnoc(s: seq<NucaOrg>, org: NucaOrg)
    ensures MinOver(NucaPerfs(s + [org]), NO_MINIMA) == MinOver(NucaPerfs(s), NO_MINIMA).Update(org.perf)
  {
    assert NucaPerfs(s + [org]) == NucaPerfs(s) + [org.perf];
    MinOverAppend(NucaPerfs(s), [org.perf], NO_MINIMA);
    var m := MinOver(NucaPerfs(s), NO_MINIMA);
    assert MinOver([org.perf], m) == MinOver([org.perf][1..], m.Update([org.perf][0]));
  }

  /** The figures of an entry: the latency under contention, the power of the optimum, and the area of its grid. */
  method MakeEntry(opt: Best, s: Setup, banks: nat) returns (org: NucaOrg)
    ensures org == OrgOf(opt, s, banks)
  {
    var height := opt.rows as real * s.tileHeight;
    var width := opt.columns as real * s.tileWidth;
    org := NucaOrg(Perf(opt.acclat + s.contention, opt.dyn, opt.leak, height * width, s.cycle),
                   opt.rows, opt.columns, banks);
  }

  method Evaluate(list: List<NucaOrg>, study: Study, j: Job, opt0: Best, m0: Minima,
                  ghost jobs: seq<Job>, ghost bests0: seq<Best>)
    returns (opt: Best, m: Minima, ghost bests: seq<Best>)
    requires j.banks >= 1 && Progress(study, jobs, list.elems, bests0, opt0, m0)
    modifies list
    ensures Progress(study, jobs + [j], list.elems, bests, opt, m)
  {
    hide Found;
    hide History;
    ghost var front := list.elems[..|list.elems| - 1];
    var s := study(j.it, j.wr, j.ro);
    assert s == SetupOf(study, j);
    ghost var k;
    opt, k := SearchGrid(s.net, j.banks, opt0);
    var org := MakeEntry(opt, s, j.banks);
    list.SetBack(org);
    m := m0.Update(org.perf);
    bests := bests0 + [opt];
    HistorySnoc(study, jobs, front, bests0, j, opt, org);
    MinimaSnoc(front, org);
    list.PushBack(BLANK);
    assert list.elems[..|list.elems| - 1] == front + [org];
    HistoryLength(study, jobs, front, bests0);
    opt := opt.(acclat := BIGNUM);
  }

  lemma HistoryLength(study: Study, jobs: seq<Job>, orgs: seq<NucaOrg>, bests: seq<Best>)
    requires History(study, jobs, orgs, bests)
    ensures |jobs| == |orgs| == |bests|
  {
  }

  method SweepRouters(list: List<NucaOrg>, study: Study, it: nat, wr: nat, banks: nat, opt0: Best, m0: Minima,
                      ghost jobs: seq<Job>, ghost bests0: seq<Best>)
    returns (opt: Best, m: Minima, ghost bests: seq<Best>)
    requires banks >= 1 && Progress(study, jobs, list.elems, bests0, opt0, m0)
    modifies list
    ensures Progress(study, jobs + RouterJobs(it, wr, 0, banks), list.elems, bests, opt, m)
  {
    hide Progress;
    opt, m, bests := opt0, m0, bests0;
    ghost var done: seq<Job> := [];
    assert jobs + [] == jobs;
    var ro := 0;
    while ro < ROUTER_TYPES
      invariant 0 <= ro <= ROUTER_TYPES && done + RouterJobs(it, wr, ro, banks) == RouterJobs(it, wr, 0, banks)
      invariant Progress(study, jobs + done, list.elems, bests, opt, m)
    {
      ghost var j := Job(it, wr, ro, banks);
      opt, m, bests := Evaluate(list, study, Job(it, wr, ro, banks), opt, m, jobs + done, bests);
      AppendAssociates(jobs, done, [j]);
      AppendAssociates(done, [j], RouterJobs(it, wr, ro + 1, banks));
      done := done + [j];
      ro := ro + 1;
    }
    assert done + [] == done;
  }

  method SweepWires(list: List<NucaOrg>, study: Study, it: nat, wtMin: nat, wtMax: nat, banks: nat,
                    opt0: Best, m0: Minima, ghost jobs: seq<Job>, ghost bests0: seq<Best>)
    returns (opt: Best, m: Minima, ghost bests: seq<Best>)
    requires banks >= 1 && Progress(study, jobs, list.elems, bests0, opt0, m0)
    modifies list
    ensures Progress(study, jobs + WireJobs(it, wtMin, wtMax, banks), list.elems, bests, opt, m)
  {
    hide Progress;
    hide RouterJobs;
    opt, m, bests := opt0, m0, bests0;
    ghost var done: seq<Job> := [];
    assert jobs + [] == jobs;
    var wr := wtMin;
    while wr <= wtMax
      invariant done + WireJobs(it, wr, wtMax, banks) == WireJobs(it, wtMin, wtMax, banks)
      invariant Progress(study, jobs + done, list.elems, bests, opt, m)
      decreases wtMax + 1 - wr
    {
      opt, m, bests := SweepRouters(list, study, it, wr, banks, opt, m, jobs + done, bests);
      ghost var js := RouterJobs(it, wr, 0, banks);
      AppendAssociates(jobs, done, js);
      AppendAssociates(done, js, WireJobs(it, wr + 1, wtMax, banks));
      done := done + js;
      wr := wr + 1;
    }
    assert done + [] == done;
  }

  method SweepBanks(list: List<NucaOrg>, study: Study, bankStart: nat, iterations: nat, wtMin: nat, wtMax: nat,
                    total: nat, sz0: nat, opt0: Best, m0: Minima)
    returns (opt: Best, m: Minima, ghost bests: seq<Best>)
    requires Halvable(sz0, iterations - bankStart) && sz0 <= total && Progress(study, [], list.elems, [], opt0, m0)
    modifies list
    ensures Progress(study, BankJobs(bankStart, iterations, wtMin, wtMax, total, sz0), list.elems, bests, opt, m)
  {
    hide WireJobs;
    hide Halvable;
    hide BankCount;
    hide BankJobs;
    hide Half;
    hide Progress;
    opt, m, bests := opt0, m0, [];
    ghost var done: seq<Job> := [];
    ghost var all := BankJobs(bankStart, iterations, wtMin, wtMax, total, sz0);
    var it: nat, sz: nat := bankStart, sz0;
    while it < iterations
      invariant Halvable(sz, iterations - it) && sz <= total
      invariant done + BankJobs(it, iterations, wtMin, wtMax, total, sz) == all
      invariant Progress(study, done, list.elems, bests, opt, m)
      decreases iterations - it
    {
      BankJobsNext(it, iterations, wtMin, wtMax, total, sz);
      HalfAtMost(sz);
      AtLeastOneBank(total, sz);
      ghost var js := WireJobs(it, wtMin, wtMax, BankCount(total, sz));
      BankCountIs(total, sz);
      opt, m, bests := SweepWires(list, study, it, wtMin, wtMax, total / sz, opt, m, done, bests);
      AppendAssociates(done, js, BankJobs(it + 1, iterations, wtMin, wtMax, total, Half(sz)));
      done := done + js;
      it, sz := it + 1, sz / 2;
    }
    BankJobsEnd(it, iterations, wtMin, wtMax, total, sz);
    assert done + [] == done;
  }

  /** The enumeration of sim_nuca, up to the choice: one entry per combination, and the minima over all of them. */
  method BuildNucaList(study: Study, bankStart: nat, iterations: nat, wtMin: nat, wtMax: nat, total: nat, sz: nat)
    returns (list: List<NucaOrg>, m: Minima, ghost bests: seq<Best>)
    requires Halvable(sz, iterations - bankStart) && sz <= total
    ensures fresh(list)
    ensures History(study, BankJobs(bankStart, iterations, wtMin, wtMax, total, sz), list.elems, bests)
    ensures m == MinOver(NucaPerfs(list.elems), NO_MINIMA)
  {
    hide Halvable;
    hide History;
    hide BankJobs;
    list := new List<NucaOrg>();
    list.PushBack(BLANK);
    StartProgress(study, list.elems);
    var opt;
    opt, m, bests := SweepBanks(list, study, bankStart, iterations, wtMin, wtMax, total, sz, FRESH, NO_MINIMA);
    list.PopBack();
  }

  lemma StartProgress(study: Study, elems: seq<NucaOrg>)
    requires elems == [BLANK]
    ensures Progress(study, [], elems, [], FRESH, NO_MINIMA)
  {
    assert elems[..0] == [];
  }

  lemma BankCountIs(total: nat, sz: nat)
    requires sz > 0
    ensures BankCount(total, sz) == total / sz && Half(sz) == sz / 2
  {
  }

  lemma HalfAtMost(sz: nat)
    ensures Half(sz) <= sz
  {
  }

  lemma AtLeastOneBank(total: nat, sz: nat)
    requires 0 < sz <= total
    ensures BankCount(total, sz) >= 1
  {
    QuotientBracketAtLeast(total, sz);
  }

  lemma QuotientBracketAtLeast(p: nat, d: nat)
    requires 0 < d <= p
    ensures p / d >= 1
  {
    assert p == p / d * d + p % d;
  }

  // ----- consequences -----

  /** Some arrangement beats the bound the search starts from. */
  ghost predicate SomeFaster(net: Network, n: nat, bound: real) {
    exists c: nat :: 1 <= c <= n && Divides(c, n) && Access(net, n / c, c) < bound
  }

  /** Some arrangement of combination k beats the bound its search starts from. */
  ghost predicate Improves(study: Study, jobs: seq<Job>, k: nat)
    requires k < |jobs|
  {
    SomeFaster(SetupOf(study, jobs[k]).net, jobs[k].banks, if k == 0 then INF else BIGNUM)
  }

  /** The latest combination up to k whose search found anything, -1 for none. */
  ghost function GridSource(study: Study, jobs: seq<Job>, k: nat): (l: int)
    requires k < |jobs|
    ensures -1 <= l <= k
  {
    if Improves(study, jobs, k) then k else if k == 0 then -1 else GridSource(study, jobs, k - 1)
  }

  function GridBanks(b: Best): nat {
    b.rows * b.columns
  }

  /** One search keeps its own grid or the one it starts from. */
  lemma GridOfSearch(study: Study, j: Job, start: Best, b: Best, org: NucaOrg)
    requires Entry(study, j, start, b, org)
    ensures GridBanks(b)
         == if SomeFaster(SetupOf(study, j).net, j.banks, start.acclat) then j.banks else GridBanks(start)
  {
    hide Found;
    hide GridBanks;
    hide SomeFaster;
    hide OrgOf;
    var net, n := SetupOf(study, j).net, j.banks;
    var i :| Found(net, n, DivisorsFrom(n, 1), start, i, b);
    FoundGrid(net, n, start, i, b);
  }

  /** An entry's grid holds the banks of the latest combination whose search found anything. */
  lemma {:induction false} GridFromSource(study: Study, jobs: seq<Job>, orgs: seq<NucaOrg>, bests: seq<Best>, k: nat)
    requires History(study, jobs, orgs, bests) && k < |jobs|
    ensures var l := GridSource(study, jobs, k);
            GridBanks(bests[k]) == if l == -1 then 0 else jobs[l].banks
  {
    hide Entry;
    hide GridBanks;
    hide SomeFaster;
    GridOfSearch(study, jobs[k], StartOf(bests, k), bests[k], orgs[k]);
    if k == 0 {
      FreshGrid();
    } else {
      ResetGrid(bests[k - 1]);
      GridFromSource(study, jobs, orgs, bests, k - 1);
    }
  }

  /**
   Whether a grid is its own, exactly: an entry's grid holds the entry's banks if and only if some search up to its
   own beat its starting bound, and the latest that did was for as many banks.
   */
  lemma GridOfEntry(study: Study, jobs: seq<Job>, orgs: seq<NucaOrg>, bests: seq<Best>, k: nat)
    requires History(study, jobs, orgs, bests) && k < |jobs| && jobs[k].banks >= 1
    ensures var l := GridSource(study, jobs, k);
            orgs[k].rows * orgs[k].columns == jobs[k].banks <==> l != -1 && jobs[l].banks == jobs[k].banks
  {
    hide Found;
    GridFromSource(study, jobs, orgs, bests, k);
    assert Entry(study, jobs[k], StartOf(bests, k), bests[k], orgs[k]);
  }

  /** One bank, so slow that the first search, bounded more tightly than the others, finds nothing. */
  const SLUGGISH := Network(1, 1, 1.0, 10000000, (x, y, z) => 1.0, (x, y, z) => 1.0)

  function SluggishStudy(it: nat, wr: nat, ro: nat): Setup {
    Setup(SLUGGISH, 0.0, 1.0, 1.0, 1.0)
  }

  lemma OneBankAccess(c: nat)
    requires 1 <= c <= 1 && Divides(c, 1)
    ensures Access(SLUGGISH, 1 / c, c) == 10000002.0
  {
  }

  /** The first entry is a grid of no banks; the second, for the same bank, is its own. */
  lemma FirstGridIsEmpty(orgs: seq<NucaOrg>, bests: seq<Best>)
    requires Halvable(1, 1) && History(SluggishStudy, BankJobs(0, 1, 0, 0, 1, 1), orgs, bests)
    ensures |orgs| == ROUTER_TYPES && orgs[0].rows * orgs[0].columns == 0 && orgs[1].rows * orgs[1].columns == 1
  {
    var jobs := BankJobs(0, 1, 0, 0, 1, 1);
    HalvableNext(1, 1);
    assert BankJobs(1, 1, 0, 0, 1, 0) == [] && WireJobs(0, 1, 0, 1) == [];
    assert jobs == RouterJobs(0, 0, 0, 1);
    assert jobs == [Job(0, 0, 0, 1), Job(0, 0, 1, 1), Job(0, 0, 2, 1)];
    OneBankAccess(1);
    assert !Improves(SluggishStudy, jobs, 0);
    assert Improves(SluggishStudy, jobs, 1);
    assert Entry(SluggishStudy, jobs[0], StartOf(bests, 0), bests[0], orgs[0]);
    assert Entry(SluggishStudy, jobs[1], StartOf(bests, 1), bests[1], orgs[1]);
    GridFromSource(SluggishStudy, jobs, orgs, bests, 0);
    GridFromSource(SluggishStudy, jobs, orgs, bests, 1);
  }

  lemma FreshGrid()
    ensures GridBanks(FRESH) == 0
  {
  }

  lemma ResetGrid(b: Best)
    ensures GridBanks(b.(acclat := BIGNUM)) == GridBanks(b)
  {
  }

  lemma FoundGrid(net: Network, n: nat, start: Best, i: int, b: Best)
    requires Found(net, n, DivisorsFrom(n, 1), start, i, b)
    ensures if SomeFaster(net, n, start.acclat) then GridBanks(b) == n else b == start
  {
    hide Access;
    hide Divides;
    var ds := DivisorsFrom(n, 1);
    DivisorsSpec(n, 1);
    if i == -1 {
      forall c: nat | 1 <= c <= n && Divides(c, n) ensures Access(net, n / c, c) >= start.acclat {
        assert c in ds;
        var q :| 0 <= q < |ds| && ds[q] == c;
      }
    } else {
      assert ds[i] in ds;
      ExactQuotient(n, ds[i]);
    }
  }
}
