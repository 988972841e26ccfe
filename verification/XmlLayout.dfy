/**
 Reading the McPAT description: comma-separated lists, split character by character through one shared buffer, and
 the order in which the components of the system are read by cursor arithmetic over its children.
 */
module XmlLayout {

  // ----- comma-separated lists -----

  /** The fields of a list, built from the front character by character. */
  function Split(s: string): (r: seq<string>)
    ensures r != []
  {
    if s == [] then [""]
    else
      var r, c := Split(s[..|s| - 1]), s[|s| - 1];
      if c == ',' then r + [""] else r[..|r| - 1] + [r[|r| - 1] + [c]]
  }

  function Join(fields: seq<string>): string
    requires fields != []
  {
    if |fields| == 1 then fields[0] else Join(fields[..|fields| - 1]) + "," + fields[|fields| - 1]
  }

  lemma JoinSnoc(fields: seq<string>, x: string)
    requires fields != []
    ensures Join(fields + [x]) == Join(fields) + "," + x
  {
    assert (fields + [x])[..|fields|] == fields;
  }

  /** Growing the last field grows the joined list. */
  lemma JoinLast(fields: seq<string>, c: char)
    requires fields != []
    ensures Join(fields[..|fields| - 1] + [fields[|fields| - 1] + [c]]) == Join(fields) + [c]
  {
    hide Join;
    var front, last := fields[..|fields| - 1], fields[|fields| - 1];
    assert front + [last] == fields;
    if front == [] {
      JoinOne(last);
      JoinOne(last + [c]);
      assert front + [last + [c]] == [last + [c]] && fields == [last];
    } else {
      JoinSnoc(front, last + [c]);
      JoinSnoc(front, last);
      Associate(Join(front) + ",", last, [c]);
    }
  }

  lemma JoinOne(x: string)
    ensures Join([x]) == x
  {
  }

  lemma Associate(a: string, b: string, c: string)
    ensures a + (b + c) == a + b + c
  {
  }

  lemma {:induction false} JoinOfSplit(s: string)
    ensures Join(Split(s)) == s
  {
    if s != [] {
      var front, c := s[..|s| - 1], s[|s| - 1];
      JoinOfSplit(front);
      assert s == front + [c];
      if c == ',' {
        JoinSnoc(Split(front), "");
        assert front + "," + "" == s;
      } else {
        JoinLast(Split(front), c);
      }
    }
  }

  lemma SplitSnoc(s: string, c: char)
    ensures Split(s + [c]) == if c == ',' then Split(s) + [""]
                              else Split(s)[..|Split(s)| - 1] + [Split(s)[|Split(s)| - 1] + [c]]
  {
    assert (s + [c])[..|s|] == s;
  }

  lemma {:induction false} SplitField(s: string, x: string)
    requires ',' !in x
    ensures Split(s + x) == Split(s)[..|Split(s)| - 1] + [Split(s)[|Split(s)| - 1] + x]
  {
    var r := Split(s);
    if x == [] {
      assert s + x == s && r[|r| - 1] + x == r[|r| - 1];
    } else {
      var front, c := x[..|x| - 1], x[|x| - 1];
      SplitField(s, front);
      SplitSnoc(s + front, c);
      assert x == front + [c];
      Associate(s, front, [c]);
      Associate(r[|r| - 1], front, [c]);
    }
  }

  /** Splitting inverts joining: comma-free fields come back one by one. */
  lemma {:induction false} SplitOfJoin(fields: seq<string>)
    requires fields != [] && forall i :: 0 <= i < |fields| ==> ',' !in fields[i]
    ensures Split(Join(fields)) == fields
  {
    hide Join;
    hide Split;
    var front, last := fields[..|fields| - 1], fields[|fields| - 1];
    assert front + [last] == fields;
    if front == [] {
      SplitEmpty();
      SplitField("", last);
      JoinOne(last);
      assert "" + last == last;
      assert [""][..0] + [last] == [last] == fields;
    } else {
      SplitOfJoin(front);
      JoinSnoc(front, last);
      SplitSnoc(Join(front), ',');
      SplitField(Join(front) + ",", last);
      assert (front + [""])[..|front|] == front && "" + last == last;
    }
  }

  lemma SplitEmpty()
    ensures Split("") == [""]
  {
  }

  /** No field of a list contains a comma. */
  lemma {:induction false} FieldsCommaFree(s: string)
    ensures forall i :: 0 <= i < |Split(s)| ==> ',' !in Split(s)[i]
  {
    if s != [] {
      FieldsCommaFree(s[..|s| - 1]);
    }
  }

  class ListReader {
    var chtmp1: string

    constructor ()
      ensures chtmp1 == ""
    {
      chtmp1 := "";
    }

    /** Splits a list into the destination array, converting each field; the shared buffer starts and ends empty. */
    method ReadList(strtmp: string, atoi: string -> int, dest: array<int>) returns (m: nat)
      requires chtmp1 == "" && |Split(strtmp)| <= dest.Length
      modifies this, dest
      ensures chtmp1 == "" && m == |Split(strtmp)|
      ensures forall i :: 0 <= i < m ==> dest[i] == atoi(Split(strtmp)[i])
      ensures dest[m..] == old(dest[m..])
    {
      hide Split;
      hide Reading;
      m := 0;
      var n := 0;
      ReadingStart(strtmp, atoi, dest[..]);
      while n < |strtmp|
        invariant 0 <= n <= |strtmp| && 0 <= m < dest.Length && Reading(strtmp, n, m, chtmp1, dest[..], atoi)
        invariant dest[m..] == old(dest[m..])
      {
        ReadingStep(strtmp, n, m, chtmp1, dest[..], atoi);
        if strtmp[n] != ',' {
          chtmp1 := chtmp1 + [strtmp[n]];
        } else {
          dest[m] := atoi(chtmp1);
          m := m + 1;
          chtmp1 := "";
        }
        n := n + 1;
      }
      ReadingEnd(strtmp, m, chtmp1, dest[..], atoi);
      dest[m] := atoi(chtmp1);
      m := m + 1;
      chtmp1 := "";
    }
  }

  /** n characters read: m fields converted, the buffer holding the one being read. */
  ghost predicate Reading(s: string, n: nat, m: nat, buffer: string, dest: seq<int>, atoi: string -> int) {
    && n <= |s| && m <= |dest| && |Split(s[..n])| == m + 1 && buffer == Split(s[..n])[m]
    && forall i :: 0 <= i < m ==> dest[i] == atoi(Split(s[..n])[i])
  }

  lemma ReadingStart(s: string, atoi: string -> int, dest: seq<int>)
    ensures Reading(s, 0, 0, "", dest, atoi)
  {
    assert s[..0] == [];
  }

  lemma ReadingStep(s: string, n: nat, m: nat, buffer: string, dest: seq<int>, atoi: string -> int)
    requires Reading(s, n, m, buffer, dest, atoi) && n < |s| && |Split(s)| <= |dest|
    ensures m < |dest|
    ensures s[n] != ',' ==> Reading(s, n + 1, m, buffer + [s[n]], dest, atoi)
    ensures s[n] == ',' ==> m + 1 < |dest| && Reading(s, n + 1, m + 1, "", dest[m := atoi(buffer)], atoi)
  {
    hide Split;
    assert s[..n + 1] == s[..n] + [s[n]];
    SplitSnoc(s[..n], s[n]);
    SplitGrows(s, n + 1);
    SplitGrows(s, n);
  }

  lemma ReadingEnd(s: string, m: nat, buffer: string, dest: seq<int>, atoi: string -> int)
    requires Reading(s, |s|, m, buffer, dest, atoi)
    ensures |Split(s)| == m + 1 && buffer == Split(s)[m]
    ensures forall i :: 0 <= i < m ==> dest[i] == atoi(Split(s)[i])
  {
    assert s[..|s|] == s;
  }

  lemma {:induction false} SplitGrows(s: string, n: nat)
    requires n <= |s|
    ensures |Split(s[..n])| <= |Split(s)|
    decreases |s| - n
  {
    if n < |s| {
      SplitGrows(s, n + 1);
      assert s[..n + 1] == s[..n] + [s[n]];
      SplitSnoc(s[..n], s[n]);
    } else {
      assert s[..n] == s;
    }
  }

  // ----- the children of the system -----

  datatype Child = Child(name: string, id: string)

  datatype Kind = Core | L1Directory | L2Directory | L2 | L3 | NoC | MemoryController | Niu | Pcie | Flash

  predicate OccursAt(s: string, t: string, i: int) {
    0 <= i <= |s| - |t| && s[i..i + |t|] == t
  }

  predicate Contains(s: string, t: string) {
    exists i :: 0 <= i <= |s| - |t| && OccursAt(s, t, i)
  }

  /** How a component is recognized. */
  predicate Matches(c: Child, k: Kind) {
    match k
    case Core => Contains(c.name, "core")
    case L1Directory => Contains(c.id, "L1Directory")
    case L2Directory => Contains(c.id, "L2Directory")
    case L2 => Contains(c.name, "L2")
    case L3 => Contains(c.name, "L3")
    case NoC => Contains(c.name, "noc")
    case MemoryController => Contains(c.id, "system.mc")
    case Niu => Contains(c.id, "system.niu")
    case Pcie => Contains(c.id, "system.pcie")
    case Flash => Contains(c.id, "system.flashc")
  }

  datatype Section = Section(homogeneous: bool, number: nat)

  datatype System = System(cores: Section, l1Dirs: Section, l2Dirs: Section, l2s: Section, l3s: Section, nocs: Section)

  /** Index of the child read for each entry, section by section, and for the four units after them. */
  datatype Layout = Exit | Nothing | Parsed(cores: seq<nat>, l1Dirs: seq<nat>, l2Dirs: seq<nat>, l2s: seq<nat>,
                                            l3s: seq<nat>, nocs: seq<nat>, units: seq<nat>)

  const UNSIGNED := 0x1_0000_0000

  /** The last core index; zero heterogeneous cores wrap around. */
  function LastCore(s: Section): nat {
    if s.homogeneous then 0 else (s.number - 1) % UNSIGNED
  }

  function Count(s: Section): nat {
    if s.homogeneous then 1 else s.number
  }

  function Range(from: nat, n: nat): (r: seq<nat>)
    ensures |r| == n && forall i :: 0 <= i < n ==> r[i] == from + i
  {
    seq(n, i requires 0 <= i < n => from + i)
  }

  predicate IsKind(cs: seq<Child>, i: nat, k: Kind) {
    i < |cs| && Matches(cs[i], k)
  }

  ghost predicate AllMatch(cs: seq<Child>, from: nat, n: nat, k: Kind) {
    forall i: nat :: from <= i < from + n ==> IsKind(cs, i, k)
  }

  datatype Read = Stopped | Taken(at: seq<nat>)

  /** One section: n consecutive children from the cursor on; any other child stops the program. */
  method ReadSection(cs: seq<Child>, w0: nat, n: nat, k: Kind) returns (r: Read)
    ensures if AllMatch(cs, w0, n, k) then r == Taken(Range(w0, n)) else r == Stopped
  {
    hide Matches;
    var w, at := w0, [];
    var i := 0;
    while i < n
      invariant 0 <= i <= n && w == w0 + i && AllMatch(cs, w0, i, k) && at == Range(w0, i)
    {
      if w >= |cs| {
        assert !IsKind(cs, w, k);
        return Stopped;
      }
      if !Matches(cs[w], k) {
        assert !IsKind(cs, w, k);
        return Stopped;
      }
      at := at + [w];
      w := w + 1;
      i := i + 1;
    }
    r := Taken(at);
  }

  /** The networks: a child of another kind is neither stored nor passed, and does not stop the program. */
  method ReadNocs(cs: seq<Child>, w0: nat, n: nat) returns (r: Read)
    ensures r.Taken? <==> exists p: nat :: p <= n && AllMatch(cs, w0, p, NoC) && NocsEnd(cs, w0, p, n)
    ensures r.Taken? ==> |r.at| <= n && r.at == Range(w0, |r.at|)
                         && AllMatch(cs, w0, |r.at|, NoC) && NocsEnd(cs, w0, |r.at|, n)
  {
    hide Matches;
    var w, at := w0, [];
    var i := 0;
    while i < n
      invariant 0 <= i <= n && w == w0 + |at| && |at| <= i && AllMatch(cs, w0, |at|, NoC) && at == Range(w0, |at|)
      invariant |at| < i ==> w < |cs| && !Matches(cs[w], NoC)
    {
      if w >= |cs| {
        NocsMissing(cs, w0, |at|, n);
        return Stopped;
      }
      if Matches(cs[w], NoC) {
        at := at + [w];
        w := w + 1;
      }
      i := i + 1;
    }
    r := Taken(at);
    assert NocsEnd(cs, w0, |at|, n);
  }

  /** After p networks: that was all of them, or the next child exists and is something else. */
  ghost predicate NocsEnd(cs: seq<Child>, w0: nat, p: nat, n: nat) {
    p == n || (w0 + p < |cs| && !Matches(cs[w0 + p], NoC))
  }

  lemma NocsMissing(cs: seq<Child>, w0: nat, p: nat, n: nat)
    requires p < n && w0 + p >= |cs| && AllMatch(cs, w0, p, NoC)
    ensures forall q: nat :: q <= n && AllMatch(cs, w0, q, NoC) ==> !NocsEnd(cs, w0, q, n)
  {
    hide Matches;
    forall q: nat | p < q <= n ensures !AllMatch(cs, w0, q, NoC) {
      assert !IsKind(cs, w0 + p, NoC);
    }
    forall q: nat | q < p ensures !NocsEnd(cs, w0, q, n) {
      assert IsKind(cs, w0 + q, NoC);
    }
  }

  /** First child of each section, and the number of children before the memory controller. */
  function CoreCount(sys: System): nat { LastCore(sys.cores) + 1 }
  function L2DirStart(sys: System): nat { CoreCount(sys) + Count(sys.l1Dirs) }
  function L2Start(sys: System): nat { L2DirStart(sys) + Count(sys.l2Dirs) }
  function L3Start(sys: System): nat { L2Start(sys) + Count(sys.l2s) }
  function NocStart(sys: System): nat { L3Start(sys) + Count(sys.l3s) }
  function Total(sys: System): nat { NocStart(sys) + Count(sys.nocs) }

  /** The child read for unit u: after all sections, unless there is only one component in them. */
  function UnitAt(total: nat, u: nat): nat {
    if total > 1 then total + u else 0
  }

  function UnitKind(u: nat): Kind
    requires u < 4
  {
    if u == 0 then MemoryController else if u == 1 then Niu else if u == 2 then Pcie else Flash
  }

  function Units(total: nat, n: nat): (r: seq<nat>)
    ensures |r| == n && forall u :: 0 <= u < n ==> r[u] == UnitAt(total, u)
  {
    seq(n, u requires 0 <= u < n => UnitAt(total, u))
  }

  ghost predicate UnitsMatch(cs: seq<Child>, total: nat, n: nat)
    requires n <= 4
  {
    forall u: nat :: u < n ==> IsKind(cs, UnitAt(total, u), UnitKind(u))
  }

  ghost predicate NocsReadable(cs: seq<Child>, w: nat, n: nat) {
    exists p: nat :: p <= n && AllMatch(cs, w, p, NoC) && NocsEnd(cs, w, p, n)
  }

  /** The four units behind the sections; the cursor only advances from a positive value. */
  method ReadUnits(cs: seq<Child>, order0: nat) returns (r: Read)
    ensures if UnitsMatch(cs, order0 + 1, 4) then r == Taken(Units(order0 + 1, 4)) else r == Stopped
  {
    hide Matches;
    hide UnitKind;
    var order, at := order0, [];
    var u: nat := 0;
    while u < 4
      invariant u <= 4 && order == (if order0 > 0 then order0 + u else 0)
      invariant at == Units(order0 + 1, u) && UnitsMatch(cs, order0 + 1, u)
    {
      if order > 0 {
        order := order + 1;
      }
      assert order == UnitAt(order0 + 1, u);
      if order >= |cs| || !Matches(cs[order], UnitKind(u)) {
        assert !IsKind(cs, UnitAt(order0 + 1, u), UnitKind(u));
        return Stopped;
      }
      at := at + [order];
      u := u + 1;
    }
    r := Taken(at);
  }

  /** The sections between cores and units, in order. */
  method ReadCaches(cs: seq<Child>, sys: System) returns (ok: bool, l1Dirs: seq<nat>, l2Dirs: seq<nat>, l2s: seq<nat>,
                                                        l3s: seq<nat>, order: nat)
    ensures ok <==> && AllMatch(cs, CoreCount(sys), Count(sys.l1Dirs), L1Directory)
                    && AllMatch(cs, L2DirStart(sys), Count(sys.l2Dirs), L2Directory)
                    && AllMatch(cs, L2Start(sys), Count(sys.l2s), L2)
                    && AllMatch(cs, L3Start(sys), Count(sys.l3s), L3)
    ensures ok ==> l1Dirs == Range(CoreCount(sys), Count(sys.l1Dirs))
    ensures ok ==> l2Dirs == Range(L2DirStart(sys), Count(sys.l2Dirs))
    ensures ok ==> l2s == Range(L2Start(sys), Count(sys.l2s)) && l3s == Range(L3Start(sys), Count(sys.l3s))
    ensures ok ==> order + 1 == NocStart(sys)
  {
    hide AllMatch;
    ok, l1Dirs, l2Dirs, l2s, l3s := false, [], [], [], [];
    order := LastCore(sys.cores);

    var w, tmp := order + 1, order;
    order := order + Count(sys.l1Dirs);
    var r := ReadSection(cs, w, order - tmp, L1Directory);
    if r.Stopped? { return; }
    l1Dirs := r.at;

    w, tmp := order + 1, order;
    order := order + Count(sys.l2Dirs);
    r := ReadSection(cs, w, order - tmp, L2Directory);
    if r.Stopped? { return; }
    l2Dirs := r.at;

    w, tmp := order + 1, order;
    order := order + Count(sys.l2s);
    r := ReadSection(cs, w, order - tmp, L2);
    if r.Stopped? { return; }
    l2s := r.at;

    w, tmp := order + 1, order;
    order := order + Count(sys.l3s);
    r := ReadSection(cs, w, order - tmp, L3);
    if r.Stopped? { return; }
    l3s := r.at;
    ok := true;
  }

  /** What has to be where for the description to be read. */
  ghost predicate Readable(cs: seq<Child>, sys: System) {
    && AllMatch(cs, 0, CoreCount(sys), Core)
    && AllMatch(cs, CoreCount(sys), Count(sys.l1Dirs), L1Directory)
    && AllMatch(cs, L2DirStart(sys), Count(sys.l2Dirs), L2Directory)
    && AllMatch(cs, L2Start(sys), Count(sys.l2s), L2)
    && AllMatch(cs, L3Start(sys), Count(sys.l3s), L3)
    && NocsReadable(cs, NocStart(sys), Count(sys.nocs))
    && UnitsMatch(cs, Total(sys), 4)
  }

  ghost predicate LaidOut(sys: System, r: Layout)
    requires r.Parsed?
  {
    && r.cores == Range(0, CoreCount(sys))
    && r.l1Dirs == Range(CoreCount(sys), Count(sys.l1Dirs)) && r.l2Dirs == Range(L2DirStart(sys), Count(sys.l2Dirs))
    && r.l2s == Range(L2Start(sys), Count(sys.l2s)) && r.l3s == Range(L3Start(sys), Count(sys.l3s))
    && |r.nocs| <= Count(sys.nocs) && r.nocs == Range(NocStart(sys), |r.nocs|)
    && r.units == Units(Total(sys), 4)
  }

  /** The component part of parse: it stops unless the description is readable as laid out. */
  method Parse(cs: seq<Child>, sys: System) returns (r: Layout)
    ensures cs == [] ==> r == Nothing
    ensures cs != [] ==> r == Exit || r.Parsed?
    ensures cs != [] ==> (r.Parsed? <==> Readable(cs, sys))
    ensures r.Parsed? ==> LaidOut(sys, r)
    ensures r.Parsed? ==> AllMatch(cs, NocStart(sys), |r.nocs|, NoC)
    ensures r.Parsed? ==> (|r.nocs| == Count(sys.nocs) <==> AllMatch(cs, NocStart(sys), Count(sys.nocs), NoC))
  {
    if cs == [] {
      return Nothing;
    }
    hide UnitsMatch;
    hide NocsReadable;
    var cores := ReadSection(cs, 0, LastCore(sys.cores) + 1, Core);
    if cores.Stopped? {
      return Exit;
    }
    var ok, l1Dirs, l2Dirs, l2s, l3s, order := ReadCaches(cs, sys);
    if !ok {
      return Exit;
    }
    var w, tmp := order + 1, order;
    order := order + Count(sys.nocs);
    var nocs := ReadNocs(cs, w, order - tmp);
    NocsReadableMeans(cs, w, order - tmp);
    if nocs.Stopped? {
      return Exit;
    }
    NocsComplete(cs, w, order - tmp, |nocs.at|);
    var units := ReadUnits(cs, order);
    if units.Stopped? {
      return Exit;
    }
    r := Parsed(cores.at, l1Dirs, l2Dirs, l2s, l3s, nocs.at, units.at);
  }

  lemma NocsReadableMeans(cs: seq<Child>, w: nat, n: nat)
    ensures NocsReadable(cs, w, n) <==> exists p: nat :: p <= n && AllMatch(cs, w, p, NoC) && NocsEnd(cs, w, p, n)
  {
  }

  lemma NocsComplete(cs: seq<Child>, w: nat, n: nat, p: nat)
    requires p <= n && AllMatch(cs, w, p, NoC) && NocsEnd(cs, w, p, n)
    ensures p == n <==> AllMatch(cs, w, n, NoC)
  {
    if p < n {
      assert !IsKind(cs, w + p, NoC);
    }
  }

  /** Every child index in the order it is read. */
  function ReadOrder(r: Layout): seq<nat>
    requires r.Parsed?
  {
    r.cores + r.l1Dirs + r.l2Dirs + r.l2s + r.l3s + r.nocs + r.units
  }

  lemma RangeJoin(a: nat, n: nat, m: nat)
    ensures Range(a, n) + Range(a + n, m) == Range(a, n + m)
  {
  }

  lemma SectionsJoin(sys: System, r: Layout)
    requires r.Parsed? && LaidOut(sys, r)
    ensures r.cores + r.l1Dirs + r.l2Dirs + r.l2s + r.l3s + r.nocs == Range(0, NocStart(sys) + |r.nocs|)
  {
    hide Range;
    RangeJoin(0, CoreCount(sys), Count(sys.l1Dirs));
    RangeJoin(0, L2DirStart(sys), Count(sys.l2Dirs));
    RangeJoin(0, L2Start(sys), Count(sys.l2s));
    RangeJoin(0, L3Start(sys), Count(sys.l3s));
    RangeJoin(0, NocStart(sys), |r.nocs|);
  }

  /**
   The children are read from the first on, without gap or repetition, exactly when every network entry matches and
   there is more than one component ahead of the memory controller.
   */
  lemma EachChildOnce(sys: System, r: Layout)
    requires r.Parsed? && LaidOut(sys, r)
    ensures ReadOrder(r) == Range(0, Total(sys) + 4) <==> |r.nocs| == Count(sys.nocs) && Total(sys) > 1
  {
    SectionsJoin(sys, r);
    var head := Range(0, NocStart(sys) + |r.nocs|);
    assert ReadOrder(r) == head + r.units;
    if |r.nocs| == Count(sys.nocs) {
      if Total(sys) > 1 {
        assert r.units == Range(Total(sys), 4);
        RangeJoin(0, Total(sys), 4);
      } else {
        assert (head + r.units)[1] == 0 != Range(0, Total(sys) + 4)[1];
      }
    } else {
      assert |head + r.units| < Total(sys) + 4;
    }
  }

  /** With a single component ahead of it, the memory controller is looked for where the core is. */
  lemma LoneCore(cs: seq<Child>, sys: System)
    requires Total(sys) == 1
    ensures Readable(cs, sys) ==> |cs| > 0 && Matches(cs[0], Core) && Matches(cs[0], MemoryController)
                                  && Matches(cs[0], Niu) && Matches(cs[0], Pcie) && Matches(cs[0], Flash)
  {
    hide Matches;
    if Readable(cs, sys) {
      assert IsKind(cs, 0, Core);
      assert IsKind(cs, UnitAt(1, 0), UnitKind(0)) && IsKind(cs, UnitAt(1, 1), UnitKind(1));
      assert IsKind(cs, UnitAt(1, 2), UnitKind(2)) && IsKind(cs, UnitAt(1, 3), UnitKind(3));
    }
  }

  // ----- what is read, by the names in the description -----

  /** t occurs in s. */
  ghost predicate Occurs(s: string, t: string) {
    exists a: string, b: string :: s == a + t + b
  }

  lemma ContainsIsOccurs(s: string, t: string)
    ensures Contains(s, t) <==> Occurs(s, t)
  {
    if i :| 0 <= i <= |s| - |t| && OccursAt(s, t, i) {
      assert s == s[..i] + t + s[i + |t|..];
    }
    if a: string, b: string :| s == a + t + b {
      assert s[|a|..|a| + |t|] == t;
      assert OccursAt(s, t, |a|);
    }
  }

  ghost predicate Named(cs: seq<Child>, at: seq<nat>, t: string) {
    forall i :: 0 <= i < |at| ==> at[i] < |cs| && Occurs(cs[at[i]].name, t)
  }

  ghost predicate Identified(cs: seq<Child>, at: seq<nat>, t: string) {
    forall i :: 0 <= i < |at| ==> at[i] < |cs| && Occurs(cs[at[i]].id, t)
  }

  lemma RangeNamed(cs: seq<Child>, from: nat, n: nat, k: Kind)
    requires AllMatch(cs, from, n, k)
    ensures k == Core ==> Named(cs, Range(from, n), "core")
    ensures k == L1Directory ==> Identified(cs, Range(from, n), "L1Directory")
    ensures k == L2Directory ==> Identified(cs, Range(from, n), "L2Directory")
    ensures k == L2 ==> Named(cs, Range(from, n), "L2")
    ensures k == L3 ==> Named(cs, Range(from, n), "L3")
    ensures k == NoC ==> Named(cs, Range(from, n), "noc")
  {
    hide Occurs;
    hide Matches;
    var at := Range(from, n);
    forall i | 0 <= i < |at| ensures at[i] < |cs| && Recognized(cs[at[i]], k) {
      assert IsKind(cs, at[i], k);
      KindNamed(cs[at[i]], k);
    }
  }

  ghost predicate Recognized(c: Child, k: Kind) {
    && (k == Core ==> Occurs(c.name, "core")) && (k == L1Directory ==> Occurs(c.id, "L1Directory"))
    && (k == L2Directory ==> Occurs(c.id, "L2Directory")) && (k == L2 ==> Occurs(c.name, "L2"))
    && (k == L3 ==> Occurs(c.name, "L3")) && (k == NoC ==> Occurs(c.name, "noc"))
    && (k == MemoryController ==> Occurs(c.id, "system.mc")) && (k == Niu ==> Occurs(c.id, "system.niu"))
    && (k == Pcie ==> Occurs(c.id, "system.pcie")) && (k == Flash ==> Occurs(c.id, "system.flashc"))
  }

  /** What each kind of component is recognized by. */
  lemma KindNamed(c: Child, k: Kind)
    requires Matches(c, k)
    ensures Recognized(c, k)
  {
    match k
    case Core => ContainsIsOccurs(c.name, "core");
    case L1Directory => ContainsIsOccurs(c.id, "L1Directory");
    case L2Directory => ContainsIsOccurs(c.id, "L2Directory");
    case L2 => ContainsIsOccurs(c.name, "L2");
    case L3 => ContainsIsOccurs(c.name, "L3");
    case NoC => ContainsIsOccurs(c.name, "noc");
    case MemoryController => ContainsIsOccurs(c.id, "system.mc");
    case Niu => ContainsIsOccurs(c.id, "system.niu");
    case Pcie => ContainsIsOccurs(c.id, "system.pcie");
    case Flash => ContainsIsOccurs(c.id, "system.flashc");
  }

  /** Homogeneous sections have one entry, others as many as given. */
  ghost predicate Sized(s: Section, at: seq<nat>) {
    |at| == if s.homogeneous then 1 else s.number
  }

  /** Zero heterogeneous cores wrap around to 2^32. */
  ghost predicate CoresSized(s: Section, at: seq<nat>) {
    && (s.homogeneous ==> |at| == 1)
    && (!s.homogeneous && 0 < s.number < 0x1_0000_0000 ==> |at| == s.number)
    && (!s.homogeneous && s.number == 0 ==> |at| == 0x1_0000_0000)
  }

  /**
   A description that is read: as many entries of each section as it gives, every one a component with the name or
   identifier of its section, and the four units in order.
   */
  lemma ReadByName(cs: seq<Child>, sys: System, r: Layout)
    requires r.Parsed? && Readable(cs, sys) && LaidOut(sys, r) && AllMatch(cs, NocStart(sys), |r.nocs|, NoC)
    ensures CoresSized(sys.cores, r.cores) && Named(cs, r.cores, "core")
    ensures Sized(sys.l1Dirs, r.l1Dirs) && Identified(cs, r.l1Dirs, "L1Directory")
    ensures Sized(sys.l2Dirs, r.l2Dirs) && Identified(cs, r.l2Dirs, "L2Directory")
    ensures Sized(sys.l2s, r.l2s) && Named(cs, r.l2s, "L2")
    ensures Sized(sys.l3s, r.l3s) && Named(cs, r.l3s, "L3")
    ensures (sys.nocs.homogeneous ==> |r.nocs| <= 1) && (!sys.nocs.homogeneous ==> |r.nocs| <= sys.nocs.number)
    ensures Named(cs, r.nocs, "noc")
    ensures |r.units| == 4 && forall u :: 0 <= u < 4 ==> r.units[u] < |cs|
    ensures Occurs(cs[r.units[0]].id, "system.mc") && Occurs(cs[r.units[1]].id, "system.niu")
    ensures Occurs(cs[r.units[2]].id, "system.pcie") && Occurs(cs[r.units[3]].id, "system.flashc")
  {
    hide Matches;
    hide Named;
    hide Identified;
    hide Occurs;
    hide AllMatch;
    RangeNamed(cs, 0, CoreCount(sys), Core);
    RangeNamed(cs, CoreCount(sys), Count(sys.l1Dirs), L1Directory);
    RangeNamed(cs, L2DirStart(sys), Count(sys.l2Dirs), L2Directory);
    RangeNamed(cs, L2Start(sys), Count(sys.l2s), L2);
    RangeNamed(cs, L3Start(sys), Count(sys.l3s), L3);
    RangeNamed(cs, NocStart(sys), |r.nocs|, NoC);
    forall u: nat | u < 4 ensures r.units[u] < |cs| && Matches(cs[r.units[u]], UnitKind(u)) {
      assert IsKind(cs, UnitAt(Total(sys), u), UnitKind(u));
    }
    KindNamed(cs[r.units[0]], UnitKind(0));
    KindNamed(cs[r.units[1]], UnitKind(1));
    KindNamed(cs[r.units[2]], UnitKind(2));
    KindNamed(cs[r.units[3]], UnitKind(3));
  }
}
