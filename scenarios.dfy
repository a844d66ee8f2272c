/**
 * The four kernel sessions of skyfield/tests/test_jpllib.py, replayed on the
 * model with small stand-in kernels: each method builds a kernel, edits its
 * segment list the way the session does, and promises what the session
 * asserts. Times are whole Julian days, and whole days of July 1969 for the
 * Pluto kernel.
 */
module Scenarios {
  import opened Wrappers
  import opened Segments
  import opened Stacks
  import opened Names
  import opened Views
  import opened VectorSums
  import opened Resolution
  import opened Lookups
  import opened Kernel

  // ---- a name table written body by body ----

  /** A name table listed body by body: each code followed by its names. */
  function Table(groups: seq<(Code, seq<string>)>): NameTable {
    if groups == [] then [] else Entries(groups[0].0, groups[0].1) + Table(groups[1..])
  }

  /** A table's names for `c`: the first body's run when it is `c`, then the rest's. */
  lemma NamesOfTableStep(groups: seq<(Code, seq<string>)>, c: Code)
    requires groups != []
    ensures NamesOf(Table(groups), c) ==
      (if groups[0].0 == c then groups[0].1 else []) + NamesOf(Table(groups[1..]), c)
  {
    NamesOfConcat(Entries(groups[0].0, groups[0].1), Table(groups[1..]), c);
    NamesOfEntries(groups[0].0, groups[0].1, c);
  }

  /** In a table whose bodies are listed once each, a body's names are exactly its run. */
  lemma {:induction false} NamesOfTable(groups: seq<(Code, seq<string>)>, i: nat)
    requires i < |groups|
    requires forall j, k :: 0 <= j < k < |groups| ==> groups[j].0 != groups[k].0
    ensures NamesOf(Table(groups), groups[i].0) == groups[i].1
    decreases |groups|
  {
    var c := groups[i].0;
    var rest := groups[1..];
    NamesOfTableStep(groups, c);
    if i == 0 {
      assert forall j :: 0 <= j < |rest| ==> rest[j].0 != c by {
        assert forall j :: 0 <= j < |rest| ==> rest[j] == groups[j + 1];
      }
      NamesOfTableAbsent(rest, c);
    } else {
      assert rest[i - 1] == groups[i];
      assert forall j, k :: 0 <= j < k < |rest| ==> rest[j].0 != rest[k].0 by {
        assert forall j :: 0 <= j < |rest| ==> rest[j] == groups[j + 1];
      }
      NamesOfTable(rest, i - 1);
    }
  }

  lemma {:induction false} NamesOfTableAbsent(groups: seq<(Code, seq<string>)>, c: Code)
    requires forall j :: 0 <= j < |groups| ==> groups[j].0 != c
    ensures NamesOf(Table(groups), c) == []
    decreases |groups|
  {
    if groups != [] {
      NamesOfTableStep(groups, c);
      NamesOfTableAbsent(groups[1..], c);
    }
  }

  /** A name found in one body's run and in no later run belongs to that body. */
  lemma {:induction false} CodeOfTable(groups: seq<(Code, seq<string>)>, i: nat, n: string)
    requires i < |groups| && n in groups[i].1
    requires forall j :: i < j < |groups| ==> n !in groups[j].1
    ensures CodeOfExact(Table(groups), n) == Some(groups[i].0)
    decreases |groups|
  {
    CodeOfExactConcat(Entries(groups[0].0, groups[0].1), Table(groups[1..]), n);
    CodeOfExactEntries(groups[0].0, groups[0].1, n);
    if i == 0 {
      CodeOfTableAbsent(groups[1..], n);
    } else {
      CodeOfTable(groups[1..], i - 1, n);
    }
  }

  lemma {:induction false} CodeOfTableAbsent(groups: seq<(Code, seq<string>)>, n: string)
    requires forall j :: 0 <= j < |groups| ==> n !in groups[j].1
    ensures CodeOfExact(Table(groups), n) == None
    decreases |groups|
  {
    if groups != [] {
      CodeOfExactConcat(Entries(groups[0].0, groups[0].1), Table(groups[1..]), n);
      CodeOfExactEntries(groups[0].0, groups[0].1, n);
      CodeOfTableAbsent(groups[1..], n);
    }
  }

  // ---- the names the sessions show ----

  const SsbNames: seq<string> := ["SOLAR_SYSTEM_BARYCENTER", "SSB", "SOLAR SYSTEM BARYCENTER"]
  const EmbNames: seq<string> :=
    ["EARTH_BARYCENTER", "EMB", "EARTH MOON BARYCENTER", "EARTH-MOON BARYCENTER", "EARTH BARYCENTER"]
  const MarsNames: seq<string> := ["MARS_BARYCENTER", "MARS BARYCENTER"]
  const PlutoNames: seq<string> := ["PLUTO_BARYCENTER", "PLUTO BARYCENTER"]
  const SampleGroups: seq<(Code, seq<string>)> :=
    [(0, SsbNames), (3, EmbNames), (4, MarsNames), (9, PlutoNames), (301, ["MOON"]), (399, ["EARTH"])]

  function SampleNames(): NameTable { Table(SampleGroups) }

  lemma SampleGroupsDistinct()
    ensures forall j, k :: 0 <= j < k < |SampleGroups| ==> SampleGroups[j].0 != SampleGroups[k].0
  {
  }

  lemma SampleNamesOf()
    ensures NamesOf(SampleNames(), 0) == SsbNames
    ensures NamesOf(SampleNames(), 3) == EmbNames
    ensures NamesOf(SampleNames(), 4) == MarsNames
    ensures NamesOf(SampleNames(), 301) == ["MOON"]
    ensures NamesOf(SampleNames(), 399) == ["EARTH"]
  {
    SampleNamesOfSsb();
    SampleNamesOfEmb();
    SampleNamesOfMars();
    SampleNamesOfMoon();
    SampleNamesOfEarth();
  }

  lemma SampleNamesOfSsb()
    ensures NamesOf(SampleNames(), 0) == SsbNames
  {
    SampleGroupsDistinct();
    NamesOfTable(SampleGroups, 0);
  }

  lemma SampleNamesOfEmb()
    ensures NamesOf(SampleNames(), 3) == EmbNames
  {
    SampleGroupsDistinct();
    NamesOfTable(SampleGroups, 1);
  }

  lemma SampleNamesOfMars()
    ensures NamesOf(SampleNames(), 4) == MarsNames
  {
    SampleGroupsDistinct();
    NamesOfTable(SampleGroups, 2);
  }

  lemma SampleNamesOfMoon()
    ensures NamesOf(SampleNames(), 301) == ["MOON"]
  {
    SampleGroupsDistinct();
    NamesOfTable(SampleGroups, 4);
  }

  lemma SampleNamesOfEarth()
    ensures NamesOf(SampleNames(), 399) == ["EARTH"]
  {
    SampleGroupsDistinct();
    NamesOfTable(SampleGroups, 5);
  }

  // ---- stand-in kernels ----

  function Seg(center: Code, target: Code, start: Time, end: Time, file: string): Segment {
    Segment(center, target, start, end, file, [])
  }

  /** de421.bsp, JD 2414864 to 2471184 */
  const S02 := Seg(0, 2, 2414864, 2471184, "de421.bsp")
  const S03 := Seg(0, 3, 2414864, 2471184, "de421.bsp")
  const S04 := Seg(0, 4, 2414864, 2471184, "de421.bsp")
  const S301 := Seg(3, 301, 2414864, 2471184, "de421.bsp")
  const S399 := Seg(3, 399, 2414864, 2471184, "de421.bsp")
  const De421: seq<Segment> := [S02, S03, S04, S301, S399]

  /** de405.bsp, JD 2305424 to 2525008 */
  const T02 := Seg(0, 2, 2305424, 2525008, "de405.bsp")
  const T03 := Seg(0, 3, 2305424, 2525008, "de405.bsp")
  const De405: seq<Segment> := [T02, T03]

  /** de441-1969.bsp: Pluto's barycenter comes in two consecutive segments. */
  const P1 := Seg(0, 9, 28, 30, "de441-1969.bsp")
  const P2 := Seg(0, 9, 30, 32, "de441-1969.bsp")
  const De441Excerpt: seq<Segment> := [P1, P2]

  /** The sessions' `[s for s in segments if s.target in targets]`. */
  function KeepTargets(segs: seq<Segment>, targets: set<Code>): (r: seq<Segment>)
    ensures forall i :: 0 <= i < |r| ==> r[i].target in targets
    ensures |r| <= |segs|
  {
    if segs == [] then []
    else (if segs[0].target in targets then [segs[0]] else []) + KeepTargets(segs[1..], targets)
  }

  /** The filter keeps every segment whose target is listed, and no other. */
  lemma {:induction false} KeepTargetsMembers(segs: seq<Segment>, targets: set<Code>)
    ensures forall s :: s in KeepTargets(segs, targets) <==> s in segs && s.target in targets
    decreases |segs|
  {
    if segs != [] {
      KeepTargetsMembers(segs[1..], targets);
      assert segs == [segs[0]] + segs[1..];
    }
  }

  /** The filter keeps list order: filtering a joined list joins the filtered parts. */
  lemma {:induction false} KeepTargetsAppend(a: seq<Segment>, b: seq<Segment>, targets: set<Code>)
    ensures KeepTargets(a + b, targets) == KeepTargets(a, targets) + KeepTargets(b, targets)
    decreases |a|
  {
    if a == [] {
      assert a + b == b;
    } else {
      var ab := a + b;
      var h: seq<Segment> := if a[0].target in targets then [a[0]] else [];
      assert ab[0] == a[0] && ab[1..] == a[1..] + b;
      calc {
        KeepTargets(ab, targets);
        h + KeepTargets(a[1..] + b, targets);
        { KeepTargetsAppend(a[1..], b, targets); }
        h + (KeepTargets(a[1..], targets) + KeepTargets(b, targets));
        (h + KeepTargets(a[1..], targets)) + KeepTargets(b, targets);
        KeepTargets(a, targets) + KeepTargets(b, targets);
      }
    }
  }

  /** One segment is kept exactly when its target is one of the targets. */
  lemma KeepTargetsSingle(x: Segment, targets: set<Code>)
    ensures KeepTargets([x], targets) == if x.target in targets then [x] else []
  {
    var none: seq<Segment> := [];
    assert [x][1..] == none;
  }

  /** The three filters the sessions apply to de421.bsp. */
  lemma KeepTargetsDe421(targets: set<Code>)
    requires targets == {3, 4} || targets == {301, 399} || targets == {399}
    ensures targets == {3, 4} ==> KeepTargets(De421, targets) == [S03, S04]
    ensures targets == {301, 399} ==> KeepTargets(De421, targets) == [S301, S399]
    ensures targets == {399} ==> KeepTargets(De421, targets) == [S399]
  {
    var d1 := [S03, S04, S301, S399];
    assert De421[1..] == d1;
    assert KeepTargets(De421, targets) == KeepTargets(d1, targets);
    KeepTargetsTail(targets);
  }

  lemma KeepTargetsTail(targets: set<Code>)
    requires targets == {3, 4} || targets == {301, 399} || targets == {399}
    ensures targets == {3, 4} ==> KeepTargets([S03, S04, S301, S399], targets) == [S03, S04]
    ensures targets == {301, 399} ==> KeepTargets([S03, S04, S301, S399], targets) == [S301, S399]
    ensures targets == {399} ==> KeepTargets([S03, S04, S301, S399], targets) == [S399]
  {
    var d1, d2, d3, d4 := [S03, S04, S301, S399], [S04, S301, S399], [S301, S399], [S399];
    var none: seq<Segment> := [];
    assert d1[1..] == d2 && d2[1..] == d3 && d3[1..] == d4 && d4[1..] == none;
    var k4 := KeepTargets(d4, targets);
    var k3 := KeepTargets(d3, targets);
    var k2 := KeepTargets(d2, targets);
    assert k3 == (if 301 in targets then [S301] else []) + k4;
    assert k2 == (if 4 in targets then [S04] else []) + k3;
    assert KeepTargets(d1, targets) == (if 3 in targets then [S03] else []) + k2;
    assert k4 == (if 399 in targets then [S399] else []) + KeepTargets(none, targets);
  }

  /** The filter test_adding_segments_to_ephemeris applies to de405.bsp. */
  lemma KeepTargetsDe405()
    ensures KeepTargets(De405, {3}) == [T03]
  {
    assert De405[1..] == [T03] && [T03][1..] == [];
  }

  // ---- views shared by the sessions ----

  /** When every code of the kernel has names, `names()` has a key for every code. */
  lemma NamesViewAllNamed(segs: seq<Segment>, table: NameTable)
    requires forall c :: c in Codes(segs) ==> NamesOf(table, c) != []
    ensures NamesView(segs, table).Keys == Codes(segs)
    ensures forall c :: c in Codes(segs) ==> NamesView(segs, table)[c] == NamesOf(table, c)
  {
    var cs := Codes(segs);
    assert cs * TableCodes(table) == cs;
  }

  lemma ReprOfOne()
    ensures ReprText(["de421.bsp"]) == "<SpiceKernel 'de421.bsp'>"
  {
    assert QuotedList(["de421.bsp"]) == " '" + "de421.bsp" + "'" by {
      assert ["de421.bsp"][1..] == [];
    }
  }

  lemma ReprOfTwo()
    ensures ReprText(["de405.bsp", "de421.bsp"]) == "<SpiceKernel 'de405.bsp' 'de421.bsp'>"
  {
    var fs := ["de405.bsp", "de421.bsp"];
    assert fs[1..] == ["de421.bsp"] && ["de421.bsp"][1..] == [];
    assert QuotedList(fs) == " '" + "de405.bsp" + "'" + " '" + "de421.bsp" + "'";
  }

  // ---- test_removing_segments_from_ephemeris ----

  /** Only the Earth and Mars barycenters are kept from de421.bsp. */
  method RemovingSegments() returns (eph: SpiceKernel)
    ensures |eph.segments| == 2
    ensures !eph.Contains(2) && eph.Contains(3)
    ensures eph.Codes() == {0, 3, 4}
    ensures eph.NameMap(SampleNames()).Keys == {0, 3, 4}
    ensures eph.NameMap(SampleNames())[0] == SsbNames && eph.NameMap(SampleNames())[3] == EmbNames
    ensures eph.NameMap(SampleNames())[4] == MarsNames
    ensures eph.Repr() == "<SpiceKernel 'de421.bsp'>"
    ensures eph.Get(SampleNames(), ByCode(4)) == Ok(Leg(Single(S04)))
    ensures eph.Get(SampleNames(), ByCode(5)) == Err(Missing(ByCode(5)))
  {
    eph := new SpiceKernel(De421);
    KeepTargetsDe421({3, 4});
    eph.Replace(KeepTargets(eph.segments, {3, 4}));
    RemovedViews(eph.segments);
    RemovedLookups(eph.segments, eph);
  }

  lemma RemovedCodes()
    ensures Views.Codes([S03, S04]) == {0, 3, 4}
  {
    var segs := [S03, S04];
    assert segs[0].Touches(0) && segs[0].Touches(3) && segs[1].Touches(4);
  }

  lemma RemovedFiles()
    ensures Views.Files([S03, S04]) == ["de421.bsp"]
  {
    FilesOfOneFile([S03, S04], "de421.bsp");
  }

  lemma RemovedViews(segs: seq<Segment>)
    requires segs == [S03, S04]
    ensures Views.Codes(segs) == {0, 3, 4}
    ensures NamesView(segs, SampleNames()).Keys == {0, 3, 4}
    ensures NamesView(segs, SampleNames())[0] == SsbNames && NamesView(segs, SampleNames())[3] == EmbNames
    ensures NamesView(segs, SampleNames())[4] == MarsNames
    ensures ReprText(Views.Files(segs)) == "<SpiceKernel 'de421.bsp'>"
  {
    RemovedCodes();
    SampleNamesOf();
    NamesViewAllNamed(segs, SampleNames());
    RemovedFiles();
    ReprOfOne();
  }

  lemma RemovedLookups<K>(segs: seq<Segment>, owner: K)
    requires segs == [S03, S04]
    ensures Lookup(segs, SampleNames(), owner, ByCode(4)) == Ok(Leg(Single(S04)))
    ensures Lookup(segs, SampleNames(), owner, ByCode(5)) == Err(Missing(ByCode(5)))
  {
    RemovedCodes();
    assert 4 in Views.Codes(segs) && 5 !in Views.Codes(segs);
    MarsPath(owner);
    LookupFindsRootPath(segs, SampleNames(), owner, ByCode(4), [Single(S04)]);
  }

  lemma MarsPath<K>(owner: K)
    ensures RootPath([S03, S04], owner, 4, [Single(S04)])
  {
    MarsEdge(owner);
    var chain: seq<Edge<K>> := [Single(S04)];
    assert IsEdgeOf([S03, S04], owner, chain[0]);
  }

  lemma MarsEdge<K>(owner: K)
    ensures EdgeFor([S03, S04], 4, owner) == Ok(Some(Single(S04)))
  {
    var segs := [S03, S04];
    var none: seq<Segment> := [];
    assert segs[1..] == [S04] && [S04][1..] == none && Group(none, 4) == [] && [S04] + none == [S04];
    assert S04.target == 4;
    assert Group([S04], 4) == [S04] + Group([S04][1..], 4);
    assert Group(segs, 4) == [S04];
  }

  // ---- test_adding_segments_to_ephemeris ----

  /**
   * The Earth barycenter from de405.bsp, then the Moon and the Earth from
   * de421.bsp appended to the same list.
   */
  method AddingSegments() returns (eph: SpiceKernel)
    ensures |eph.segments| == 3
    ensures !eph.Contains(2) && eph.Contains(3) && eph.Contains(301)
    ensures eph.Codes() == {0, 3, 301, 399}
    ensures eph.NameMap(SampleNames()).Keys == {0, 3, 301, 399}
    ensures eph.NameMap(SampleNames())[0] == SsbNames && eph.NameMap(SampleNames())[3] == EmbNames
    ensures eph.NameMap(SampleNames())[301] == ["MOON"] && eph.NameMap(SampleNames())[399] == ["EARTH"]
    ensures eph.Repr() == "<SpiceKernel 'de405.bsp' 'de421.bsp'>"
    ensures eph.Get(SampleNames(), ByCode(399)) == Ok(VectorSum(0, 399, [Single(T03), Single(S399)]))
    ensures eph.Get(SampleNames(), ByCode(4)) == Err(Missing(ByCode(4)))
  {
    eph := new SpiceKernel(De405);
    KeepTargetsDe405();
    eph.Replace(KeepTargets(eph.segments, {3}));
    var eph2 := new SpiceKernel(De421);
    KeepTargetsDe421({301, 399});
    eph.Extend(KeepTargets(eph2.segments, {301, 399}));
    assert eph.segments == [T03, S301, S399];
    AddedViews(eph.segments);
    AddedLookups(eph.segments, eph);
  }

  lemma AddedViews(segs: seq<Segment>)
    requires segs == [T03, S301, S399]
    ensures Views.Codes(segs) == {0, 3, 301, 399}
    ensures NamesView(segs, SampleNames()).Keys == {0, 3, 301, 399}
    ensures NamesView(segs, SampleNames())[0] == SsbNames && NamesView(segs, SampleNames())[3] == EmbNames
    ensures NamesView(segs, SampleNames())[301] == ["MOON"] && NamesView(segs, SampleNames())[399] == ["EARTH"]
    ensures ReprText(Views.Files(segs)) == "<SpiceKernel 'de405.bsp' 'de421.bsp'>"
  {
    AddedCodes();
    SampleNamesOf();
    NamesViewAllNamed(segs, SampleNames());
    AddedFiles();
    ReprOfTwo();
  }

  lemma AddedFiles()
    ensures Views.Files([T03, S301, S399]) == ["de405.bsp", "de421.bsp"]
  {
    var a, b := [T03], [S301, S399];
    assert a + b == [T03, S301, S399];
    FilesOfTwoFiles(a, b, "de405.bsp", "de421.bsp");
  }

  lemma AddedCodes()
    ensures Views.Codes([T03, S301, S399]) == {0, 3, 301, 399}
  {
    var segs := [T03, S301, S399];
    assert segs[0].Touches(0) && segs[0].Touches(3) && segs[1].Touches(301) && segs[2].Touches(399);
  }

  lemma AddedGroups()
    ensures Group([T03, S301, S399], 3) == [T03]
    ensures Group([T03, S301, S399], 399) == [S399]
  {
    var s := [T03, S301, S399];
    assert s[1..] == [S301, S399] && [S301, S399][1..] == [S399] && [S399][1..] == [];
    var none: seq<Segment> := [];
    assert Group(none, 399) == [] && [S399] + none == [S399];
    assert S399.target == 399;
    assert Group([S399], 399) == [S399] + Group([S399][1..], 399);
    assert Group([S399], 3) == [] && Group([S399], 399) == [S399];
    assert Group([S301, S399], 3) == [] && Group([S301, S399], 399) == [S399];
  }

  lemma AddedLookups<K>(segs: seq<Segment>, owner: K)
    requires segs == [T03, S301, S399]
    ensures Lookup(segs, SampleNames(), owner, ByCode(399)) == Ok(VectorSum(0, 399, [Single(T03), Single(S399)]))
    ensures Lookup(segs, SampleNames(), owner, ByCode(4)) == Err(Missing(ByCode(4)))
  {
    AddedCodes();
    assert 4 !in Views.Codes(segs);
    EarthPath(owner);
    LookupFindsRootPath(segs, SampleNames(), owner, ByCode(399), [Single(T03), Single(S399)]);
  }

  /** Earth barycenter from de405.bsp, then the Earth from de421.bsp. */
  lemma EarthPath<K>(owner: K)
    ensures RootPath([T03, S301, S399], owner, 399, [Single(T03), Single(S399)])
  {
    var segs := [T03, S301, S399];
    AddedGroups();
    assert EdgeFor(segs, 3, owner) == Ok(Some(Single(T03)));
    assert EdgeFor(segs, 399, owner) == Ok(Some(Single(S399)));
    var chain: seq<Edge<K>> := [Single(T03), Single(S399)];
    assert IsEdgeOf(segs, owner, chain[0]) && IsEdgeOf(segs, owner, chain[1]);
  }

  // ---- test_ephemeris_lacking_segments_to_connect_to_barycenter ----

  /** Only the Earth is kept from de421.bsp: nothing links its center, the Earth barycenter, to the barycenter. */
  method LackingLink() returns (eph: SpiceKernel)
    ensures eph.segments == [S399]
    ensures eph.Get(SampleNames(), ByName("Earth")) == Err(NoBarycenterLink(ByName("Earth")))
  {
    eph := new SpiceKernel(De421);
    KeepTargetsDe421({399});
    eph.Replace(KeepTargets(eph.segments, {399}));
    EarthUnreachable(eph.segments, eph);
  }

  lemma EarthUnreachable<K>(segs: seq<Segment>, owner: K)
    requires segs == [S399]
    ensures Lookup(segs, SampleNames(), owner, ByName("Earth")) == Err(NoBarycenterLink(ByName("Earth")))
  {
    var key := ByName("Earth");
    EarthCode();
    assert KeyCode(SampleNames(), key) == Some(399);
    assert segs[0].Touches(399);
    EarthWalk(owner, key);
  }

  lemma EarthWalk<K>(owner: K, key: Key)
    ensures Walk([S399], owner, key, 399, {}) == Err(NoBarycenterLink(key))
  {
    EarthEdges(owner);
    assert Walk([S399], owner, key, 3, {399}) == Err(NoBarycenterLink(key));
  }

  lemma EarthCode()
    ensures CodeOf(SampleNames(), "Earth") == Some(399)
  {
    assert Upper("Earth") == "EARTH";
    CodeOfTable(SampleGroups, 5, "EARTH");
  }

  /** With the Earth alone, the Earth's edge starts at the Earth barycenter, which has no edge. */
  lemma EarthEdges<K>(owner: K)
    ensures EdgeFor([S399], 399, owner) == Ok(Some(Single(S399)))
    ensures EdgeFor([S399], 3, owner) == Ok(None)
  {
    var segs := [S399];
    var none: seq<Segment> := [];
    assert segs[1..] == none && Group(none, 399) == [] && Group(none, 3) == [] && [S399] + none == [S399];
    assert S399.target == 399;
    assert Group(segs, 399) == [S399] + Group(segs[1..], 399);
    assert Group(segs, 3) == Group(segs[1..], 3);
  }

  // ---- test_multiple_non_overlapping_segments_per_target ----

  /**
   * Pluto's barycenter comes from two consecutive segments of one file, so
   * the lookup yields a Stack of both that refers back to the kernel, and
   * evaluation at four days routes the first two days to the first segment
   * and the last two to the second.
   */
  method MultipleSegmentsPerTarget(ev: Evaluator) returns (eph: SpiceKernel, pluto: Vector<SpiceKernel>, xyz: seq<Vec>)
    ensures eph.segments == De441Excerpt
    ensures pluto == Leg(Stack(0, 9, [P1, P2], eph))
    ensures xyz == [ev(P1, 28), ev(P1, 29), ev(P2, 30), ev(P2, 31)]
  {
    eph := new SpiceKernel(De441Excerpt);
    PlutoIsAStack(eph.segments, eph);
    pluto := eph.Get(SampleNames(), ByName("pluto barycenter")).value;
    PlutoPositions(eph, ev);
    xyz := ValuesAt(pluto, ev, [28, 29, 30, 31]).value;
  }

  lemma PlutoGroup()
    ensures Group(De441Excerpt, 9) == [P1, P2]
    ensures SortByStart([P1, P2]) == [P1, P2]
  {
    var s := De441Excerpt;
    var none: seq<Segment> := [];
    assert s[1..] == [P2] && [P2][1..] == none && Group(none, 9) == [] && [P2] + none == [P2];
    assert P1.target == 9 && P2.target == 9;
    assert Group([P2], 9) == [P2] + Group([P2][1..], 9);
    assert Group(s, 9) == [P1] + Group(s[1..], 9);
    assert [P1, P2][..1] == [P1] && [P1][..0] == none;
    assert SortByStart([P1]) == [P1];
    assert [P1][1..] == none;
    assert Insert(P2, [P1]) == [P1] + Insert(P2, none);
  }

  lemma PlutoCode()
    ensures CodeOf(SampleNames(), "pluto barycenter") == Some(9)
  {
    assert Upper("pluto barycenter") == "PLUTO BARYCENTER";
    var g := SampleGroups;
    assert g[3].1[1] == "PLUTO BARYCENTER";
    assert "PLUTO BARYCENTER" != "MOON" && "PLUTO BARYCENTER" != "EARTH";
    CodeOfTable(g, 3, "PLUTO BARYCENTER");
  }

  lemma PlutoEdge<K>(owner: K)
    ensures EdgeFor(De441Excerpt, 9, owner) == Ok(Some(Stack(0, 9, [P1, P2], owner)))
  {
    PlutoGroup();
    var g := [P1, P2];
    assert OneCenter(g);
    assert Disjoint(g);
    assert MakeStack(g, 0, 9, owner) == Ok(Stack(0, 9, [P1, P2], owner));
  }

  lemma PlutoIsAStack<K>(segs: seq<Segment>, owner: K)
    requires segs == De441Excerpt
    ensures Lookup(segs, SampleNames(), owner, ByName("pluto barycenter")) == Ok(Leg(Stack(0, 9, [P1, P2], owner)))
  {
    PlutoCode();
    assert segs[0].Touches(9);
    PlutoPath(owner);
    LookupFindsRootPath(segs, SampleNames(), owner, ByName("pluto barycenter"), [Stack(0, 9, [P1, P2], owner)]);
  }

  lemma PlutoPath<K>(owner: K)
    ensures RootPath(De441Excerpt, owner, 9, [Stack(0, 9, [P1, P2], owner)])
  {
    PlutoEdge(owner);
    var e: Edge<K> := Stack(0, 9, [P1, P2], owner);
    assert IsEdgeOf(De441Excerpt, owner, [e][0]);
  }

  /** Each of the four days is routed to the segment that covers it. */
  lemma PlutoPositions<K>(owner: K, ev: Evaluator)
    ensures ValuesAt(Leg(Stack(0, 9, [P1, P2], owner)), ev, [28, 29, 30, 31]) ==
      Ok([ev(P1, 28), ev(P1, 29), ev(P2, 30), ev(P2, 31)])
  {
    var e: Edge<K> := Stack(0, 9, [P1, P2], owner);
    var ts: seq<Time> := [28, 29, 30, 31];
    PlutoCovered(e, ev, ts);
    var r := ValuesAt(Leg(e), ev, ts);
    PlutoValues(r.value, e.members, ts, ev);
  }

  lemma PlutoCovered<K>(e: Edge<K>, ev: Evaluator, ts: seq<Time>)
    requires e.Stack? && e.center == 0 && e.target == 9 && e.members == [P1, P2] && ts == [28, 29, 30, 31]
    ensures ValuesAt(Leg(e), ev, ts).Ok?
    ensures |ValuesAt(Leg(e), ev, ts).value| == 4
    ensures forall k, i :: 0 <= k < |ts| && 0 <= i < |e.members| && e.members[i].Covers(ts[k]) ==>
      ValuesAt(Leg(e), ev, ts).value[k] == ev(e.members[i], ts[k])
  {
    PlutoStackValid(e);
    PlutoDays(e.members, ts);
    StackRoutesEachTime(e, ev, ts);
  }

  lemma PlutoStackValid<K>(e: Edge<K>)
    requires e.Stack? && e.center == 0 && e.target == 9 && e.members == [P1, P2]
    ensures ValidEdge(e)
  {
    assert SamePair(e.members, e.center, e.target);
    assert StartSorted(e.members);
    assert Disjoint(e.members);
  }

  lemma PlutoDays(m: seq<Segment>, ts: seq<Time>)
    requires m == [P1, P2] && ts == [28, 29, 30, 31]
    ensures forall k :: 0 <= k < |ts| ==> exists i :: 0 <= i < |m| && m[i].Covers(ts[k])
  {
    assert m[0].Covers(ts[0]) && m[0].Covers(ts[1]) && m[1].Covers(ts[2]) && m[1].Covers(ts[3]);
    forall k | 0 <= k < |ts| ensures exists i :: 0 <= i < |m| && m[i].Covers(ts[k]) {
      if k < 2 {
        assert m[0].Covers(ts[k]);
      } else {
        assert m[1].Covers(ts[k]);
      }
    }
  }

  lemma PlutoValues(vs: seq<Vec>, m: seq<Segment>, ts: seq<Time>, ev: Evaluator)
    requires m == [P1, P2] && ts == [28, 29, 30, 31] && |vs| == 4
    requires forall k, i :: 0 <= k < |ts| && 0 <= i < |m| && m[i].Covers(ts[k]) ==> vs[k] == ev(m[i], ts[k])
    ensures vs == [ev(P1, 28), ev(P1, 29), ev(P2, 30), ev(P2, 31)]
  {
    assert m[0].Covers(ts[0]) && m[0].Covers(ts[1]) && m[1].Covers(ts[2]) && m[1].Covers(ts[3]);
  }
}
