/**
 * Views a kernel derives from its current segment list on every access:
 * the set of codes, the name dictionary, the ordered list of source files
 * shown by its repr, and the per-file summary shown by its str. None of
 * them is cached, so none can go stale after the list is edited.
 */
module Views {
  import opened Wrappers
  import opened Segments
  import opened Names

  /** Every center and every target of the current segments. */
  function Codes(segs: seq<Segment>): (r: set<Code>)
    ensures forall c :: c in r <==> exists i :: 0 <= i < |segs| && segs[i].Touches(c)
  {
    (set i | 0 <= i < |segs| :: segs[i].center) + (set i | 0 <= i < |segs| :: segs[i].target)
  }

  /** Extending the list adds exactly the new segments' codes; replacing it keeps nothing of the old list. */
  lemma CodesOfAppend(a: seq<Segment>, b: seq<Segment>)
    ensures Codes(a + b) == Codes(a) + Codes(b)
  {
    forall c | c in Codes(a + b) ensures c in Codes(a) + Codes(b) {
      var i :| 0 <= i < |a + b| && (a + b)[i].Touches(c);
      if i >= |a| {
        assert b[i - |a|].Touches(c);
      }
    }
    forall c | c in Codes(a) ensures c in Codes(a + b) {
      var i :| 0 <= i < |a| && a[i].Touches(c);
      assert (a + b)[i] == a[i];
    }
    forall c | c in Codes(b) ensures c in Codes(a + b) {
      var i :| 0 <= i < |b| && b[i].Touches(c);
      assert (a + b)[|a| + i] == b[i];
    }
  }

  /**
   * The `names()` dictionary: one entry for each current code the name table
   * knows, holding every name the table lists for it, in table order.
   */
  function NamesView(segs: seq<Segment>, table: NameTable): (r: map<Code, seq<string>>)
    ensures forall c :: c in r <==> c in Codes(segs) && c in TableCodes(table)
    ensures forall c, n :: c in r ==> (n in r[c] <==> (c, n) in table)
  {
    map c | c in Codes(segs) * TableCodes(table) :: NamesOf(table, c)
  }

  /**
   * The distinct source files of the current segments, each listed once, in
   * the order in which the list first uses them.
   */
  function Files(segs: seq<Segment>): (r: seq<string>)
    ensures forall f :: f in r <==> exists i :: 0 <= i < |segs| && segs[i].file == f
    ensures forall i, j :: 0 <= i < j < |r| ==> r[i] != r[j]
  {
    if segs == [] then []
    else
      var fs := Files(segs[..|segs| - 1]);
      var f := segs[|segs| - 1].file;
      assert forall i :: 0 <= i < |segs| - 1 ==> segs[..|segs| - 1][i] == segs[i];
      if f in fs then fs else fs + [f]
  }

  /** The index of the first segment read from file `f`. */
  function FirstUse(segs: seq<Segment>, f: string): (r: nat)
    requires f in Files(segs)
    ensures r < |segs| && segs[r].file == f
    ensures forall j :: 0 <= j < r ==> segs[j].file != f
  {
    if segs[0].file == f then 0
    else
      assert f in Files(segs[1..]) by {
        var i :| 0 <= i < |segs| && segs[i].file == f;
        assert segs[1..][i - 1] == segs[i];
      }
      1 + FirstUse(segs[1..], f)
  }

  /** The files appear in the order of their first use in the segment list. */
  lemma {:induction false} FilesInOrderOfFirstUse(segs: seq<Segment>, i: nat, j: nat)
    requires i < j < |Files(segs)|
    ensures FirstUse(segs, Files(segs)[i]) < FirstUse(segs, Files(segs)[j])
  {
    var init := segs[..|segs| - 1];
    var x := segs[|segs| - 1];
    var fs := Files(init);
    assert forall k :: 0 <= k < |init| ==> init[k] == segs[k];
    assert segs == init + [x];
    if j < |fs| {
      assert Files(segs)[i] == fs[i] && Files(segs)[j] == fs[j];
      FilesInOrderOfFirstUse(init, i, j);
      FirstUseOfPrefix(init, x, fs[i]);
      FirstUseOfPrefix(init, x, fs[j]);
    } else {
      assert Files(segs) == fs + [x.file];
      assert Files(segs)[i] == fs[i];
      FirstUseOfPrefix(init, x, fs[i]);
      assert x.file !in fs;
      assert FirstUse(segs, x.file) == |init|;
    }
  }

  lemma FirstUseOfPrefix(init: seq<Segment>, x: Segment, f: string)
    requires f in Files(init)
    ensures f in Files(init + [x])
    ensures FirstUse(init + [x], f) == FirstUse(init, f)
  {
    var b := FirstUse(init, f);
    assert (init + [x])[b] == init[b];
  }

  /** Extending the list keeps the files already shown, in their order, and only adds new ones after them. */
  lemma {:induction false} FilesOfAppend(a: seq<Segment>, b: seq<Segment>)
    ensures |Files(a)| <= |Files(a + b)|
    ensures Files(a + b)[..|Files(a)|] == Files(a)
    decreases |b|
  {
    if b == [] {
      assert a + b == a;
    } else {
      var init := b[..|b| - 1];
      FilesOfAppend(a, init);
      assert (a + b)[..|a + b| - 1] == a + init;
    }
  }

  /** The repr text: the class name followed by each source file, quoted. */
  function ReprText(files: seq<string>): (r: string)
    ensures |r| >= 13 && r[..12] == "<SpiceKernel" && r[|r| - 1] == '>'
    ensures files == [] <==> r == "<SpiceKernel>"
  {
    var q := QuotedList(files);
    assert files != [] ==> |q| >= 3;
    "<SpiceKernel" + q + ">"
  }

  /** Each file, quoted and preceded by a space. */
  function QuotedList(files: seq<string>): (r: string)
    ensures |r| >= 3 * |files|
  {
    if files == [] then "" else " '" + files[0] + "'" + QuotedList(files[1..])
  }

  lemma {:induction false} QuotedListAppend(a: seq<string>, b: seq<string>)
    ensures QuotedList(a + b) == QuotedList(a) + QuotedList(b)
    decreases |a|
  {
    if a == [] {
      assert a + b == b;
    } else {
      assert (a + b)[0] == a[0] && (a + b)[1..] == a[1..] + b;
      QuotedListAppend(a[1..], b);
    }
  }

  /**
   * Files appended to the list extend the repr: the old text without its
   * closing bracket is followed by the new files, quoted, and the bracket.
   */
  lemma ReprTextAppend(a: seq<string>, b: seq<string>)
    ensures ReprText(a + b) == ReprText(a)[..|ReprText(a)| - 1] + QuotedList(b) + ">"
  {
    QuotedListAppend(a, b);
    ReopenBracket("<SpiceKernel", QuotedList(a), QuotedList(b), ">");
  }

  lemma ReopenBracket(head: string, qa: string, qb: string, close: string)
    requires |close| == 1
    ensures head + (qa + qb) + close == (head + qa + close)[..|head + qa + close| - 1] + qb + close
  {
    var t := head + qa + close;
    assert t[..|t| - 1] == head + qa;
  }

  /** One line of the summary: `center -> target    CenterName -> TargetName`. */
  datatype Line = Line(center: Code, target: Code, centerName: Option<string>, targetName: Option<string>)

  /** One block of the summary: a source file and a line for each of its segments. */
  datatype Block = Block(file: string, lines: seq<Line>)

  function LineOf(s: Segment, table: NameTable): Line {
    Line(s.center, s.target, DisplayName(table, s.center), DisplayName(table, s.target))
  }

  /** The lines for the segments read from file `f`, in list order. */
  function LinesFrom(segs: seq<Segment>, table: NameTable, f: string): (r: seq<Line>)
    ensures |r| <= |segs|
    ensures forall l :: l in r <==> exists i :: 0 <= i < |segs| && segs[i].file == f && l == LineOf(segs[i], table)
  {
    if segs == [] then []
    else
      var rest := LinesFrom(segs[..|segs| - 1], table, f);
      var x := segs[|segs| - 1];
      assert forall i :: 0 <= i < |segs| - 1 ==> segs[..|segs| - 1][i] == segs[i];
      if x.file == f then rest + [LineOf(x, table)] else rest
  }

  /** A file's lines for a joined list are its lines for the first part followed by those for the second. */
  lemma {:induction false} LinesFromAppend(a: seq<Segment>, b: seq<Segment>, table: NameTable, f: string)
    ensures LinesFrom(a + b, table, f) == LinesFrom(a, table, f) + LinesFrom(b, table, f)
    decreases |b|
  {
    if b == [] {
      assert a + b == a;
    } else {
      var init := b[..|b| - 1];
      var x := b[|b| - 1];
      var tail: seq<Line> := if x.file == f then [LineOf(x, table)] else [];
      assert a + b == (a + init) + [x] && b == init + [x];
      calc {
        LinesFrom(a + b, table, f);
        { LinesFromSnoc(a + init, x, table, f); }
        LinesFrom(a + init, table, f) + tail;
        { LinesFromAppend(a, init, table, f); }
        (LinesFrom(a, table, f) + LinesFrom(init, table, f)) + tail;
        { LinesFromSnoc(init, x, table, f); }
        LinesFrom(a, table, f) + LinesFrom(b, table, f);
      }
    }
  }

  /** One more segment adds its line at the end of its own file's block. */
  lemma LinesFromSnoc(s: seq<Segment>, x: Segment, table: NameTable, f: string)
    ensures LinesFrom(s + [x], table, f) == LinesFrom(s, table, f) + if x.file == f then [LineOf(x, table)] else []
  {
    var sx := s + [x];
    assert sx[..|sx| - 1] == s && sx[|sx| - 1] == x;
  }

  /** One segment gives one line in its own file's block and none elsewhere. */
  lemma LinesFromSingle(x: Segment, table: NameTable, f: string)
    ensures LinesFrom([x], table, f) == if x.file == f then [LineOf(x, table)] else []
  {
    var none: seq<Segment> := [];
    assert [x][..0] == none;
  }

  /**
   * The str summary (without its date lines): one block per source file, in
   * the order of `Files`, each listing that file's segments in list order.
   */
  function Summary(segs: seq<Segment>, table: NameTable): (r: seq<Block>)
    ensures |r| == |Files(segs)|
    ensures forall i :: 0 <= i < |r| ==> r[i].file == Files(segs)[i]
    ensures forall i :: 0 <= i < |r| ==> r[i].lines == LinesFrom(segs, table, Files(segs)[i])
  {
    var fs := Files(segs);
    seq(|fs|, i requires 0 <= i < |fs| => Block(fs[i], LinesFrom(segs, table, fs[i])))
  }

  function LineCount(blocks: seq<Block>): nat {
    if blocks == [] then 0 else |blocks[0].lines| + LineCount(blocks[1..])
  }

  /** Every segment is shown exactly once: the summary has one line per segment. */
  lemma SummaryShowsEverySegment(segs: seq<Segment>, table: NameTable)
    ensures LineCount(Summary(segs, table)) == |segs|
  {
    var fs := Files(segs);
    BlocksCount(Summary(segs, table), segs, table, fs);
    FilesCount(segs, table);
  }

  /** The number of lines the blocks for files `fs` hold. */
  function CountIn(segs: seq<Segment>, table: NameTable, fs: seq<string>): nat {
    if fs == [] then 0 else |LinesFrom(segs, table, fs[0])| + CountIn(segs, table, fs[1..])
  }

  lemma {:induction false} BlocksCount(blocks: seq<Block>, segs: seq<Segment>, table: NameTable, fs: seq<string>)
    requires |blocks| == |fs|
    requires forall i :: 0 <= i < |fs| ==> blocks[i].lines == LinesFrom(segs, table, fs[i])
    ensures LineCount(blocks) == CountIn(segs, table, fs)
  {
    if fs != [] {
      BlocksCount(blocks[1..], segs, table, fs[1..]);
    }
  }

  lemma {:induction false} CountInSnoc(segs: seq<Segment>, table: NameTable, fs: seq<string>, f: string)
    ensures CountIn(segs, table, fs + [f]) == CountIn(segs, table, fs) + |LinesFrom(segs, table, f)|
  {
    if fs != [] {
      assert (fs + [f])[1..] == fs[1..] + [f];
      CountInSnoc(segs, table, fs[1..], f);
    }
  }

  lemma {:induction false} CountInExtend(init: seq<Segment>, x: Segment, table: NameTable, fs: seq<string>)
    requires forall i, j :: 0 <= i < j < |fs| ==> fs[i] != fs[j]
    ensures CountIn(init + [x], table, fs) == CountIn(init, table, fs) + (if x.file in fs then 1 else 0)
  {
    var s := init + [x];
    assert s[..|s| - 1] == init;
    if fs != [] {
      CountInExtend(init, x, table, fs[1..]);
      assert x.file in fs <==> x.file == fs[0] || x.file in fs[1..];
      if x.file == fs[0] {
        assert x.file !in fs[1..];
      }
    }
  }

  lemma {:induction false} FilesCount(segs: seq<Segment>, table: NameTable)
    ensures CountIn(segs, table, Files(segs)) == |segs|
  {
    if segs != [] {
      var init := segs[..|segs| - 1];
      var x := segs[|segs| - 1];
      assert segs == init + [x];
      FilesCount(init, table);
      var fs := Files(init);
      CountInExtend(init, x, table, fs);
      if x.file !in fs {
        CountInSnoc(segs, table, fs, x.file);
        assert |LinesFrom(init, table, x.file)| == 0 by {
          if |LinesFrom(init, table, x.file)| > 0 {
            assert LinesFrom(init, table, x.file)[0] in LinesFrom(init, table, x.file);
          }
        }
      }
    }
  }

  /** `Files` of a list extended by one segment. */
  lemma FilesSnoc(s: seq<Segment>, x: Segment)
    ensures Files(s + [x]) == if x.file in Files(s) then Files(s) else Files(s) + [x.file]
  {
    assert (s + [x])[..|s|] == s;
  }

  /** Segments from a file already listed add no file. */
  lemma {:induction false} FilesOfKnownFile(a: seq<Segment>, b: seq<Segment>, f: string)
    requires f in Files(a)
    requires forall i :: 0 <= i < |b| ==> b[i].file == f
    ensures Files(a + b) == Files(a)
    decreases |b|
  {
    if b != [] {
      var b' := b[..|b| - 1];
      assert a + b == (a + b') + [b[|b| - 1]];
      FilesOfKnownFile(a, b', f);
      FilesSnoc(a + b', b[|b| - 1]);
    } else {
      assert a + b == a;
    }
  }

  /** A one-segment list lists that segment's file. */
  lemma FilesOfSingle(x: Segment)
    ensures Files([x]) == [x.file]
  {
    var none: seq<Segment> := [];
    assert [x][..0] == none;
  }

  /** A non-empty list read from one file lists that file alone. */
  lemma FilesOfOneFile(s: seq<Segment>, f: string)
    requires |s| >= 1 && forall i :: 0 <= i < |s| ==> s[i].file == f
    ensures Files(s) == [f]
  {
    FilesOfSingle(s[0]);
    var rest := s[1..];
    assert s == [s[0]] + rest;
    assert forall i :: 0 <= i < |rest| ==> rest[i].file == f by {
      assert forall i :: 0 <= i < |rest| ==> rest[i] == s[i + 1];
    }
    FilesOfKnownFile([s[0]], rest, f);
  }

  /** A segment from a file not yet listed adds that file at the end. */
  lemma FilesOfNewFile(a: seq<Segment>, x: Segment, f: string)
    requires Files(a) == [f] && x.file != f
    ensures Files(a + [x]) == [f, x.file]
  {
    FilesSnoc(a, x);
  }

  /** Two non-empty runs from two different files list both, in order. */
  lemma FilesOfTwoFiles(a: seq<Segment>, b: seq<Segment>, f: string, g: string)
    requires |a| >= 1 && forall i :: 0 <= i < |a| ==> a[i].file == f
    requires |b| >= 1 && forall i :: 0 <= i < |b| ==> b[i].file == g
    requires f != g
    ensures Files(a + b) == [f, g]
  {
    FilesOfOneFile(a, f);
    FilesOfNewFile(a, b[0], f);
    FilesOfRestOfRun(a, b, g);
  }

  /** After the first segment of a one-file run, the rest of the run adds nothing. */
  lemma FilesOfRestOfRun(a: seq<Segment>, b: seq<Segment>, g: string)
    requires |b| >= 1 && forall i :: 0 <= i < |b| ==> b[i].file == g
    ensures Files(a + b) == Files(a + [b[0]])
  {
    var a1 := a + [b[0]];
    var rest := b[1..];
    assert g in Files(a1) by {
      assert a1[|a|].file == g;
    }
    assert a + b == a1 + rest by {
      assert b == [b[0]] + rest;
    }
    assert forall i :: 0 <= i < |rest| ==> rest[i].file == g by {
      assert forall i :: 0 <= i < |rest| ==> rest[i] == b[i + 1];
    }
    FilesOfKnownFile(a1, rest, g);
  }
}
