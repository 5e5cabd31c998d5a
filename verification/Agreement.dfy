/** The two readers of added lines, pkg/diff/diff.go and pkg/reviewer/engine.go, agree on well-formed
    diffs. */
module Agreement {
  import opened Text
  import opened Diff
  import opened Engine

  // ----- The parser's answer -----

  function MergeHunk(m: LineMap, path: string, added: set<int>): LineMap {
    if added == {} then m else m[path := LinesOf(m, path) + added]
  }

  function MergeHunks(m: LineMap, path: string, hunks: seq<Hunk>): LineMap {
    if hunks == [] then m
    else MergeHunk(MergeHunks(m, path, hunks[..|hunks| - 1]), path, hunks[|hunks| - 1].addedLines)
  }

  function MergeFiles(files: seq<FileDiff>): LineMap {
    if files == [] then map[]
    else
      var f := files[|files| - 1];
      MergeHunks(MergeFiles(files[..|files| - 1]), f.path, f.hunks)
  }

  /** pkg/diff/diff.go, ChangedPRLines. */
  method ChangedPRLines(inv: ChangeInventory) returns (m: LineMap)
    ensures m == MergeFiles(inv.files)
  {
    m := map[];
    for i := 0 to |inv.files|
      invariant m == MergeFiles(inv.files[..i])
    {
      var f := inv.files[i];
      ghost var before := m;
      for j := 0 to |f.hunks|
        invariant m == MergeHunks(before, f.path, f.hunks[..j])
      {
        assert f.hunks[..j + 1][..j] == f.hunks[..j];
        if f.hunks[j].addedLines != {} {
          m := m[f.path := LinesOf(m, f.path) + f.hunks[j].addedLines];
        }
      }
      assert f.hunks[..|f.hunks|] == f.hunks;
      assert inv.files[..i + 1][..i] == inv.files[..i];
    }
    assert inv.files[..|inv.files|] == inv.files;
  }

  // ----- Well-formed diffs -----

  const DELETED: Line := "+++ /dev/null"

  /** Where a line stands: before any file, in a file header before or after its "+++" line, or in a
      hunk body (and then, whether an empty line has been met). `Gone` is a header, and `GoneBody` a
      hunk, of a deleted file. */
  datatype Place = Preamble | Header | Named | Body(blank: bool) | Gone | GoneBody | Bad

  predicate RangeText(s: string) {
    Token(s) && '@' !in s
  }

  /** The header git writes: "@@ -a[,b] +c[,d] @@" and anything after it. */
  ghost predicate CanonicalHeader(line: string) {
    && ParseHunkHeader(line).Some?
    && exists a, b, rest :: RangeText(a) && RangeText(b) && line == HeaderText(a, b, rest)
  }

  function HeaderText(a: string, b: string, rest: string): string {
    "@@ " + ("-" + a) + (" " + (("+" + b) + (" @@" + rest)))
  }

  ghost function Next(p: Place, line: Line): Place {
    if p.Bad? then Bad
    else if HasPrefix(line, "diff --git ") then Header
    else if HasPrefix(line, "@@") then
      if p.Preamble? || p.Header? || !CanonicalHeader(line) then Bad
      else if p.Gone? || p.GoneBody? then GoneBody else Body(false)
    else match p
      case Preamble =>
        if HasPrefix(line, "+++ b/") then Bad else if HasPrefix(line, "--- ") then Header else Preamble
      case Header =>
        if HasPrefix(line, "+++ b/") && |line| > 6 then Named
        else if line == DELETED then Gone
        else if HasPrefix(line, "+") then Bad else Header
      case Named =>
        if HasPrefix(line, "+") || HasPrefix(line, "rename to ") then Bad else Named
      case Body(blank) =>
        if line == "" then Body(true)
        else if HasPrefix(line, "+++ b/") || (blank && line[0] == '+') then Bad
        else p
      case Gone => if HasPrefix(line, "+") then Bad else Gone
      case GoneBody => if HasPrefix(line, "+") then Bad else GoneBody
  }

  ghost function PlaceAfter(lines: seq<Line>): Place {
    if lines == [] then Preamble else Next(PlaceAfter(lines[..|lines| - 1]), lines[|lines| - 1])
  }

  /** Every "+++" line names "b/<path>" or is "+++ /dev/null", hunk headers are canonical, and hunk
      bodies hold no line that reads as a header of another file. */
  ghost predicate WellFormed(raw: string) {
    !PlaceAfter(Split(raw)).Bad?
  }

  /** On a canonical header the engine reads the start the parser reads. */
  lemma HeadersAgree(line: string)
    requires CanonicalHeader(line)
    ensures ParseHunkHeader(line).Some?
    ensures HunkStart(line) == Some(ParseHunkHeader(line).value.newStart)
  {
    hide Fields, HeaderText, TrimSpace;
    var a, b, rest :| RangeText(a) && RangeText(b) && line == HeaderText(a, b, rest);
    EngineReadsThirdField(a, b, rest);
    ParserReadsSecondRange(a, b, rest);
    assert TrimPrefix("+" + b, "+") == ("+" + b)[1..];
  }

  lemma EngineReadsThirdField(a: string, b: string, rest: string)
    requires RangeText(a) && RangeText(b)
    ensures |Fields(HeaderText(a, b, rest))| >= 3 && Fields(HeaderText(a, b, rest))[2] == "+" + b
  {
    hide Fields;
    var tail := " @@" + rest;
    var before, after := "-" + a, "+" + b;
    FieldsOfSpacedToken(before, after, tail);
    FieldsSkipsSpace(' ', before + (" " + (after + tail)));
    FieldsOfToken("@@", " " + (before + (" " + (after + tail))));
    assert HeaderText(a, b, rest) == "@@" + (" " + (before + (" " + (after + tail))));
  }

  /** The parser takes the two texts between the marks apart. */
  lemma ParserReadsRanges(p: string, q: string, rest: string)
    requires RangeText(p) && RangeText(q)
    ensures var line := "@@ " + p + (" " + (q + (" @@" + rest)));
      && Index(line[2..], "@@").Some?
      && Fields(TrimSpace(line[2..2 + Index(line[2..], "@@").value])) == [p, q]
  {
    hide Fields, Index, TrimSpace;
    var line := "@@ " + p + (" " + (q + (" @@" + rest)));
    var core := p + (" " + q);
    var inner := " " + core + " ";
    assert line[2..] == inner + ("@@" + rest);
    FirstAt(inner, rest);
    assert line[2..2 + |inner|] == inner;
    assert core[|core| - 1] == q[|q| - 1];
    TrimOneSpace(core);
    FieldsOfSpacedToken(p, q, "");
    assert core == p + (" " + (q + ""));
    assert Fields("") == [] by { NoFields(); }
  }

  lemma ParserReadsSecondRange(a: string, b: string, rest: string)
    requires RangeText(a) && RangeText(b)
    ensures var line := HeaderText(a, b, rest);
      && Index(line[2..], "@@").Some?
      && Fields(TrimSpace(line[2..2 + Index(line[2..], "@@").value])) == ["-" + a, "+" + b]
  {
    hide Fields, Index, TrimSpace;
    assert RangeText("-" + a) && RangeText("+" + b);
    ParserReadsRanges("-" + a, "+" + b, rest);
  }

  lemma NoFields()
    ensures Fields("") == []
  {
  }

  lemma TrimOneSpace(core: string)
    requires core != "" && !IsSpace(core[0]) && !IsSpace(core[|core| - 1])
    ensures TrimSpace(" " + core + " ") == core
  {
    var s := " " + core + " ";
    assert s[1..] == core + " " && (core + " ")[..|core|] == core;
    assert TrimLeft(s) == core + " ";
    assert TrimRight(core + " ") == TrimRight(core) == core;
  }

  lemma {:induction false} FirstAt(clean: string, rest: string)
    requires '@' !in clean
    ensures Index(clean + ("@@" + rest), "@@") == Some(|clean|)
  {
    var s := clean + ("@@" + rest);
    if clean == "" {
      assert HasPrefix(s, "@@");
    } else {
      assert s[0] == clean[0] && s[0] in clean;
      assert s[1..] == clean[1..] + ("@@" + rest);
      FirstAt(clean[1..], rest);
    }
  }

  // ----- The simulation -----

  /** What the parser has recorded so far, the open file and hunk included. */
  function Merged(st: ParseState): LineMap {
    match st.curFile
    case None => MergeFiles(st.inv.files)
    case Some(f) =>
      var m := MergeHunks(MergeFiles(st.inv.files), f.path, f.hunks);
      if st.curHunk.None? then m else MergeHunk(m, f.path, st.curHunk.value.addedLines)
  }

  type Strays = seq<(string, int)>

  function Overlay(m: LineMap, strays: Strays): LineMap {
    if strays == [] then m
    else
      var last := strays[|strays| - 1];
      AddLine(Overlay(m, strays[..|strays| - 1]), last.0, last.1)
  }

  lemma AddLineCommutes(m: LineMap, p: string, a: int, q: string, b: int)
    ensures AddLine(AddLine(m, p, a), q, b) == AddLine(AddLine(m, q, b), p, a)
  {
    var left, right := AddLine(AddLine(m, p, a), q, b), AddLine(AddLine(m, q, b), p, a);
    assert p == q ==> left[p] == right[p];
    assert left == right;
  }

  lemma {:induction false} OverlayAddLine(m: LineMap, strays: Strays, p: string, l: int)
    ensures Overlay(AddLine(m, p, l), strays) == AddLine(Overlay(m, strays), p, l)
  {
    if strays != [] {
      var front, last := strays[..|strays| - 1], strays[|strays| - 1];
      OverlayAddLine(m, front, p, l);
      AddLineCommutes(Overlay(m, front), p, l, last.0, last.1);
    }
  }

  /** The line the engine wrongly counts as added: it takes the "+++ /dev/null" line of a deleted file
      for an addition to the file whose hunk it read last. */
  ghost function StrayAt(p: Place, e: ScanState, line: Line): Strays {
    if p.Header? && line == DELETED && e.inHunk && e.path != "" then [(e.path, e.line)] else []
  }

  ghost function StraysOf(lines: seq<Line>): Strays {
    if lines == [] then []
    else
      var front, line := lines[..|lines| - 1], lines[|lines| - 1];
      StraysOf(front) + StrayAt(PlaceAfter(front), ScanLines(SCAN_START, front), line)
  }

  predicate NoAdds(hunks: seq<Hunk>) {
    forall h :: h in hunks ==> h.addedLines == {}
  }

  /** The state of the parser at a place, apart from what it has recorded. */
  ghost predicate Stands(p: Place, st: ParseState, e: ScanState) {
    && !st.fileCapHit && !st.hunkCapHit
    && (p.Preamble? <==> st.curFile.None?)
    && (p.Body? || p.GoneBody? <==> st.curHunk.Some?)
    && match p
       case Preamble => st.inv.files == [] && !e.inHunk
       case Header => st.curFile.value.hunks == []
       case Named => st.curFile.value.hunks == [] && st.curFile.value.path == e.path != "" && !e.inHunk
       case Body(blank) => st.curFile.value.path == e.path != "" && e.inHunk && (!blank ==> e.line == st.curLine)
       case Gone => st.curFile.value.hunks == []
       case GoneBody => NoAdds(st.curFile.value.hunks) && st.curHunk.value.addedLines == {}
       case Bad => false
  }

  ghost predicate Related(p: Place, st: ParseState, e: ScanState, strays: Strays) {
    Stands(p, st, e) && e.lines == Overlay(Merged(st), strays)
  }

  lemma FlushHunkKeepsMerged(st: ParseState)
    requires st.curHunk.Some? ==> st.curFile.Some?
    ensures Merged(FlushHunk(st)) == Merged(st)
    ensures FlushHunk(st).curHunk.None? && FlushHunk(st).curFile.Some? == st.curFile.Some?
    ensures st.curFile.Some? ==> FlushHunk(st).curFile.value.path == st.curFile.value.path
    ensures FlushHunk(st).fileCapHit == st.fileCapHit && FlushHunk(st).hunkCapHit == st.hunkCapHit
  {
    if st.curHunk.Some? {
      var hunks := FlushHunk(st).curFile.value.hunks;
      assert hunks[..|hunks| - 1] == st.curFile.value.hunks;
    }
  }

  lemma FlushFileKeepsMerged(st: ParseState)
    requires st.curHunk.Some? ==> st.curFile.Some?
    ensures Merged(FlushFile(st)) == Merged(st)
    ensures FlushFile(st).curFile.None? && FlushFile(st).curHunk.None?
    ensures FlushFile(st).fileCapHit == st.fileCapHit && FlushFile(st).hunkCapHit == st.hunkCapHit
  {
    FlushHunkKeepsMerged(st);
    var s := FlushHunk(st);
    if s.curFile.Some? {
      var files := FlushFile(st).inv.files;
      assert files[..|files| - 1] == s.inv.files;
    }
  }

  lemma GitLineAgrees(o: ParseOptions, p: Place, st: ParseState, e: ScanState, strays: Strays, line: Line)
    requires Resolved(o) && Related(p, st, e, strays) && HasPrefix(line, "diff --git ")
    requires !ParseLine(o, st, line).inv.truncated
    ensures Related(Header, ParseLine(o, st, line), ScanLine(e, line), strays)
  {
    hide FileFromGitLine, CapReason, Overlay, FlushFile, ReadHeaderLine, OpenHunk, AddToHunk, HunkStart;
    FlushFileKeepsMerged(st);
  }

  lemma ModeLineKeepsPath(f: FileDiff, line: Line)
    ensures ReadModeLine(f, line).Some? ==>
      && ReadModeLine(f, line).value.hunks == f.hunks
      && ReadModeLine(f, line).value.path == f.path
  {
    hide Atoi, TrimSuffix, TrimPrefix, HasPrefix;
  }

  lemma PlusIsNoModeLine(f: FileDiff, line: Line)
    requires HasPrefix(line, "+")
    ensures ReadModeLine(f, line).None?
  {
    hide Atoi, TrimSuffix, TrimPrefix;
    assert line[0] == '+';
  }

  lemma PathLineSetsPath(f: FileDiff, line: Line)
    ensures ReadPathLine(f, line).Some? ==> ReadPathLine(f, line).value.hunks == f.hunks
    ensures HasPrefix(line, "+++ b/") ==>
      ReadPathLine(f, line).Some? && ReadPathLine(f, line).value.path == line[6..]
    ensures ReadPathLine(f, line).Some? && !HasPrefix(line, "+") && !HasPrefix(line, "rename to ") ==>
      ReadPathLine(f, line).value.path == f.path
  {
    if HasPrefix(line, "+++ b/") {
      assert line[0] == '+';
      var p := TrimPrefix(line, "+++ ");
      assert p[0] == 'b' && p[1] == '/' && p[2..] == line[6..];
    }
  }

  /** A header line never touches the hunks, and only "rename to" and "+++" lines set the path. */
  lemma HeaderLineSetsPath(f: FileDiff, line: Line)
    ensures ReadHeaderLine(f, line).Some? ==> ReadHeaderLine(f, line).value.hunks == f.hunks
    ensures HasPrefix(line, "+++ b/") ==>
      ReadHeaderLine(f, line).Some? && ReadHeaderLine(f, line).value.path == line[6..]
    ensures ReadHeaderLine(f, line).Some? && !HasPrefix(line, "+") && !HasPrefix(line, "rename to ") ==>
      ReadHeaderLine(f, line).value.path == f.path
  {
    hide ReadModeLine, ReadPathLine;
    ModeLineKeepsPath(f.(headerLines := f.headerLines + [line]), line);
    if HasPrefix(line, "+++ b/") {
      assert line[..1] == "+";
      PlusIsNoModeLine(f.(headerLines := f.headerLines + [line]), line);
    }
    PathLineSetsPath(f.(headerLines := f.headerLines + [line]), line);
  }

  /** The parser on a line outside hunks that opens neither a file nor a hunk. */
  lemma ParserOnHeaderLine(o: ParseOptions, st: ParseState, line: Line)
    requires Resolved(o) && st.curHunk.None? && st.curFile.Some? && !st.fileCapHit
    requires !HasPrefix(line, "diff --git ") && !HasPrefix(line, "@@")
    ensures var s := ParseLine(o, st, line);
      && s == st.(curFile := s.curFile) && s.curFile.Some?
      && s.curFile.value.hunks == st.curFile.value.hunks
      && (HasPrefix(line, "+++ b/") ==> s.curFile.value.path == line[6..])
      && (!HasPrefix(line, "+") && !HasPrefix(line, "rename to ") ==> s.curFile.value.path == st.curFile.value.path)
  {
    hide ReadHeaderLine, OpenFile, OpenHunk, FlushFile, AddToHunk;
    HeaderLineSetsPath(st.curFile.value, line);
  }

  lemma HeaderLineAgrees(o: ParseOptions, p: Place, st: ParseState, e: ScanState, strays: Strays, line: Line)
    requires Resolved(o) && Related(p, st, e, strays) && !HasPrefix(line, "diff --git ") && !HasPrefix(line, "@@")
    requires p.Header? || p.Named? || p.Gone?
    requires !Next(p, line).Bad?
    ensures Related(Next(p, line), ParseLine(o, st, line), ScanLine(e, line), strays + StrayAt(p, e, line))
  {
    hide ParseLine, Overlay, AddLine, MergeFiles;
    ParserOnHeaderLine(o, st, line);
    assert Merged(ParseLine(o, st, line)) == MergeFiles(st.inv.files) == Merged(st);
    OverlaySnoc(Merged(st), strays, e.path, e.line);
    assert strays + [] == strays;
    assert DELETED[0] == '+' && DELETED[4] == '/';
    if HasPrefix(line, "+++ b/") {
      assert line[4] == 'b';
    }
  }

  lemma OverlaySnoc(m: LineMap, strays: Strays, p: string, l: int)
    ensures Overlay(m, strays + [(p, l)]) == AddLine(Overlay(m, strays), p, l)
  {
    assert (strays + [(p, l)])[..|strays|] == strays;
  }

  lemma PreambleLineAgrees(o: ParseOptions, st: ParseState, e: ScanState, strays: Strays, line: Line)
    requires Resolved(o) && Related(Preamble, st, e, strays)
    requires !HasPrefix(line, "diff --git ") && !HasPrefix(line, "@@")
    requires !Next(Preamble, line).Bad?
    requires !ParseLine(o, st, line).inv.truncated
    ensures Related(Next(Preamble, line), ParseLine(o, st, line), ScanLine(e, line), strays)
  {
    hide CapReason, ReadHeaderLine, OpenHunk, FlushFile, Overlay;
    HeaderLineSetsPath(EmptyFile("", "", [line]), line);
  }

  lemma OpenHunkAgrees(o: ParseOptions, st: ParseState, line: Line)
    requires Resolved(o) && st.curFile.Some? && !st.fileCapHit && !st.hunkCapHit
    requires ParseHunkHeader(line).Some?
    requires !OpenHunk(o, st, line).inv.truncated
    ensures var s := OpenHunk(o, st, line);
      && !s.fileCapHit && !s.hunkCapHit
      && s.curFile == FlushHunk(st).curFile && s.curFile.Some?
      && s.curFile.value.path == st.curFile.value.path
      && s.curHunk.Some? && s.curHunk.value.addedLines == {}
      && s.curLine == ParseHunkHeader(line).value.newStart
      && Merged(s) == Merged(st)
  {
    hide CapReason, ParseHunkHeader, FlushHunk, Itoa;
    FlushHunkKeepsMerged(st);
  }

  /** A line that starts with "@@" goes to the hunk header branch, inside or outside a hunk. */
  lemma HunkHeaderLine(o: ParseOptions, st: ParseState, line: Line)
    requires Resolved(o) && HasPrefix(line, "@@") && st.curFile.Some? && !st.fileCapHit
    ensures ParseLine(o, st, line) == OpenHunk(o, st, line)
  {
    hide ReadHeaderLine, OpenFile, AddToHunk, OpenHunk, FlushFile;
    assert line[0] == '@';
    NotHeaderLine(st.curFile.value, line);
  }

  lemma HunkLineAgrees(o: ParseOptions, p: Place, st: ParseState, e: ScanState, strays: Strays, line: Line)
    requires Resolved(o) && Related(p, st, e, strays) && HasPrefix(line, "@@")
    requires !Next(p, line).Bad?
    requires !ParseLine(o, st, line).inv.truncated
    ensures Related(Next(p, line), ParseLine(o, st, line), ScanLine(e, line), strays)
  {
    hide OpenHunk, ParseHunkHeader, HunkStart, CanonicalHeader, ReadHeaderLine, AddToHunk, OpenFile, Merged, Overlay;
    assert line[0] == '@';
    HeadersAgree(line);
    HunkHeaderLine(o, st, line);
    OpenHunkAgrees(o, st, line);
  }

  lemma NotHeaderLine(f: FileDiff, line: Line)
    requires HasPrefix(line, "@@")
    ensures ReadHeaderLine(f, line).None?
  {
    hide Atoi, TrimSuffix, TrimPrefix;
    assert line[0] == '@';
  }

  lemma MergeOneMore(m: LineMap, path: string, added: set<int>, line: int)
    ensures MergeHunk(m, path, added + {line}) == AddLine(MergeHunk(m, path, added), path, line)
  {
    assert LinesOf(m, path) + (added + {line}) == LinesOf(m, path) + added + {line};
    assert LinesOf(m, path) + ({} + {line}) == LinesOf(m, path) + {line};
  }

  lemma MergeNothing(m: LineMap, path: string)
    ensures MergeHunk(m, path, {}) == m
  {
  }

  lemma BodyLineAgrees(o: ParseOptions, p: Place, st: ParseState, e: ScanState, strays: Strays, line: Line)
    requires Resolved(o) && Related(p, st, e, strays) && (p.Body? || p.GoneBody?)
    requires !HasPrefix(line, "@@") && !HasPrefix(line, "diff --git ")
    requires !Next(p, line).Bad?
    ensures Related(Next(p, line), ParseLine(o, st, line), ScanLine(e, line), strays)
  {
    hide OpenFile, OpenHunk, ReadHeaderLine, MergeHunk, Overlay, AddLine;
    var f, h := st.curFile.value, st.curHunk.value;
    MergeOneMore(MergeHunks(MergeFiles(st.inv.files), f.path, f.hunks), f.path, h.addedLines, st.curLine);
    OverlayAddLine(Merged(st), strays, f.path, st.curLine);
  }

  lemma StepAgrees(o: ParseOptions, p: Place, st: ParseState, e: ScanState, strays: Strays, line: Line)
    requires Resolved(o) && Related(p, st, e, strays)
    requires !Next(p, line).Bad?
    requires !ParseLine(o, st, line).inv.truncated
    ensures Related(Next(p, line), ParseLine(o, st, line), ScanLine(e, line), strays + StrayAt(p, e, line))
  {
    hide ParseLine, ScanLine, CanonicalHeader, Related;
    if HasPrefix(line, "@@") {
      assert line[0] == '@';
    }
    assert strays + [] == strays;
    if HasPrefix(line, "diff --git ") {
      GitLineAgrees(o, p, st, e, strays, line);
    } else if HasPrefix(line, "@@") {
      HunkLineAgrees(o, p, st, e, strays, line);
    } else if p.Body? || p.GoneBody? {
      BodyLineAgrees(o, p, st, e, strays, line);
    } else if p.Preamble? {
      PreambleLineAgrees(o, st, e, strays, line);
    } else {
      HeaderLineAgrees(o, p, st, e, strays, line);
    }
  }

  lemma TruncationSticks(o: ParseOptions, st: ParseState, line: Line)
    requires Resolved(o) && st.inv.truncated
    ensures ParseLine(o, st, line).inv.truncated
  {
    hide CapReason, ReadHeaderLine, HasPrefix, FileFromGitLine, ParseHunkHeader, BodyLine;
  }

  lemma {:induction false} LinesAgree(o: ParseOptions, lines: seq<Line>)
    requires Resolved(o)
    requires !PlaceAfter(lines).Bad?
    requires !ParseLines(o, START, lines).inv.truncated
    ensures Related(PlaceAfter(lines), ParseLines(o, START, lines), ScanLines(SCAN_START, lines), StraysOf(lines))
  {
    hide ParseLine, ScanLine, StrayAt;
    if lines != [] {
      var front, line := lines[..|lines| - 1], lines[|lines| - 1];
      var st := ParseLines(o, START, front);
      if st.inv.truncated {
        TruncationSticks(o, st, line);
      }
      assert Next(Bad, line).Bad?;
      LinesAgree(o, front);
      StepAgrees(o, PlaceAfter(front), st, ScanLines(SCAN_START, front), StraysOf(front), line);
    }
  }

  lemma BlankText(raw: string)
    requires TrimSpace(raw) == ""
    ensures Blank(raw)
  {
    TrimLeftIs(raw);
    TrimRightIs(TrimLeft(raw));
  }

  lemma {:induction false} BlankLines(lines: seq<Line>)
    requires lines != [] && Blank(Join(lines))
    ensures forall l :: l in lines ==> Blank(l)
  {
    var s := Join(lines);
    assert s[..|lines[0]|] == lines[0];
    assert forall i :: 0 <= i < |lines[0]| ==> lines[0][i] == s[i];
    if |lines| > 1 {
      assert s[|lines[0]| + 1..] == Join(lines[1..]);
      BlankLines(lines[1..]);
    }
  }

  lemma {:induction false} BlankScan(lines: seq<Line>)
    requires forall l :: l in lines ==> Blank(l)
    ensures ScanLines(SCAN_START, lines) == SCAN_START
    ensures StraysOf(lines) == []
  {
    if lines != [] {
      var line := lines[|lines| - 1];
      assert Blank(line);
      assert line != "" ==> IsSpace(line[0]);
      BlankScan(lines[..|lines| - 1]);
    }
  }

  /** On a well-formed diff within the caps the engine reports the parser's added lines and the strays
      of deleted files, and nothing else. */
  lemma ReadersAgreeUpToStrays(raw: string, options: ParseOptions)
    requires WellFormed(raw) && !ParseSpec(raw, options).truncated
    ensures ChangedLinesOf(raw) == Overlay(MergeFiles(ParseSpec(raw, options).files), StraysOf(Split(raw)))
  {
    hide ParseLine, ScanLine, StrayAt, Fields;
    var o := ResolveOptions(options);
    if TrimSpace(raw) == "" {
      BlankText(raw);
      BlankLines(Split(raw));
      BlankScan(Split(raw));
    } else {
      var st := ParseLines(o, StartFor(raw, o.maxBytes), Split(CutToBytes(raw, o.maxBytes)));
      if |raw| > o.maxBytes {
        AllTruncated(o, StartFor(raw, o.maxBytes), Split(CutToBytes(raw, o.maxBytes)));
      } else {
        LinesAgree(o, Split(raw));
        FlushFileKeepsMerged(st);
      }
    }
  }

  lemma {:induction false} AllTruncated(o: ParseOptions, st: ParseState, lines: seq<Line>)
    requires Resolved(o) && st.inv.truncated
    ensures ParseLines(o, st, lines).inv.truncated
    ensures FlushFile(ParseLines(o, st, lines)).inv.truncated
  {
    hide ParseLine;
    if lines != [] {
      AllTruncated(o, st, lines[..|lines| - 1]);
      TruncationSticks(o, ParseLines(o, st, lines[..|lines| - 1]), lines[|lines| - 1]);
    }
  }

  /** If no "+++ /dev/null" line occurs, the two readers agree. */
  lemma ReadersAgree(raw: string, options: ParseOptions)
    requires WellFormed(raw) && !ParseSpec(raw, options).truncated
    requires DELETED !in Split(raw)
    ensures ChangedLinesOf(raw) == MergeFiles(ParseSpec(raw, options).files)
  {
    ReadersAgreeUpToStrays(raw, options);
    NoStrays(Split(raw));
  }

  lemma {:induction false} NoStrays(lines: seq<Line>)
    requires DELETED !in lines
    ensures StraysOf(lines) == []
  {
    hide ScanLines, PlaceAfter;
    if lines != [] {
      NoStrays(lines[..|lines| - 1]);
    }
  }

  /** With deleted files, the readers agree exactly when every stray happens to be an added line. */
  lemma ReadersAgreeIffStraysReal(raw: string, options: ParseOptions)
    requires WellFormed(raw) && !ParseSpec(raw, options).truncated
    ensures var m := MergeFiles(ParseSpec(raw, options).files);
      ChangedLinesOf(raw) == m
      <==> (forall s :: s in StraysOf(Split(raw)) ==> s.1 in LinesOf(m, s.0))
  {
    hide ParseSpec, WellFormed, ChangedLinesOf;
    ReadersAgreeUpToStrays(raw, options);
    OverlayNoop(MergeFiles(ParseSpec(raw, options).files), StraysOf(Split(raw)));
  }

  lemma {:induction false} OverlayNoop(m: LineMap, strays: Strays)
    ensures Overlay(m, strays) == m <==> forall s :: s in strays ==> s.1 in LinesOf(m, s.0)
    ensures forall p :: LinesOf(m, p) <= LinesOf(Overlay(m, strays), p)
  {
    if strays != [] {
      var front, last := strays[..|strays| - 1], strays[|strays| - 1];
      OverlayNoop(m, front);
      var o := Overlay(m, front);
      assert last.1 in LinesOf(Overlay(m, strays), last.0);
      assert forall s :: s in strays <==> s in front || s == last;
      if last.1 in LinesOf(m, last.0) {
        assert LinesOf(o, last.0) + {last.1} == LinesOf(o, last.0);
        assert Overlay(m, strays) == o;
      }
    }
  }
}
