/** Reading a window back: the text of a window that does not start in the middle of a file parses to
    the hunks it was packed from. */
module RoundTrip {
  import opened Text
  import opened Diff
  import opened Pieces
  import opened Packing
  import E = Engine
  import A = Agreement

  // ----- Parsed hunks -----

  function BodyLines(start: int, lines: seq<Line>): (set<int>, int) {
    if lines == [] then ({}, start)
    else
      var (added, next) := BodyLines(start, lines[..|lines| - 1]);
      BodyLine(added, next, lines[|lines| - 1])
  }

  predicate HunkLine(l: Line) {
    !HasPrefix(l, "diff --git ") && !HasPrefix(l, "@@")
  }

  /** The hunk's numbers are those of its header, and its added lines those of its body. */
  ghost predicate WellHunk(h: Hunk) {
    && ParseHunkHeader(h.header) == Some(HunkRange(h.oldStart, h.oldCount, h.newStart, h.newCount))
    && (forall i :: 0 <= i < |h.lines| ==> HunkLine(h.lines[i]))
    && h.addedLines == BodyLines(h.newStart, h.lines).0
  }

  ghost predicate WellFile(f: FileDiff) {
    forall i :: 0 <= i < |f.hunks| ==> WellHunk(f.hunks[i])
  }

  ghost predicate WellFiles(files: seq<FileDiff>) {
    forall i :: 0 <= i < |files| ==> WellFile(files[i])
  }

  ghost predicate WellState(st: ParseState) {
    && WellFiles(st.inv.files)
    && (st.curFile.Some? ==> WellFile(st.curFile.value))
    && (st.curHunk.Some? ==>
      && st.curFile.Some? && WellHunk(st.curHunk.value)
      && st.curLine == BodyLines(st.curHunk.value.newStart, st.curHunk.value.lines).1)
  }

  lemma FlushKeepsWell(st: ParseState)
    requires WellState(st)
    ensures WellState(FlushHunk(st)) && FlushHunk(st).curHunk.None?
    ensures WellState(FlushFile(st)) && FlushFile(st).curFile.None? && FlushFile(st).curHunk.None?
  {
    hide ParseHunkHeader, HunkLine, BodyLines;
  }

  lemma OpenHunkKeepsWell(o: ParseOptions, st: ParseState, line: Line)
    requires Resolved(o) && WellState(st)
    ensures WellState(OpenHunk(o, st, line))
  {
    hide ParseHunkHeader, HunkLine, FlushHunk, CapReason, Itoa;
    FlushKeepsWell(st);
  }

  lemma BodyLinesSnoc(start: int, lines: seq<Line>, l: Line)
    ensures BodyLines(start, lines + [l])
         == BodyLine(BodyLines(start, lines).0, BodyLines(start, lines).1, l)
  {
    assert (lines + [l])[..|lines|] == lines;
  }

  lemma AddKeepsWell(st: ParseState, line: Line)
    requires WellState(st) && st.curHunk.Some? && HunkLine(line)
    ensures WellState(AddToHunk(st, line))
  {
    hide ParseHunkHeader, HunkLine, BodyLines, BodyLine;
    BodyLinesSnoc(st.curHunk.value.newStart, st.curHunk.value.lines, line);
  }

  lemma ParseLineKeepsWell(o: ParseOptions, st: ParseState, line: Line)
    requires Resolved(o) && WellState(st)
    ensures WellState(ParseLine(o, st, line))
  {
    hide WellHunk, FileFromGitLine, ReadHeaderLine, OpenHunk, AddToHunk, FlushFile, CapReason, HasPrefix;
    FlushKeepsWell(st);
    var s := if HasPrefix(line, "--- ") && st.curFile.None? && !st.fileCapHit
      then OpenFile(o, st, EmptyFile("", "", [line])) else st;
    assert WellState(s);
    OpenHunkKeepsWell(o, s, line);
    if s.curFile.Some? {
      A.HeaderLineSetsPath(s.curFile.value, line);
    }
    if s.curHunk.Some? && HunkLine(line) {
      AddKeepsWell(s, line);
    }
  }

  lemma {:induction false} ParseLinesKeepWell(o: ParseOptions, st: ParseState, lines: seq<Line>)
    requires Resolved(o) && WellState(st)
    ensures WellState(ParseLines(o, st, lines))
  {
    hide ParseLine, WellState;
    if lines != [] {
      ParseLinesKeepWell(o, st, lines[..|lines| - 1]);
      ParseLineKeepsWell(o, ParseLines(o, st, lines[..|lines| - 1]), lines[|lines| - 1]);
    }
  }

  lemma ParsedHunksWell(raw: string, options: ParseOptions)
    ensures WellFiles(ParseSpec(raw, options).files)
  {
    hide ParseLines;
    var o := ResolveOptions(options);
    var start := StartFor(raw, o.maxBytes);
    var lines := Split(CutToBytes(raw, o.maxBytes));
    ParseLinesKeepWell(o, start, lines);
    FlushKeepsWell(ParseLines(o, start, lines));
  }

  // ----- The lines of a window -----

  function PieceLines(p: Piece): seq<Line> {
    match p
    case Header(f) => HeaderLines(f)
    case Body(_, h) => [h.header] + BodyRest(h)
  }

  function LinesOfPieces(pieces: seq<Piece>): seq<Line> {
    if pieces == [] then [] else LinesOfPieces(pieces[..|pieces| - 1]) + PieceLines(pieces[|pieces| - 1])
  }

  lemma {:induction false} TerminatedJoin(lines: seq<Line>)
    requires lines != []
    ensures Terminated(lines) == Join(lines) + "\n"
  {
    if |lines| == 1 {
      assert Terminated(lines[1..]) == "";
    } else {
      TerminatedJoin(lines[1..]);
    }
  }

  lemma {:induction false} TerminatedConcat(a: seq<Line>, b: seq<Line>)
    ensures Terminated(a + b) == Terminated(a) + Terminated(b)
  {
    if a == [] {
      assert a + b == b;
    } else {
      assert (a + b)[1..] == a[1..] + b;
      TerminatedConcat(a[1..], b);
    }
  }

  lemma BodyText(h: Hunk)
    ensures HunkText(h) == Terminated([h.header] + if h.lines == [] then [""] else h.lines)
  {
    var lines := if h.lines == [] then [""] else h.lines;
    TerminatedJoin(lines);
    assert ([h.header] + lines)[1..] == lines;
  }

  lemma {:induction false} RenderLines(pieces: seq<Piece>)
    ensures Render(pieces) == Terminated(LinesOfPieces(pieces))
  {
    if pieces != [] {
      hide Terminated, HeaderText, HunkText;
      var front, p := pieces[..|pieces| - 1], pieces[|pieces| - 1];
      RenderLines(front);
      TerminatedConcat(LinesOfPieces(front), PieceLines(p));
      if p.Body? {
        BodyText(p.hunk);
      }
    }
  }

  /** The text of a window splits into the lines of its pieces and one empty line. */
  lemma {:induction false} SplitTerminated(lines: seq<Line>)
    ensures Split(Terminated(lines)) == lines + [""]
  {
    if lines != [] {
      hide Split;
      SplitTerminated(lines[1..]);
      SplitConcat(lines[0], Terminated(lines[1..]));
    } else {
      assert Split("") == [""] == [] + [""];
    }
  }

  // ----- Parsing them back -----

  function MergePieces(pieces: seq<Piece>): E.LineMap {
    if pieces == [] then map[]
    else
      var m, p := MergePieces(pieces[..|pieces| - 1]), pieces[|pieces| - 1];
      if p.Body? then A.MergeHunk(m, p.file.path, p.hunk.addedLines) else m
  }

  function HunkHeaders(hunks: seq<Hunk>): seq<Line> {
    if hunks == [] then [] else HunkHeaders(hunks[..|hunks| - 1]) + [hunks[|hunks| - 1].header]
  }

  function FileHunkHeaders(files: seq<FileDiff>): seq<Line> {
    if files == [] then []
    else FileHunkHeaders(files[..|files| - 1]) + HunkHeaders(files[|files| - 1].hunks)
  }

  /** The hunk headers the parser has read, those of the open file and hunk included. */
  function HeadersRead(st: ParseState): seq<Line> {
    FileHunkHeaders(st.inv.files)
    + (if st.curFile.Some? then HunkHeaders(st.curFile.value.hunks) else [])
    + (if st.curHunk.Some? then [st.curHunk.value.header] else [])
  }

  function LastHeader(pieces: seq<Piece>): Option<FileDiff> {
    if pieces == [] then None
    else
      var p := pieces[|pieces| - 1];
      if p.Header? then Some(p.file) else LastHeader(pieces[..|pieces| - 1])
  }

  /** Every hunk stands under the header of its own file. */
  predicate Grouped(pieces: seq<Piece>) {
    pieces == [] ||
    (var front, p := pieces[..|pieces| - 1], pieces[|pieces| - 1];
     Grouped(front) && (p.Body? ==> LastHeader(front) == Some(p.file)))
  }

  lemma FlushKeepsHeaders(st: ParseState)
    requires st.curHunk.Some? ==> st.curFile.Some?
    ensures HeadersRead(FlushHunk(st)) == HeadersRead(st)
    ensures HeadersRead(FlushFile(st)) == HeadersRead(st)
  {
    var s := FlushHunk(st);
    if st.curHunk.Some? {
      var hunks := s.curFile.value.hunks;
      assert hunks[..|hunks| - 1] == st.curFile.value.hunks;
    }
    var t := FlushFile(st);
    if s.curFile.Some? {
      assert t.inv.files[..|t.inv.files| - 1] == s.inv.files;
    }
  }

  /** The parser has read exactly the pieces. */
  ghost predicate Mirrors(pieces: seq<Piece>, st: ParseState) {
    && !st.fileCapHit && !st.hunkCapHit
    && (st.curFile.Some? <==> LastHeader(pieces).Some?)
    && (st.curFile.Some? ==> st.curFile.value.path == LastHeader(pieces).value.path)
    && (st.curHunk.Some? ==> st.curFile.Some?)
    && A.Merged(st) == MergePieces(pieces)
    && HeadersRead(st) == HunkHeaders(HunksOf(pieces))
  }

  lemma GitLineOpensFile(o: ParseOptions, st: ParseState, git: Line)
    requires Resolved(o) && HasPrefix(git, "diff --git ") && !st.fileCapHit
    requires st.curHunk.Some? ==> st.curFile.Some?
    requires !ParseLine(o, st, git).inv.truncated
    ensures var s := ParseLine(o, st, git);
      && s.fileCapHit == st.fileCapHit && s.hunkCapHit == st.hunkCapHit
      && s.curHunk.None? && s.curFile.Some? && s.curFile.value.hunks == []
      && A.Merged(s) == A.Merged(st) && HeadersRead(s) == HeadersRead(st)
  {
    hide FileFromGitLine, CapReason, FlushFile, ReadHeaderLine, OpenHunk, AddToHunk;
    A.FlushFileKeepsMerged(st);
    FlushKeepsHeaders(st);
  }

  /** Header lines after the "diff --git" line leave everything but the file's path. */
  lemma {:induction false} HeaderLinesRead(o: ParseOptions, st: ParseState, lines: seq<Line>)
    requires Resolved(o) && !st.fileCapHit && st.curHunk.None? && st.curFile.Some? && st.curFile.value.hunks == []
    requires forall i :: 0 <= i < |lines| ==> HunkLine(lines[i])
    ensures var s := ParseLines(o, st, lines);
      && s == st.(curFile := s.curFile) && s.curFile.Some? && s.curFile.value.hunks == []
      && (lines != [] && HasPrefix(lines[|lines| - 1], "+++ b/") ==> s.curFile.value.path == lines[|lines| - 1][6..])
  {
    hide ParseLine;
    if lines != [] {
      HeaderLinesRead(o, st, lines[..|lines| - 1]);
      A.ParserOnHeaderLine(o, ParseLines(o, st, lines[..|lines| - 1]), lines[|lines| - 1]);
    }
  }

  lemma HeaderPieceLines(f: FileDiff)
    ensures var lines := PieceLines(Header(f)); var n := |lines|;
      && n > 1 && HasPrefix(lines[0], "diff --git ")
      && (forall i :: 1 <= i < n ==> HunkLine(lines[i]))
      && HasPrefix(lines[n - 1], "+++ b/") && lines[n - 1][6..] == f.path
  {
    var lines := PieceLines(Header(f));
    assert lines[0][..11] == "diff --git ";
    assert forall i :: 1 <= i < |lines| ==> lines[i][0] in {'r', '-', '+'};
    assert lines[|lines| - 1][..6] == "+++ b/";
  }

  lemma HeaderPieceRead(o: ParseOptions, pieces: seq<Piece>, f: FileDiff, st: ParseState)
    requires Resolved(o) && Mirrors(pieces, st)
    requires !ParseLines(o, st, PieceLines(Header(f))).inv.truncated
    ensures Mirrors(pieces + [Header(f)], ParseLines(o, st, PieceLines(Header(f))))
  {
    hide ParseLine, PieceLines, HunksOf, HunkHeaders, FileHunkHeaders, HunkLine;
    var lines := PieceLines(Header(f));
    HeaderPieceLines(f);
    var rest := lines[1..];
    assert lines == [lines[0]] + rest;
    ParseLinesConcat(o, st, [lines[0]], rest);
    assert [lines[0]][..0] == [];
    var s := ParseLine(o, st, lines[0]);
    assert ParseLines(o, st, [lines[0]]) == s;
    if s.inv.truncated {
      A.AllTruncated(o, s, rest);
    }
    GitLineOpensFile(o, st, lines[0]);
    HeaderLinesRead(o, s, rest);
    assert rest[|rest| - 1] == lines[|lines| - 1];
    PiecesSnoc(pieces, Header(f));
    assert (pieces + [Header(f)])[..|pieces|] == pieces;
    var t := ParseLines(o, s, rest);
    assert A.Merged(t) == A.MergeFiles(t.inv.files) == A.Merged(s);
    assert HeadersRead(t) == HeadersRead(s);
    assert HunksOf(pieces) + [] == HunksOf(pieces);
  }

  /** Reading body lines into the open hunk. */
  lemma {:induction false} BodyLinesRead(o: ParseOptions, st: ParseState, lines: seq<Line>)
    requires Resolved(o) && !st.fileCapHit && st.curFile.Some? && st.curHunk.Some?
    requires st.curHunk.value.addedLines == {} && st.curHunk.value.newStart == st.curLine
    requires forall i :: 0 <= i < |lines| ==> HunkLine(lines[i])
    ensures var s := ParseLines(o, st, lines); var read := BodyLines(st.curLine, lines);
      && s.curHunk.Some? && s.curHunk.value.header == st.curHunk.value.header
      && s.curHunk.value.addedLines == read.0 && s.curLine == read.1
      && s.(curHunk := st.curHunk, curLine := st.curLine) == st
  {
    hide BodyLine;
    if lines != [] {
      hide ReadHeaderLine, OpenHunk, OpenFile;
      var front, l := lines[..|lines| - 1], lines[|lines| - 1];
      assert HunkLine(l);
      BodyLinesRead(o, st, front);
    }
  }

  lemma HeaderStartsWithAt(line: string)
    requires ParseHunkHeader(line).Some?
    ensures HasPrefix(line, "@@")
  {
    hide Index, Fields, TrimSpace, ParseRange;
  }

  lemma HunkHeaderOpens(o: ParseOptions, st: ParseState, h: Hunk)
    requires Resolved(o) && WellHunk(h) && !st.fileCapHit && !st.hunkCapHit && st.curFile.Some?
    requires !ParseLine(o, st, h.header).inv.truncated
    ensures var s := ParseLine(o, st, h.header);
      && !s.fileCapHit && !s.hunkCapHit
      && s.curFile.Some? && s.curFile.value.path == st.curFile.value.path
      && s.curHunk.Some? && s.curHunk.value.header == h.header && s.curHunk.value.addedLines == {}
      && s.curLine == h.newStart == s.curHunk.value.newStart
      && A.Merged(s) == A.Merged(st)
      && HeadersRead(s) == HeadersRead(st) + [h.header]
  {
    hide ParseLine, ParseHunkHeader, FileHunkHeaders, HunkHeaders, FlushHunk, CapReason, Itoa, A.Merged, HunkLine,
      BodyLines;
    HeaderStartsWithAt(h.header);
    A.HunkHeaderLine(o, st, h.header);
    A.OpenHunkAgrees(o, st, h.header);
    FlushKeepsHeaders(st);
    A.FlushHunkKeepsMerged(st);
    var s := OpenHunk(o, st, h.header);
    assert s.inv == FlushHunk(st).inv;
  }

  function BodyRest(h: Hunk): seq<Line> {
    if h.lines == [] then [""] else h.lines
  }

  /** Reading a hunk's header and body adds the header and the added lines, and nothing else. */
  lemma HunkRead(o: ParseOptions, st: ParseState, h: Hunk)
    requires Resolved(o) && WellHunk(h) && !st.fileCapHit && !st.hunkCapHit && st.curFile.Some?
    requires !ParseLines(o, st, [h.header] + BodyRest(h)).inv.truncated
    ensures var t := ParseLines(o, st, [h.header] + BodyRest(h));
      && !t.fileCapHit && !t.hunkCapHit
      && t.curFile.Some? && t.curFile.value.path == st.curFile.value.path && t.curHunk.Some?
      && A.Merged(t) == A.MergeHunk(A.Merged(st), st.curFile.value.path, h.addedLines)
      && HeadersRead(t) == HeadersRead(st) + [h.header]
  {
    hide ParseLine, FileHunkHeaders, HunkHeaders, ParseHunkHeader, A.MergeFiles, A.MergeHunks, A.MergeHunk;
    var rest := BodyRest(h);
    ParseLinesConcat(o, st, [h.header], rest);
    var s := ParseLine(o, st, h.header);
    assert ParseLines(o, st, [h.header]) == s by {
      assert [h.header][..0] == [];
    }
    hide ParseLines;
    if s.inv.truncated {
      A.AllTruncated(o, s, rest);
    }
    HunkHeaderOpens(o, st, h);
    assert HunkLine("");
    BodyLinesRead(o, s, rest);
    BlankAddsNothing(h.newStart);
    A.MergeNothing(A.MergeHunks(A.MergeFiles(s.inv.files), s.curFile.value.path, s.curFile.value.hunks),
      s.curFile.value.path);
  }

  lemma BodyPieceRead(o: ParseOptions, pieces: seq<Piece>, f: FileDiff, h: Hunk, st: ParseState)
    requires Resolved(o) && Mirrors(pieces, st) && LastHeader(pieces) == Some(f) && WellHunk(h)
    requires !ParseLines(o, st, PieceLines(Body(f, h))).inv.truncated
    ensures Mirrors(pieces + [Body(f, h)], ParseLines(o, st, PieceLines(Body(f, h))))
  {
    hide ParseLines, HunksOf, FileHunkHeaders, HunkHeaders, WellHunk, A.Merged, HeadersRead;
    HunkRead(o, st, h);
    PiecesSnoc(pieces, Body(f, h));
    HunkHeadersSnoc(HunksOf(pieces), h);
    assert (pieces + [Body(f, h)])[..|pieces|] == pieces;
  }

  lemma HunkHeadersSnoc(hunks: seq<Hunk>, h: Hunk)
    ensures HunkHeaders(hunks + [h]) == HunkHeaders(hunks) + [h.header]
  {
    assert (hunks + [h])[..|hunks|] == hunks;
  }

  lemma BlankAddsNothing(start: int)
    ensures BodyLines(start, [""]).0 == BodyLines(start, []).0 == {}
  {
    assert [""][..0] == [];
  }

  ghost predicate WellBodies(pieces: seq<Piece>) {
    forall i :: 0 <= i < |pieces| && pieces[i].Body? ==> WellHunk(pieces[i].hunk)
  }

  lemma PieceRead(o: ParseOptions, front: seq<Piece>, p: Piece, st: ParseState)
    requires Resolved(o) && Mirrors(front, st)
    requires p.Body? ==> LastHeader(front) == Some(p.file) && WellHunk(p.hunk)
    requires !ParseLines(o, st, PieceLines(p)).inv.truncated
    ensures Mirrors(front + [p], ParseLines(o, st, PieceLines(p)))
  {
    hide ParseLines, Mirrors, WellHunk, PieceLines, LastHeader;
    match p
    case Header(f) => HeaderPieceRead(o, front, f, st);
    case Body(f, h) => BodyPieceRead(o, front, f, h, st);
  }

  lemma LastPiece(pieces: seq<Piece>)
    requires pieces != [] && Grouped(pieces) && WellBodies(pieces)
    ensures var front, p := pieces[..|pieces| - 1], pieces[|pieces| - 1];
      && front + [p] == pieces && Grouped(front) && WellBodies(front)
      && (p.Body? ==> LastHeader(front) == Some(p.file) && WellHunk(p.hunk))
      && LinesOfPieces(pieces) == LinesOfPieces(front) + PieceLines(p)
  {
    hide WellHunk, PieceLines, LastHeader;
  }

  lemma NothingRead()
    ensures Mirrors([], START)
  {
  }

  lemma {:induction false} PiecesRead(o: ParseOptions, pieces: seq<Piece>)
    requires Resolved(o) && Grouped(pieces) && WellBodies(pieces)
    requires !ParseLines(o, START, LinesOfPieces(pieces)).inv.truncated
    ensures Mirrors(pieces, ParseLines(o, START, LinesOfPieces(pieces)))
  {
    hide ParseLine, Mirrors, WellHunk, PieceLines, LastHeader, Grouped, WellBodies;
    if pieces == [] {
      NothingRead();
    } else {
      hide ParseLines, LinesOfPieces;
      LastPiece(pieces);
      var front, p := pieces[..|pieces| - 1], pieces[|pieces| - 1];
      var st := ParseLines(o, START, LinesOfPieces(front));
      ParseLinesConcat(o, START, LinesOfPieces(front), PieceLines(p));
      if st.inv.truncated {
        A.AllTruncated(o, st, PieceLines(p));
      }
      PiecesRead(o, front);
      PieceRead(o, front, p, st);
    }
  }

  lemma BlankLineRead(o: ParseOptions, pieces: seq<Piece>, st: ParseState)
    requires Resolved(o) && Mirrors(pieces, st)
    ensures Mirrors(pieces, ParseLine(o, st, ""))
  {
    hide OpenFile, OpenHunk, FlushFile, MergePieces, FileHunkHeaders, HunkHeaders, HunksOf;
    if st.curFile.Some? {
      A.HeaderLineSetsPath(st.curFile.value, "");
    }
  }

  /** Parsing the text of pieces that stand under their own headers gives their hunk headers in order and
      their added lines, file by file. */
  lemma GroupedTextReadsBack(pieces: seq<Piece>, options: ParseOptions)
    requires pieces != [] && Grouped(pieces) && WellBodies(pieces)
    requires !ParseSpec(Render(pieces), options).truncated
    ensures var again := ParseSpec(Render(pieces), options);
      && A.MergeFiles(again.files) == MergePieces(pieces)
      && FileHunkHeaders(again.files) == HunkHeaders(HunksOf(pieces))
  {
    hide ParseLine, FlushFile, Grouped, WellBodies, Mirrors, MergePieces, HunksOf;
    var raw := Render(pieces);
    var lines := LinesOfPieces(pieces);
    var o := ResolveOptions(options);
    RenderLines(pieces);
    SplitTerminated(lines);
    TextNotBlank(pieces);
    var st := ParseLines(o, START, lines);
    if |raw| > o.maxBytes {
      A.AllTruncated(o, StartFor(raw, o.maxBytes), Split(CutToBytes(raw, o.maxBytes)));
    }
    ParseLinesSnoc(o, START, lines, "");
    if st.inv.truncated {
      A.TruncationSticks(o, st, "");
      A.AllTruncated(o, ParseLine(o, st, ""), []);
    }
    PiecesRead(o, pieces);
    BlankLineRead(o, pieces, st);
    MirrorsFlushed(pieces, ParseLine(o, st, ""));
  }

  lemma MirrorsFlushed(pieces: seq<Piece>, st: ParseState)
    requires Mirrors(pieces, st)
    ensures var files := FlushFile(st).inv.files;
      && A.MergeFiles(files) == MergePieces(pieces)
      && FileHunkHeaders(files) == HunkHeaders(HunksOf(pieces))
  {
    hide FlushFile, MergePieces, HunksOf, HunkHeaders;
    A.FlushFileKeepsMerged(st);
    FlushKeepsHeaders(st);
  }

  lemma FirstOfGrouped(pieces: seq<Piece>)
    requires pieces != [] && Grouped(pieces)
    ensures pieces[0].Header?
  {
    if |pieces| > 1 {
      assert pieces[..|pieces| - 1][0] == pieces[0];
      FirstOfGrouped(pieces[..|pieces| - 1]);
    }
  }

  lemma FirstLine(pieces: seq<Piece>)
    requires pieces != [] && pieces[0].Header?
    ensures LinesOfPieces(pieces) != [] && HasPrefix(LinesOfPieces(pieces)[0], "diff --git ")
  {
    hide HeaderLines;
    if |pieces| == 1 {
      HeaderPieceLines(pieces[0].file);
    } else {
      assert pieces[..|pieces| - 1][0] == pieces[0];
      FirstLine(pieces[..|pieces| - 1]);
    }
  }

  lemma TextNotBlank(pieces: seq<Piece>)
    requires pieces != [] && Grouped(pieces)
    ensures TrimSpace(Render(pieces)) != ""
  {
    hide TrimSpace, Render, Grouped;
    FirstOfGrouped(pieces);
    FirstLine(pieces);
    RenderLines(pieces);
    var raw, first := Render(pieces), LinesOfPieces(pieces)[0];
    assert raw[0] == first[0] == 'd';
    if TrimSpace(raw) == "" {
      A.BlankText(raw);
      assert false;
    }
  }

  // ----- Windows are grouped -----

  /** The window starts in the middle of a file, or all its hunks stand under their headers. */
  predicate Coherent(pieces: seq<Piece>) {
    pieces == [] || pieces[0].Body? || Grouped(pieces)
  }

  ghost predicate Filed(d: Draft) {
    Coherent(d.pieces) && WellBodies(d.pieces)
  }

  /** While the packer is in file `f`. */
  ghost predicate Filing(st: PackState, f: FileDiff) {
    && (forall i :: 0 <= i < |st.done| ==> Filed(st.done[i])) && Filed(st.cur)
    && (if st.headerIncluded then LastHeader(st.cur.pieces) == Some(f) || LastHeader(st.cur.pieces) == None
        else !Seen(st.cur, f.path))
  }

  lemma NoHeaderStartsMidFile(pieces: seq<Piece>)
    requires pieces != [] && LastHeader(pieces).None?
    ensures pieces[0].Body?
  {
    if |pieces| > 1 {
      NoHeaderStartsMidFile(pieces[..|pieces| - 1]);
    }
  }

  lemma FiledSnoc(d: Draft, p: Piece)
    requires Filed(d)
    requires p.Body? ==> WellHunk(p.hunk) && (LastHeader(d.pieces) == Some(p.file) || LastHeader(d.pieces).None?)
    ensures Filed(d.(pieces := d.pieces + [p]))
    ensures LastHeader(d.pieces + [p]) == if p.Header? then Some(p.file) else LastHeader(d.pieces)
  {
    hide WellHunk;
    var all := d.pieces + [p];
    assert all[..|all| - 1] == d.pieces && all[|d.pieces|] == p;
    assert forall i :: 0 <= i < |d.pieces| ==> all[i] == d.pieces[i];
    if d.pieces != [] && LastHeader(d.pieces).None? {
      NoHeaderStartsMidFile(d.pieces);
    }
    assert WellBodies(all);
    if all[0].Header? {
      assert Grouped(d.pieces) && Grouped(all);
    }
  }

  lemma PlaceFiles(st: PackState, f: FileDiff, h: Hunk)
    requires Filing(st, f) && WellHunk(h)
    ensures Filing(Place(st, f, h), f)
    ensures FilesOf(Place(st, f, h).cur.pieces) <= FilesOf(st.cur.pieces) + [f.path]
  {
    hide Filed, WellHunk, FilesOf, LastHeader;
    if NeedsHeader(st, f) {
      FiledSnoc(st.cur, Header(f));
      PiecesSnoc(st.cur.pieces, Header(f));
      var d := st.cur.(pieces := st.cur.pieces + [Header(f)]);
      FiledSnoc(d, Body(f, h));
      PiecesSnoc(d.pieces, Body(f, h));
    } else {
      FiledSnoc(st.cur, Body(f, h));
      PiecesSnoc(st.cur.pieces, Body(f, h));
    }
  }

  /** Every path in the window being filled is that of a file already met. */
  ghost predicate FromPaths(st: PackState, paths: set<string>) {
    forall p :: p in FilesOf(st.cur.pieces) ==> p in paths
  }

  lemma FinishFiles(st: PackState, f: FileDiff, paths: set<string>)
    requires Filing(st, f) && FromPaths(st, paths)
    ensures Filing(FinishWindow(st), f) && FromPaths(FinishWindow(st), paths)
  {
    hide WellHunk;
    assert Filed(Draft([], []));
    assert LastHeader([]).None? && FilesOf([]) == [];
    hide Filed, LastHeader, FilesOf;
  }

  lemma PlaceFilesIn(st: PackState, f: FileDiff, h: Hunk, paths: set<string>)
    requires Filing(st, f) && WellHunk(h) && FromPaths(st, paths) && f.path in paths
    ensures Filing(Place(st, f, h), f) && FromPaths(Place(st, f, h), paths)
  {
    hide Filing, WellHunk, Place, FilesOf;
    PlaceFiles(st, f, h);
  }

  lemma PackHunkFiles(maxBytes: nat, st: PackState, f: FileDiff, h: Hunk, paths: set<string>)
    requires Filing(st, f) && WellHunk(h) && FromPaths(st, paths) && f.path in paths
    ensures Filing(PackHunk(maxBytes, st, f, h), f) && FromPaths(PackHunk(maxBytes, st, f, h), paths)
  {
    hide Filing, FromPaths, WellHunk, Place, FinishWindow, Reject, Cost, Size, HeaderText, HunkText;
    var next, cost, full := FinishWindow(st), Cost(st, f, h), |HeaderText(f)| + |HunkText(h)|;
    FinishFiles(st, f, paths);
    PlaceFilesIn(st, f, h, paths);
    PlaceFilesIn(next, f, h, paths);
    RejectFiles(maxBytes, st, f, h, cost, paths);
    RejectFiles(maxBytes, next, f, h, full, paths);
  }

  lemma RejectFiles(maxBytes: nat, st: PackState, f: FileDiff, h: Hunk, cost: nat, paths: set<string>)
    requires Filing(st, f) && FromPaths(st, paths)
    ensures Filing(Reject(st, f, h, cost, maxBytes), f) && FromPaths(Reject(st, f, h, cost, maxBytes), paths)
  {
    hide OversizedReason, WellBodies, Coherent;
  }

  lemma {:induction false} PackHunksFiles(maxBytes: nat, st: PackState, f: FileDiff, hunks: seq<Hunk>,
      paths: set<string>)
    requires Filing(st, f) && FromPaths(st, paths) && f.path in paths
    requires forall i :: 0 <= i < |hunks| ==> WellHunk(hunks[i])
    ensures Filing(PackHunks(maxBytes, st, f, hunks), f) && FromPaths(PackHunks(maxBytes, st, f, hunks), paths)
  {
    hide PackHunk, Filing, FromPaths, WellHunk;
    if hunks != [] {
      PackHunksFiles(maxBytes, st, f, hunks[..|hunks| - 1], paths);
      PackHunkFiles(maxBytes, PackHunks(maxBytes, st, f, hunks[..|hunks| - 1]), f, hunks[|hunks| - 1], paths);
    }
  }

  ghost predicate DistinctPaths(files: seq<FileDiff>) {
    forall i, j :: 0 <= i < j < |files| ==> files[i].path != files[j].path
  }

  function Paths(files: seq<FileDiff>): set<string> {
    set i | 0 <= i < |files| :: files[i].path
  }

  lemma {:induction false} PackFilesFiles(maxBytes: nat, omissions: seq<Omission>, files: seq<FileDiff>)
    requires WellFiles(files) && DistinctPaths(files)
    ensures var st := PackFiles(maxBytes, PackStart(omissions), files);
      && (forall i :: 0 <= i < |st.done| ==> Filed(st.done[i])) && Filed(st.cur)
      && FromPaths(st, Paths(files))
  {
    if files != [] {
      hide PackHunks, Filed, WellFile;
      var front, f := files[..|files| - 1], files[|files| - 1];
      PackFilesFiles(maxBytes, omissions, front);
      var st := PackFiles(maxBytes, PackStart(omissions), front);
      assert f.path in Paths(files) && Paths(front) <= Paths(files);
      assert f.path !in Paths(front);
      if HasText(f) && f.hunks != [] {
        assert WellFile(f);
        PackHunksFilesOf(maxBytes, st.(headerIncluded := false), f, Paths(files));
      } else {
        OmitFiles(st, if f.isBinary then "binary file" else "mode change only", f);
      }
    }
  }

  lemma PackHunksFilesOf(maxBytes: nat, st: PackState, f: FileDiff, paths: set<string>)
    requires Filing(st, f) && FromPaths(st, paths) && f.path in paths && WellFile(f)
    ensures Filing(PackHunks(maxBytes, st, f, f.hunks), f)
    ensures FromPaths(PackHunks(maxBytes, st, f, f.hunks), paths)
  {
    PackHunksFiles(maxBytes, st, f, f.hunks, paths);
  }

  lemma OmitFiles(st: PackState, reason: string, f: FileDiff)
    requires Filed(st.cur)
    ensures Filed(OmitHere(st, Omission(f.path, "", reason)).cur)
  {
  }

  /** A window of well-formed hunks of files with distinct paths that does not start in the middle of a file
      parses back to its own hunk headers and added lines. */
  lemma WindowReadsBack(inv: ChangeInventory, maxBytes: nat, i: nat, again: ParseOptions)
    requires WellFiles(inv.files) && DistinctPaths(inv.files)
    requires i < |Drafts(inv, maxBytes)|
    requires var pieces := Drafts(inv, maxBytes)[i].pieces;
      pieces != [] && pieces[0].Header? && !ParseSpec(Render(pieces), again).truncated
    ensures var pieces := Drafts(inv, maxBytes)[i].pieces;
      && A.MergeFiles(ParseSpec(Render(pieces), again).files) == MergePieces(pieces)
      && FileHunkHeaders(ParseSpec(Render(pieces), again).files) == HunkHeaders(HunksOf(pieces))
  {
    hide ParseSpec, PackFiles, MergePieces, HunkHeaders, HunksOf, WellBodies;
    PackFilesFiles(maxBytes, inv.omissions, inv.files);
    var d := Drafts(inv, maxBytes)[i];
    assert Filed(d);
    GroupedTextReadsBack(d.pieces, again);
  }

  lemma DraftBodiesWell(inv: ChangeInventory, maxBytes: nat, i: nat)
    requires WellFiles(inv.files) && DistinctPaths(inv.files)
    requires i < |Drafts(inv, maxBytes)|
    ensures WellBodies(Drafts(inv, maxBytes)[i].pieces)
  {
    hide PackFiles, WellBodies;
    PackFilesFiles(maxBytes, inv.omissions, inv.files);
    assert Filed(Drafts(inv, maxBytes)[i]);
  }
}
