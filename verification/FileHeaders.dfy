/** What the parser knows of a file, said of the header lines it keeps of it. */
module FileHeaders {
  import opened Text
  import opened TextLaws
  import opened Diff

  /** What follows the prefix on the last line that starts with it. */
  function LastRest(lines: seq<Line>, prefix: string): Option<string> {
    if lines == [] then None
    else
      var last := lines[|lines| - 1];
      if HasPrefix(last, prefix) then Some(last[|prefix|..]) else LastRest(lines[..|lines| - 1], prefix)
  }

  ghost predicate SomeStarts(lines: seq<Line>, prefix: string) {
    exists i :: 0 <= i < |lines| && HasPrefix(lines[i], prefix)
  }

  /** The path a line gives the file: a "+++" line other than that of a deleted file, and "rename to". */
  function PathIn(line: Line): Option<string> {
    if HasPrefix(line, "+++ ") && line != "+++ /dev/null" then
      Some(if HasPrefix(line[4..], "b/") then line[6..] else line[4..])
    else if HasPrefix(line, "rename to ") then Some(line[10..])
    else None
  }

  function LastPath(lines: seq<Line>): Option<string> {
    if lines == [] then None
    else if PathIn(lines[|lines| - 1]).Some? then PathIn(lines[|lines| - 1])
    else LastPath(lines[..|lines| - 1])
  }

  function NewModeIn(line: Line): Option<string> {
    if HasPrefix(line, "new mode ") then Some(line[9..])
    else if HasPrefix(line, "new file mode ") then Some(line[14..])
    else None
  }

  function LastNewMode(lines: seq<Line>): Option<string> {
    if lines == [] then None
    else if NewModeIn(lines[|lines| - 1]).Some? then NewModeIn(lines[|lines| - 1])
    else LastNewMode(lines[..|lines| - 1])
  }

  lemma StartsSnoc(lines: seq<Line>, line: Line, prefix: string)
    ensures SomeStarts(lines + [line], prefix) <==> SomeStarts(lines, prefix) || HasPrefix(line, prefix)
  {
    var more := lines + [line];
    if HasPrefix(line, prefix) {
      assert more[|lines|] == line;
    } else if SomeStarts(lines, prefix) {
      var i :| 0 <= i < |lines| && HasPrefix(lines[i], prefix);
      assert more[i] == lines[i];
    }
  }

  lemma RestSnoc(lines: seq<Line>, line: Line, prefix: string)
    ensures LastRest(lines + [line], prefix) ==
      if HasPrefix(line, prefix) then Some(line[|prefix|..]) else LastRest(lines, prefix)
  {
    assert (lines + [line])[..|lines|] == lines;
  }

  lemma PathSnoc(lines: seq<Line>, line: Line)
    ensures LastPath(lines + [line]) == if PathIn(line).Some? then PathIn(line) else LastPath(lines)
  {
    assert (lines + [line])[..|lines|] == lines;
  }

  lemma NewModeSnoc(lines: seq<Line>, line: Line)
    ensures LastNewMode(lines + [line]) == if NewModeIn(line).Some? then NewModeIn(line) else LastNewMode(lines)
  {
    assert (lines + [line])[..|lines|] == lines;
  }

  /** How the file changed. */
  ghost predicate FlagsTold(f: FileDiff) {
    var lines := f.headerLines;
    && (f.isNew <==> SomeStarts(lines, "new file mode "))
    && (f.isDeleted <==> SomeStarts(lines, "deleted file mode "))
    && (f.isRename <==> SomeStarts(lines, "rename from ") || SomeStarts(lines, "rename to "))
    && (f.isBinary <==> SomeStarts(lines, "Binary files ") || SomeStarts(lines, "GIT binary patch"))
  }

  /** What it is called, and was. */
  ghost predicate NamesTold(f: FileDiff) {
    var path, from := LastPath(f.headerLines), LastRest(f.headerLines, "rename from ");
    && (path.Some? ==> f.path == path.value)
    && (from.Some? && from.value != "" ==> f.oldPath == from.value)
  }

  /** Until another line names it, it has the name its first line gives it. */
  ghost predicate FirstTold(f: FileDiff) {
    LastPath(f.headerLines).None? && f.headerLines != [] && HasPrefix(f.headerLines[0], "diff --git ") ==>
      f.path == FileFromGitLine(f.headerLines[0]).path
  }

  function OrNone(s: Option<string>): string {
    match s
    case Some(text) => text
    case None => ""
  }

  /** The modes its lines give it. */
  ghost predicate ModesTold(f: FileDiff) {
    && f.oldMode == OrNone(LastRest(f.headerLines, "old mode "))
    && f.newMode == OrNone(LastNewMode(f.headerLines))
  }

  ghost predicate Told(f: FileDiff) {
    FlagsTold(f) && NamesTold(f) && FirstTold(f) && ModesTold(f)
  }

  /** No line starts with two of the prefixes. */
  lemma Prefixes(line: Line)
    ensures HasPrefix(line, "old mode ") ==> line[0] == 'o'
    ensures HasPrefix(line, "new mode ") ==> line[0] == 'n' && line[4] == 'm'
    ensures HasPrefix(line, "new file mode ") ==> line[0] == 'n' && line[4] == 'f'
    ensures HasPrefix(line, "deleted file mode ") ==> line[0] == 'd' && line[1] == 'e'
    ensures HasPrefix(line, "diff --git ") ==> line[0] == 'd' && line[1] == 'i'
    ensures HasPrefix(line, "similarity index ") ==> line[0] == 's'
    ensures HasPrefix(line, "Binary files ") ==> line[0] == 'B'
    ensures HasPrefix(line, "GIT binary patch") ==> line[0] == 'G'
    ensures HasPrefix(line, "rename from ") ==> line[0] == 'r' && line[7] == 'f'
    ensures HasPrefix(line, "rename to ") ==> line[0] == 'r' && line[7] == 't'
    ensures HasPrefix(line, "--- ") ==> line[0] == '-'
    ensures HasPrefix(line, "+++ ") ==> line[0] == '+'
  {
  }

  lemma Rest(line: Line, prefix: string)
    ensures HasPrefix(line, prefix) ==> TrimPrefix(line, prefix) == line[|prefix|..]
  {
  }

  lemma FlagsStep(f: FileDiff, line: Line)
    requires FlagsTold(f)
    ensures match ReadHeaderLine(f, line)
      case Some(g) => FlagsTold(g)
      case None => FlagsTold(f.(headerLines := f.headerLines + [line]))
  {
    StartsSnoc(f.headerLines, line, "new file mode ");
    StartsSnoc(f.headerLines, line, "deleted file mode ");
    StartsSnoc(f.headerLines, line, "rename from ");
    StartsSnoc(f.headerLines, line, "rename to ");
    StartsSnoc(f.headerLines, line, "Binary files ");
    StartsSnoc(f.headerLines, line, "GIT binary patch");
    Prefixes(line);
    hide SomeStarts, Atoi, TrimSuffix, TrimPrefix;
  }

  lemma PathLineKeepsModes(f: FileDiff, line: Line)
    ensures ReadPathLine(f, line).Some? ==>
      && ReadPathLine(f, line).value.oldMode == f.oldMode && ReadPathLine(f, line).value.newMode == f.newMode
      && ReadPathLine(f, line).value.headerLines == f.headerLines
  {
    hide TrimPrefix, HasPrefix;
  }

  /** What a header line says of the modes. */
  lemma ModesRead(f: FileDiff, line: Line)
    ensures match ReadHeaderLine(f, line)
      case Some(g) =>
        && g.oldMode == (if HasPrefix(line, "old mode ") then line[9..] else f.oldMode)
        && g.newMode == (if NewModeIn(line).Some? then NewModeIn(line).value else f.newMode)
      case None => !HasPrefix(line, "old mode ") && NewModeIn(line).None?
  {
    PathLineKeepsModes(f.(headerLines := f.headerLines + [line]), line);
    Prefixes(line);
    Rest(line, "old mode ");
    Rest(line, "new mode ");
    Rest(line, "new file mode ");
    hide ReadPathLine, Atoi, TrimSuffix, TrimPrefix, HasPrefix;
  }

  lemma ModesStep(f: FileDiff, line: Line)
    requires ModesTold(f)
    ensures match ReadHeaderLine(f, line)
      case Some(g) => ModesTold(g)
      case None => ModesTold(f.(headerLines := f.headerLines + [line]))
  {
    RestSnoc(f.headerLines, line, "old mode ");
    NewModeSnoc(f.headerLines, line);
    ModesRead(f, line);
    LinesKept(f, line);
    hide LastRest, LastNewMode, NewModeIn, ReadHeaderLine;
  }

  lemma ModeLineKeepsNames(f: FileDiff, line: Line)
    ensures ReadModeLine(f, line).Some? ==>
      && ReadModeLine(f, line).value.path == f.path && ReadModeLine(f, line).value.oldPath == f.oldPath
  {
    hide Atoi, TrimSuffix, TrimPrefix, HasPrefix;
  }

  /** What a header line says of the names. */
  lemma PathLineNames(f: FileDiff, line: Line)
    ensures match ReadPathLine(f, line)
      case Some(g) =>
        && g.path == (if PathIn(line).Some? then PathIn(line).value else f.path)
        && (HasPrefix(line, "rename from ") ==> g.oldPath == line[12..])
        && (!HasPrefix(line, "rename from ") && f.oldPath != "" ==> g.oldPath == f.oldPath)
      case None => PathIn(line).None? && !HasPrefix(line, "rename from ")
  {
    Prefixes(line);
    Rest(line, "rename from ");
    Rest(line, "rename to ");
    PlusRest(line);
    hide TrimPrefix, HasPrefix;
  }

  lemma PlusRest(line: Line)
    ensures HasPrefix(line, "+++ ") ==>
      && (line == "+++ /dev/null" <==> TrimPrefix(line, "+++ ") == "/dev/null")
      && TrimPrefix(TrimPrefix(line, "+++ "), "b/") == if HasPrefix(line[4..], "b/") then line[6..] else line[4..]
  {
    if HasPrefix(line, "+++ ") {
      Rest(line, "+++ ");
      assert line == "+++ " + line[4..];
    }
  }

  lemma NamesStep(f: FileDiff, line: Line)
    requires NamesTold(f)
    ensures match ReadHeaderLine(f, line)
      case Some(g) => NamesTold(g)
      case None => NamesTold(f.(headerLines := f.headerLines + [line]))
  {
    var g := f.(headerLines := f.headerLines + [line]);
    PathSnoc(f.headerLines, line);
    RestSnoc(f.headerLines, line, "rename from ");
    ModeLineKeepsNames(g, line);
    PathLineNames(g, line);
    ModeLineIsNoPath(g, line);
    LinesKept(f, line);
    hide LastPath, LastRest, PathIn, ReadModeLine, ReadPathLine;
  }

  lemma ModeLineIsNoPath(f: FileDiff, line: Line)
    ensures ReadModeLine(f, line).Some? ==> PathIn(line).None? && !HasPrefix(line, "rename from ")
  {
    Prefixes(line);
    hide Atoi, TrimSuffix, TrimPrefix;
  }

  lemma PathKept(f: FileDiff, line: Line)
    requires PathIn(line).None?
    ensures ReadHeaderLine(f, line).Some? ==> ReadHeaderLine(f, line).value.path == f.path
  {
    var g := f.(headerLines := f.headerLines + [line]);
    ModeLineKeepsNames(g, line);
    PathLineNames(g, line);
    hide ReadModeLine, ReadPathLine, PathIn;
  }

  lemma LinesKept(f: FileDiff, line: Line)
    ensures ReadHeaderLine(f, line).Some? ==> ReadHeaderLine(f, line).value.headerLines == f.headerLines + [line]
  {
    hide Atoi, TrimSuffix, TrimPrefix, HasPrefix;
  }

  lemma FirstStep(f: FileDiff, line: Line)
    requires FirstTold(f) && !HasPrefix(line, "diff --git ")
    ensures match ReadHeaderLine(f, line)
      case Some(g) => FirstTold(g)
      case None => FirstTold(f.(headerLines := f.headerLines + [line]))
  {
    PathSnoc(f.headerLines, line);
    LinesKept(f, line);
    if PathIn(line).None? {
      PathKept(f, line);
    }
    hide LastPath, PathIn, ReadHeaderLine, FileFromGitLine;
    assert f.headerLines != [] ==> (f.headerLines + [line])[0] == f.headerLines[0];
  }

  lemma ModeOnlyStep(f: FileDiff, line: Line)
    ensures ReadHeaderLine(f, line).Some? ==> ReadHeaderLine(f, line).value.isModeOnly == f.isModeOnly
  {
    hide Atoi, TrimSuffix, TrimPrefix, HasPrefix;
  }

  lemma Step(f: FileDiff, line: Line)
    requires Told(f) && !HasPrefix(line, "diff --git ")
    ensures match ReadHeaderLine(f, line)
      case Some(g) => Told(g) && g.isModeOnly == f.isModeOnly
      case None => Told(f.(headerLines := f.headerLines + [line]))
  {
    FlagsStep(f, line);
    NamesStep(f, line);
    ModesStep(f, line);
    FirstStep(f, line);
    ModeOnlyStep(f, line);
    hide FlagsTold, NamesTold, FirstTold, ModesTold, ReadHeaderLine;
  }

  lemma NoneStarts(prefix: string)
    ensures !SomeStarts([], prefix) && LastRest([], prefix).None? && LastPath([]).None? && LastNewMode([]).None?
  {
  }

  /** A file just opened: by its "diff --git" line, by a "---" line, or by a hunk. */
  lemma OpenedTold(path: Line, oldPath: Line, line: Line)
    requires HasPrefix(line, "--- ") || (HasPrefix(line, "diff --git ") && path == FileFromGitLine(line).path)
    ensures Told(EmptyFile(path, oldPath, [line])) && Told(EmptyFile(path, oldPath, []))
  {
    assert [] + [line] == [line];
    Prefixes(line);
    StartsSnoc([], line, "new file mode ");
    StartsSnoc([], line, "deleted file mode ");
    StartsSnoc([], line, "rename from ");
    StartsSnoc([], line, "rename to ");
    StartsSnoc([], line, "Binary files ");
    StartsSnoc([], line, "GIT binary patch");
    PathSnoc([], line);
    NewModeSnoc([], line);
    RestSnoc([], line, "rename from ");
    RestSnoc([], line, "old mode ");
    hide SomeStarts, LastRest, LastPath, LastNewMode, FileFromGitLine;
    NoneStarts("new file mode ");
    NoneStarts("deleted file mode ");
    NoneStarts("rename from ");
    NoneStarts("rename to ");
    NoneStarts("Binary files ");
    NoneStarts("GIT binary patch");
    NoneStarts("old mode ");
  }

  // ----- Over a parse -----

  /** A file that is done: it only changed its mode if it says so, with both modes, no hunk and no binary. */
  ghost predicate Finished(f: FileDiff) {
    && Told(f)
    && (f.isModeOnly <==> f.hunks == [] && f.oldMode != "" && f.newMode != "" && !f.isBinary)
  }

  ghost predicate AllFinished(files: seq<FileDiff>) {
    forall i :: 0 <= i < |files| ==> Finished(files[i])
  }

  ghost predicate StateTold(st: ParseState) {
    AllFinished(st.inv.files) && (st.curFile.Some? ==> Told(st.curFile.value) && !st.curFile.value.isModeOnly)
  }

  lemma SameTold(f: FileDiff, g: FileDiff)
    requires Told(f) && g == f.(hunks := g.hunks, isModeOnly := g.isModeOnly)
    ensures Told(g)
  {
    hide SomeStarts, LastRest, LastPath, LastNewMode, FileFromGitLine;
  }

  lemma FlushTold(st: ParseState)
    requires StateTold(st)
    ensures StateTold(FlushHunk(st)) && StateTold(FlushFile(st)) && FlushFile(st).curFile.None?
  {
    hide Told, Join;
    if st.curFile.Some? {
      var f := st.curFile.value;
      var done := FlushHunk(st).curFile.value;
      SameTold(f, done);
      SameTold(done, CloseFile(done));
    }
  }

  lemma OpenTold(o: ParseOptions, st: ParseState, f: FileDiff)
    requires Resolved(o) && StateTold(st) && Told(f) && !f.isModeOnly
    ensures StateTold(OpenFile(o, st, f))
  {
    hide Told, CapReason;
  }

  /** Opening a hunk leaves the files done alone, and the open one if there is one. */
  lemma OpenHunkFiles(o: ParseOptions, st: ParseState, line: Line)
    requires Resolved(o)
    ensures var s, flushed := OpenHunk(o, st, line), FlushHunk(st);
      && s.inv.files == flushed.inv.files
      && s.curFile == (if flushed.curFile.Some? then flushed.curFile else Some(EmptyFile("unknown", "", [])))
      && (s.curHunk == flushed.curHunk || s.curHunk.Some?)
  {
    hide FlushHunk, ParseHunkHeader, CapReason, Itoa, MalformedReason;
  }

  lemma OpenHunkTold(o: ParseOptions, st: ParseState, line: Line)
    requires Resolved(o) && StateTold(st)
    ensures StateTold(OpenHunk(o, st, line))
  {
    FlushTold(st);
    OpenedTold("unknown", "", "--- ");
    OpenHunkFiles(o, st, line);
    hide Told, AllFinished, OpenHunk, FlushHunk, FlushFile;
  }

  lemma LineTold(o: ParseOptions, st: ParseState, line: Line)
    requires Resolved(o) && StateTold(st)
    ensures StateTold(ParseLine(o, st, line))
  {
    hide Told, Finished, FileFromGitLine, ReadHeaderLine, OpenHunk, OpenFile, FlushFile, HasPrefix;
    FlushTold(st);
    if HasPrefix(line, "diff --git ") {
      GitLineTold(line);
      OpenTold(o, FlushFile(st), FileFromGitLine(line));
    } else {
      if HasPrefix(line, "--- ") {
        OpenedTold("", "", line);
        OpenTold(o, st, EmptyFile("", "", [line]));
      }
      var s := if HasPrefix(line, "--- ") && st.curFile.None? && !st.fileCapHit
        then OpenFile(o, st, EmptyFile("", "", [line])) else st;
      OpenHunkTold(o, s, line);
      if s.curFile.Some? {
        Step(s.curFile.value, line);
      }
    }
  }

  lemma GitLineTold(line: Line)
    requires HasPrefix(line, "diff --git ")
    ensures Told(FileFromGitLine(line)) && !FileFromGitLine(line).isModeOnly
  {
    var f := FileFromGitLine(line);
    OpenedTold(f.path, f.oldPath, line);
    hide Told, Fields, TrimPrefix;
  }

  lemma {:induction false} LinesTold(o: ParseOptions, st: ParseState, lines: seq<Line>)
    requires Resolved(o) && StateTold(st)
    ensures StateTold(ParseLines(o, st, lines))
  {
    hide ParseLine, StateTold;
    if lines != [] {
      LinesTold(o, st, lines[..|lines| - 1]);
      LineTold(o, ParseLines(o, st, lines[..|lines| - 1]), lines[|lines| - 1]);
    }
  }

  /** Every file of every parsed inventory is what its header lines say: whether it is new, deleted, renamed or
      binary, what it is called, and its modes. */
  lemma ParsedFilesTold(raw: string, options: ParseOptions)
    ensures AllFinished(ParseSpec(raw, options).files)
  {
    hide ParseLines, Finished;
    var o := ResolveOptions(options);
    var start := StartFor(raw, o.maxBytes);
    var lines := Split(CutToBytes(raw, o.maxBytes));
    LinesTold(o, start, lines);
    FlushTold(ParseLines(o, start, lines));
  }

  // ----- Single lines -----

  /** The first line of a file gives its two names. */
  lemma GitLineNames(p: Line, q: Line)
    requires Token(p) && Token(q)
    ensures var f := FileFromGitLine("diff --git a/" + p + " b/" + q);
      f.path == q && f.oldPath == if p != q then p else ""
  {
    hide Fields;
    var x, y := "a/" + p, "b/" + q;
    var line := "diff --git a/" + p + " b/" + q;
    assert line == "diff" + (" " + ("--git" + (" " + (x + (" " + y)))));
    assert y + "" == y;
    FieldsOfSpacedToken(x, y, "");
    FieldsSkipsSpace(' ', x + (" " + y));
    FieldsOfSpacedToken("diff", "--git", " " + (x + (" " + y)));
    assert Fields(line) == ["diff", "--git", x, y] + Fields("");
    assert TrimPrefix(x, "a/") == p && TrimPrefix(y, "b/") == q;
  }

  lemma MinusLine(f: FileDiff, line: Line)
    requires HasPrefix(line, "--- ")
    ensures ReadHeaderLine(f, line) == ReadPathLine(f.(headerLines := f.headerLines + [line]), line)
  {
    Prefixes(line);
    hide ReadPathLine, Atoi, TrimSuffix, TrimPrefix;
  }

  /** The line of the old side gives a file its old name if it has none and the line names another. */
  lemma OldNameRead(f: FileDiff, p: Line)
    ensures var g := ReadHeaderLine(f, "--- a/" + p);
      g.Some? && g.value.oldPath == if f.oldPath == "" && f.path != "" && p != f.path then p else f.oldPath
  {
    var line: Line := "--- a/" + p;
    assert line == "--- " + ("a/" + p);
    MinusLine(f, line);
    Prefixes(line);
    assert TrimPrefix(line, "--- ") == "a/" + p && TrimPrefix("a/" + p, "a/") == p;
    hide ReadHeaderLine, TrimPrefix;
    assert ("a/" + p)[0] == 'a';
  }

  lemma SimilarityRead(f: FileDiff, n: nat)
    requires n <= MAX_INT64
    ensures var line: Line := "similarity index " + Itoa(n) + "%";
      ReadHeaderLine(f, line).Some? && ReadHeaderLine(f, line).value.similarity == n
  {
    var code := Itoa(n);
    AtoiItoa(n);
    hide Itoa, Atoi;
    assert '\n' !in code;
    var line: Line := "similarity index " + code + "%";
    Prefixes(line);
    assert TrimPrefix(line, "similarity index ") == code + "%" && TrimSuffix(code + "%", "%") == code;
  }

  // ----- Hunk IDs -----

  /** The ID of a file's hunk: the file, and the place of the hunk in it. */
  predicate Numbered(h: Hunk, place: nat) {
    h.id == h.file + "#H" + Itoa(place)
  }

  ghost predicate AllNumbered(f: FileDiff) {
    forall i :: 0 <= i < |f.hunks| ==> Numbered(f.hunks[i], i + 1)
  }

  ghost predicate FilesNumbered(files: seq<FileDiff>) {
    forall i :: 0 <= i < |files| ==> AllNumbered(files[i])
  }

  ghost predicate StateNumbered(st: ParseState) {
    && FilesNumbered(st.inv.files)
    && (st.curFile.Some? ==> AllNumbered(st.curFile.value))
    && (st.curHunk.Some? ==> st.curFile.Some? && Numbered(st.curHunk.value, |st.curFile.value.hunks| + 1))
  }

  lemma FlushNumbered(st: ParseState)
    requires StateNumbered(st)
    ensures StateNumbered(FlushHunk(st)) && FlushHunk(st).curHunk.None?
    ensures StateNumbered(FlushFile(st)) && FlushFile(st).curFile.None? && FlushFile(st).curHunk.None?
  {
    hide Join, Itoa;
  }

  lemma OpenHunkNumbers(o: ParseOptions, st: ParseState, line: Line)
    requires Resolved(o) && FlushHunk(st).curHunk.None?
    ensures var s := OpenHunk(o, st, line);
      s.curHunk.Some? && s.curFile.Some? ==> Numbered(s.curHunk.value, |s.curFile.value.hunks| + 1)
  {
    hide FlushHunk, ParseHunkHeader, CapReason, Itoa, MalformedReason;
  }

  lemma OpenHunkNumbered(o: ParseOptions, st: ParseState, line: Line)
    requires Resolved(o) && StateNumbered(st)
    ensures StateNumbered(OpenHunk(o, st, line))
  {
    FlushNumbered(st);
    OpenedNumbered("--- ");
    OpenHunkFiles(o, st, line);
    OpenHunkNumbers(o, st, line);
    hide OpenHunk, FlushHunk, FlushFile, FilesNumbered, AllNumbered, Numbered;
  }

  lemma LineNumbered(o: ParseOptions, st: ParseState, line: Line)
    requires Resolved(o) && StateNumbered(st)
    ensures StateNumbered(ParseLine(o, st, line))
  {
    hide AllNumbered, FilesNumbered, Numbered, FileFromGitLine, ReadHeaderLine, OpenHunk, OpenFile, FlushFile,
      AddToHunk, HasPrefix;
    FlushNumbered(st);
    var s := if HasPrefix(line, "--- ") && st.curFile.None? && !st.fileCapHit
      then OpenFile(o, st, EmptyFile("", "", [line])) else st;
    OpenedNumbered(line);
    OpenNumbered(o, st, EmptyFile("", "", [line]));
    OpenNumbered(o, FlushFile(st), FileFromGitLine(line));
    OpenHunkNumbered(o, s, line);
    AddNumbered(s, line);
    if s.curFile.Some? {
      HunksKept(s.curFile.value, line);
    }
  }

  lemma OpenNumbered(o: ParseOptions, st: ParseState, f: FileDiff)
    requires Resolved(o) && StateNumbered(st) && AllNumbered(f)
    ensures st.curHunk.None? ==> StateNumbered(OpenFile(o, st, f))
  {
    hide AllNumbered, FilesNumbered, Numbered, CapReason;
  }

  lemma AddNumbered(st: ParseState, line: Line)
    requires StateNumbered(st)
    ensures st.curHunk.Some? ==> StateNumbered(AddToHunk(st, line))
  {
    hide AllNumbered, FilesNumbered, BodyLine, Itoa;
  }

  lemma OpenedNumbered(line: Line)
    ensures AllNumbered(EmptyFile("", "", [line])) && AllNumbered(FileFromGitLine(line))
    ensures AllNumbered(EmptyFile("unknown", "", []))
  {
  }

  lemma HunksKept(f: FileDiff, line: Line)
    ensures ReadHeaderLine(f, line).Some? && AllNumbered(f) ==>
      && AllNumbered(ReadHeaderLine(f, line).value)
      && ReadHeaderLine(f, line).value.hunks == f.hunks
    ensures AllNumbered(f) ==> AllNumbered(f.(headerLines := f.headerLines + [line]))
  {
    hide Atoi, TrimSuffix, TrimPrefix, HasPrefix, Itoa;
  }

  lemma {:induction false} LinesNumbered(o: ParseOptions, st: ParseState, lines: seq<Line>)
    requires Resolved(o) && StateNumbered(st)
    ensures StateNumbered(ParseLines(o, st, lines))
  {
    hide ParseLine, StateNumbered;
    if lines != [] {
      LinesNumbered(o, st, lines[..|lines| - 1]);
      LineNumbered(o, ParseLines(o, st, lines[..|lines| - 1]), lines[|lines| - 1]);
    }
  }

  /** In every parsed inventory the hunks of a file are numbered from one, so no two share an ID. */
  lemma ParsedHunksNumbered(raw: string, options: ParseOptions, f: FileDiff, i: nat, j: nat)
    requires f in ParseSpec(raw, options).files && i < |f.hunks| && j < |f.hunks|
    ensures f.hunks[i].id == f.hunks[i].file + "#H" + Itoa(i + 1)
    ensures f.hunks[i].id == f.hunks[j].id ==> i == j
  {
    hide ParseLines, Itoa;
    var o := ResolveOptions(options);
    var start := StartFor(raw, o.maxBytes);
    var lines := Split(CutToBytes(raw, o.maxBytes));
    LinesNumbered(o, start, lines);
    FlushNumbered(ParseLines(o, start, lines));
    assert AllNumbered(f);
    assert Numbered(f.hunks[i], i + 1) && Numbered(f.hunks[j], j + 1);
    if f.hunks[i].id == f.hunks[j].id {
      IDsApart(f.hunks[i].file, i + 1, f.hunks[j].file, j + 1);
    }
  }

  lemma IDsApart(a: string, m: nat, b: string, n: nat)
    requires a + "#H" + Itoa(m) == b + "#H" + Itoa(n)
    ensures m == n
  {
    hide Itoa;
    assert a + "#H" == (a + "#") + ['H'] && b + "#H" == (b + "#") + ['H'];
    ItoaApart(a + "#", m, b + "#", n, 'H');
  }
}
