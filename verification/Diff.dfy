/** pkg/diff/diff.go: the unified-diff parser. `ParseLine` is the body of the parser's line loop, and
    `Parse` the loop itself. */
module Diff {
  import opened Text

  datatype Hunk = Hunk(
    id: string,
    file: string,
    header: Line,
    oldStart: int,
    oldCount: int,
    newStart: int,
    newCount: int,
    body: string,
    lines: seq<Line>,
    addedLines: set<int>)

  datatype FileDiff = FileDiff(
    path: Line,
    oldPath: Line,
    isNew: bool,
    isDeleted: bool,
    isRename: bool,
    similarity: int,
    isBinary: bool,
    isModeOnly: bool,
    oldMode: string,
    newMode: string,
    headerLines: seq<Line>,
    hunks: seq<Hunk>)

  datatype Omission = Omission(file: string, hunkId: string, reason: string)

  datatype ChangeInventory = ChangeInventory(
    files: seq<FileDiff>,
    omissions: seq<Omission>,
    totalHunks: nat,
    totalFiles: nat,
    truncated: bool)

  datatype ParseOptions = ParseOptions(maxBytes: int, maxFiles: int, maxHunks: int)

  const DEFAULT_MAX_BYTES := 2097152
  const DEFAULT_MAX_FILES := 2000
  const DEFAULT_MAX_HUNKS := 20000

  function ResolveOptions(o: ParseOptions): (r: ParseOptions)
    ensures r.maxBytes > 0 && r.maxFiles > 0 && r.maxHunks > 0
    ensures o.maxBytes > 0 ==> r.maxBytes == o.maxBytes
    ensures o.maxFiles > 0 ==> r.maxFiles == o.maxFiles
    ensures o.maxHunks > 0 ==> r.maxHunks == o.maxHunks
    ensures o == ParseOptions(0, 0, 0) ==> r == ParseOptions(2 * 1024 * 1024, 2000, 20000)
  {
    ParseOptions(
      if o.maxBytes <= 0 then DEFAULT_MAX_BYTES else o.maxBytes,
      if o.maxFiles <= 0 then DEFAULT_MAX_FILES else o.maxFiles,
      if o.maxHunks <= 0 then DEFAULT_MAX_HUNKS else o.maxHunks)
  }

  /** The mutable locals of the parser: the inventory so far, the open file and the open hunk. */
  datatype ParseState = ParseState(
    inv: ChangeInventory,
    curFile: Option<FileDiff>,
    curHunk: Option<Hunk>,
    curLine: int,
    fileCapHit: bool,
    hunkCapHit: bool)

  const EMPTY_INVENTORY := ChangeInventory([], [], 0, 0, false)
  const START := ParseState(EMPTY_INVENTORY, None, None, 0, false, false)

  function Omit(inv: ChangeInventory, om: Omission): ChangeInventory {
    inv.(omissions := inv.omissions + [om])
  }

  function CapReason(what: string, variable: string, n: int): string
    requires n > 0
  {
    "exceeded " + what + " limit (" + variable + "=" + Itoa(n) + ")"
  }

  function FlushHunk(st: ParseState): ParseState {
    match (st.curHunk, st.curFile)
    case (Some(h), Some(f)) =>
      var done := h.(body := Join([h.header] + h.lines));
      st.(curFile := Some(f.(hunks := f.hunks + [done])), curHunk := None,
          inv := st.inv.(totalHunks := st.inv.totalHunks + 1))
    case _ => st
  }

  function CloseFile(f: FileDiff): FileDiff {
    if f.hunks == [] && f.oldMode != "" && f.newMode != "" && !f.isBinary then f.(isModeOnly := true) else f
  }

  function FlushFile(st: ParseState): ParseState {
    var s := FlushHunk(st);
    match s.curFile
    case None => s
    case Some(f) =>
      s.(curFile := None,
         inv := s.inv.(files := s.inv.files + [CloseFile(f)], totalFiles := s.inv.totalFiles + 1))
  }

  function EmptyFile(path: Line, oldPath: Line, header: seq<Line>): FileDiff {
    FileDiff(path, oldPath, false, false, false, 0, false, false, "", "", header, [])
  }

  /** The paths named by a "diff --git" line, when it has at least four fields. */
  function FileFromGitLine(line: Line): (f: FileDiff)
    ensures f.hunks == []
  {
    var fields := Fields(line);
    FieldsWithin(line);
    if |fields| >= 4 then
      assert '\n' !in fields[2] && '\n' !in fields[3];
      var oldPath: Line := TrimPrefix(fields[2], "a/");
      var newPath: Line := TrimPrefix(fields[3], "b/");
      EmptyFile(newPath, if oldPath != newPath then oldPath else "", [line])
    else
      EmptyFile("", "", [line])
  }

  lemma FieldsWithin(s: string)
    ensures forall f :: f in Fields(s) ==> '\n' !in f
    decreases |s|
  {
    var t := TrimLeft(s);
    if t != "" {
      var n := TokenLength(t);
      FieldsWithin(t[n..]);
    }
  }

  /** Opens `f`, unless the file cap is reached. */
  function OpenFile(o: ParseOptions, st: ParseState, f: FileDiff): ParseState
    requires o.maxFiles > 0
  {
    if |st.inv.files| >= o.maxFiles then
      st.(fileCapHit := true,
          inv := Omit(st.inv, Omission("", "", CapReason("file", "DIFF_MAX_FILES", o.maxFiles))).(truncated := true))
    else
      st.(curFile := Some(f))
  }

  /** Header lines that say how the file changed; None when the line is not one of them. */
  function ReadModeLine(f: FileDiff, line: Line): Option<FileDiff> {
    if HasPrefix(line, "old mode ") then Some(f.(oldMode := TrimPrefix(line, "old mode ")))
    else if HasPrefix(line, "new mode ") then Some(f.(newMode := TrimPrefix(line, "new mode ")))
    else if HasPrefix(line, "new file mode ") then
      Some(f.(isNew := true, newMode := TrimPrefix(line, "new file mode ")))
    else if HasPrefix(line, "deleted file mode ") then Some(f.(isDeleted := true))
    else if HasPrefix(line, "similarity index ") then
      match Atoi(TrimSuffix(TrimPrefix(line, "similarity index "), "%"))
      case Some(n) => Some(f.(similarity := n))
      case None => Some(f)
    else if HasPrefix(line, "Binary files ") || HasPrefix(line, "GIT binary patch") then
      Some(f.(isBinary := true))
    else None
  }

  /** Header lines that name the file. */
  function ReadPathLine(f: FileDiff, line: Line): Option<FileDiff> {
    if HasPrefix(line, "rename from ") then
      Some(f.(isRename := true, oldPath := TrimPrefix(line, "rename from ")))
    else if HasPrefix(line, "rename to ") then
      Some(f.(isRename := true, path := TrimPrefix(line, "rename to ")))
    else if HasPrefix(line, "--- ") then
      var p: Line := TrimPrefix(line, "--- ");
      var oldPath: Line := TrimPrefix(p, "a/");
      if p != "/dev/null" && f.oldPath == "" && f.path != "" && oldPath != f.path
      then Some(f.(oldPath := oldPath)) else Some(f)
    else if HasPrefix(line, "+++ ") then
      var p: Line := TrimPrefix(line, "+++ ");
      if p != "/dev/null" then Some(f.(path := TrimPrefix(p, "b/"))) else Some(f)
    else None
  }

  /** The header lines the parser understands; None when the line is not one of them. */
  function ReadHeaderLine(file: FileDiff, line: Line): Option<FileDiff> {
    var f := file.(headerLines := file.headerLines + [line]);
    var r := ReadModeLine(f, line);
    if r.Some? then r else ReadPathLine(f, line)
  }

  datatype HunkRange = HunkRange(oldStart: int, oldCount: int, newStart: int, newCount: int)

  /** `start[,count]`, where a missing count is 1. */
  function ParseRange(s: string): Option<(int, int)> {
    var (startText, countText) := Cut(s);
    match (Atoi(startText), countText)
    case (Some(start), None) => Some((start, 1))
    case (Some(start), Some(text)) =>
      (match Atoi(text)
       case Some(count) => Some((start, count))
       case None => None)
    case _ => None
  }

  function ParseHunkHeader(line: string): Option<HunkRange> {
    if !HasPrefix(line, "@@") then None else
    match Index(line[2..], "@@")
    case None => None
    case Some(i) =>
      var parts := Fields(TrimSpace(line[2..2 + i]));
      if |parts| < 2 || !HasPrefix(parts[0], "-") || !HasPrefix(parts[1], "+") then None else
      match (ParseRange(parts[0][1..]), ParseRange(parts[1][1..]))
      case (Some(a), Some(b)) => Some(HunkRange(a.0, a.1, b.0, b.1))
      case _ => None
  }

  function MalformedReason(line: string): string {
    "malformed hunk header: " + line
  }

  function OpenHunk(o: ParseOptions, st: ParseState, line: Line): ParseState
    requires o.maxHunks > 0
  {
    var flushed := FlushHunk(st);
    var s := if flushed.curFile.None? then flushed.(curFile := Some(EmptyFile("unknown", "", []))) else flushed;
    var f := s.curFile.value;
    if s.hunkCapHit then s
    else if s.inv.totalHunks >= o.maxHunks then
      s.(hunkCapHit := true,
         inv := Omit(s.inv, Omission(f.path, "", CapReason("hunk", "DIFF_MAX_HUNKS", o.maxHunks))).(truncated := true))
    else
      match ParseHunkHeader(line)
      case None => s.(inv := Omit(s.inv, Omission(f.path, "", MalformedReason(line))))
      case Some(r) =>
        var id := f.path + "#H" + Itoa(|f.hunks| + 1);
        s.(curHunk := Some(Hunk(id, f.path, line, r.oldStart, r.oldCount, r.newStart, r.newCount, "", [], {})),
           curLine := r.newStart)
  }

  /** A hunk body line: what it adds, and the number of the line after it on the new side. */
  function BodyLine(added: set<int>, curLine: int, line: Line): (set<int>, int) {
    if line == "" then (added, curLine + 1)
    else if line[0] == '+' then (added + {curLine}, curLine + 1)
    else if line[0] == '-' || line[0] == '\\' then (added, curLine)
    else (added, curLine + 1)
  }

  function AddToHunk(st: ParseState, line: Line): ParseState
    requires st.curHunk.Some?
  {
    var h := st.curHunk.value;
    var (added, next) := BodyLine(h.addedLines, st.curLine, line);
    st.(curHunk := Some(h.(lines := h.lines + [line], addedLines := added)), curLine := next)
  }

  predicate Resolved(o: ParseOptions) {
    o.maxFiles > 0 && o.maxHunks > 0
  }

  function ParseLine(o: ParseOptions, st: ParseState, line: Line): ParseState
    requires Resolved(o)
  {
    if HasPrefix(line, "diff --git ") then
      if st.fileCapHit then st else OpenFile(o, FlushFile(st), FileFromGitLine(line))
    else
      var s :=
        if HasPrefix(line, "--- ") && st.curFile.None? && !st.fileCapHit
        then OpenFile(o, st, EmptyFile("", "", [line])) else st;
      if s.fileCapHit then s
      else if s.curFile.Some? && s.curHunk.None? && ReadHeaderLine(s.curFile.value, line).Some? then
        s.(curFile := ReadHeaderLine(s.curFile.value, line))
      else if HasPrefix(line, "@@") then OpenHunk(o, s, line)
      else if s.curHunk.Some? then AddToHunk(s, line)
      else if s.curFile.Some? then
        s.(curFile := Some(s.curFile.value.(headerLines := s.curFile.value.headerLines + [line])))
      else s
  }

  function ParseLines(o: ParseOptions, st: ParseState, lines: seq<Line>): ParseState
    requires Resolved(o)
  {
    if lines == [] then st
    else ParseLine(o, ParseLines(o, st, lines[..|lines| - 1]), lines[|lines| - 1])
  }

  /** The part of the text within the byte cap, cut back to the last newline. */
  function CutToBytes(raw: string, maxBytes: nat): string {
    if |raw| <= maxBytes then raw else
    var cut := raw[..maxBytes];
    match LastNewline(cut)
    case Some(i) => if i > 0 then cut[..i] else cut
    case None => cut
  }

  function LastNewline(s: string): (r: Option<nat>)
    ensures r.Some? ==> r.value < |s| && s[r.value] == '\n' && '\n' !in s[r.value + 1..]
    ensures r.None? ==> '\n' !in s
  {
    if s == "" then None
    else if s[|s| - 1] == '\n' then Some(|s| - 1)
    else LastNewline(s[..|s| - 1])
  }

  /** A text over the cap is cut at its last newline within the cap, the very first character aside, and at the
      cap if there is none. */
  lemma CutIs(raw: string, maxBytes: nat)
    ensures var r := CutToBytes(raw, maxBytes);
      && r <= raw && (|raw| <= maxBytes ==> r == raw)
      && (|raw| > maxBytes ==>
            && |r| <= maxBytes
            && (|r| < maxBytes ==> 0 < |r| && raw[|r|] == '\n' && forall i :: |r| < i < maxBytes ==> raw[i] != '\n')
            && (|r| == maxBytes ==> forall i :: 0 < i < maxBytes ==> raw[i] != '\n'))
  {
    if |raw| > maxBytes {
      var cut := raw[..maxBytes];
      var last := LastNewline(cut);
      hide LastNewline;
      if last.None? {
        assert forall i :: 0 <= i < maxBytes ==> raw[i] == cut[i] && cut[i] in cut;
      } else {
        var rest := cut[last.value + 1..];
        assert forall i :: last.value < i < maxBytes ==> raw[i] == rest[i - last.value - 1];
      }
    }
  }

  function StartFor(raw: string, maxBytes: nat): ParseState
    requires maxBytes > 0
  {
    if |raw| > maxBytes then
      START.(inv := Omit(EMPTY_INVENTORY, Omission("", "", CapReason("diff size", "DIFF_MAX_BYTES", maxBytes)))
                    .(truncated := true))
    else START
  }

  function ParseSpec(raw: string, options: ParseOptions): ChangeInventory {
    var o := ResolveOptions(options);
    if TrimSpace(raw) == "" then EMPTY_INVENTORY
    else FlushFile(ParseLines(o, StartFor(raw, o.maxBytes), Split(CutToBytes(raw, o.maxBytes)))).inv
  }

  method Parse(raw: string, options: ParseOptions) returns (inv: ChangeInventory)
    ensures inv == ParseSpec(raw, options)
  {
    var o := ResolveOptions(options);
    if TrimSpace(raw) == "" {
      return EMPTY_INVENTORY;
    }
    var st := StartFor(raw, o.maxBytes);
    var lines := Split(CutToBytes(raw, o.maxBytes));
    var i := 0;
    while i < |lines|
      invariant i <= |lines|
      invariant st == ParseLines(o, StartFor(raw, o.maxBytes), lines[..i])
    {
      assert lines[..i + 1][..i] == lines[..i];
      st := ParseLine(o, st, lines[i]);
      i := i + 1;
    }
    assert lines[..i] == lines;
    inv := FlushFile(st).inv;
  }

  lemma ParseLinesSnoc(o: ParseOptions, st: ParseState, lines: seq<Line>, line: Line)
    requires Resolved(o)
    ensures ParseLines(o, st, lines + [line]) == ParseLine(o, ParseLines(o, st, lines), line)
  {
    assert (lines + [line])[..|lines|] == lines;
  }

  lemma {:induction false} ParseLinesConcat(o: ParseOptions, st: ParseState, a: seq<Line>, b: seq<Line>)
    requires Resolved(o)
    ensures ParseLines(o, st, a + b) == ParseLines(o, ParseLines(o, st, a), b)
  {
    hide ParseLine;
    if b == [] {
      assert a + b == a;
    } else {
      var n := |b| - 1;
      ParseLinesConcat(o, st, a, b[..n]);
      assert a + b == (a + b[..n]) + [b[n]];
      ParseLinesSnoc(o, st, a + b[..n], b[n]);
    }
  }
}
