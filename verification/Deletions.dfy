/** When the two readers of added lines disagree, said of the text: a deleted file after a hunk. */
module Deletions {
  import opened Text
  import opened Diff
  import opened Engine
  import opened Agreement

  // ----- The condition on the text -----

  /** The paths that "+++ b/" lines name, in order. */
  function NamesIn(lines: seq<Line>): seq<string> {
    if lines == [] then []
    else
      var front, line := lines[..|lines| - 1], lines[|lines| - 1];
      if HasPrefix(line, "+++ b/") then NamesIn(front) + [line[6..]] else NamesIn(front)
  }

  /** A file has been named, and a hunk header stands after its name. */
  predicate HunkSinceName(lines: seq<Line>) {
    if lines == [] then false
    else
      var front, line := lines[..|lines| - 1], lines[|lines| - 1];
      if HasPrefix(line, "+++ b/") then false
      else if HasPrefix(line, "@@") then NamesIn(front) != []
      else HunkSinceName(front)
  }

  /** A "+++ /dev/null" line of a file header stands after a hunk of an earlier file, with no "+++ b/" line
      in between. */
  ghost predicate DeletesAfterHunk(lines: seq<Line>) {
    exists i :: 0 <= i < |lines| && DeletesAt(lines, i)
  }

  ghost predicate DeletesAt(lines: seq<Line>, i: nat)
    requires i < |lines|
  {
    lines[i] == DELETED && PlaceAfter(lines[..i]).Header? && HunkSinceName(lines[..i])
  }

  function Start(line: string): int {
    match ParseHunkHeader(line) case Some(r) => r.newStart case None => 0
  }

  /** The new-side number of the line after the last one of a hunk. */
  function NextLine(lines: seq<Line>): int {
    if lines == [] then 0
    else
      var front, line := lines[..|lines| - 1], lines[|lines| - 1];
      if HasPrefix(line, "@@") then Start(line)
      else if line == "" || line[0] == '-' || line[0] == '\\' then NextLine(front)
      else NextLine(front) + 1
  }

  predicate Distinct(names: seq<string>) {
    forall i, j :: 0 <= i < j < |names| ==> names[i] != names[j]
  }

  /** Each file is named once, and a later hunk of a file starts after the earlier ones. */
  ghost predicate Tidy(lines: seq<Line>) {
    && Distinct(NamesIn(lines))
    && forall i :: 0 <= i < |lines| && HasPrefix(lines[i], "@@") && PlaceAfter(lines[..i]).Body? ==>
         NextLine(lines[..i]) <= Start(lines[i])
  }

  lemma TidyFront(lines: seq<Line>)
    requires lines != [] && Tidy(lines)
    ensures Tidy(lines[..|lines| - 1])
    ensures var front, line := lines[..|lines| - 1], lines[|lines| - 1];
      && (HasPrefix(line, "+++ b/") ==> line[6..] !in NamesIn(front))
      && (HasPrefix(line, "@@") && PlaceAfter(front).Body? ==> NextLine(front) <= Start(line))
  {
    hide PlaceAfter, Start, NextLine, HasPrefix;
    var front, line := lines[..|lines| - 1], lines[|lines| - 1];
    forall i | 0 <= i < |front|
      ensures front[i] == lines[i] && front[..i] == lines[..i]
    {
    }
    DistinctFront(lines);
  }

  lemma DistinctSnoc(names: seq<string>, name: string)
    ensures Distinct(names + [name]) <==> Distinct(names) && name !in names
  {
    var all := names + [name];
    assert all[|names|] == name && forall i :: 0 <= i < |names| ==> all[i] == names[i];
  }

  lemma DistinctFront(lines: seq<Line>)
    requires lines != [] && Distinct(NamesIn(lines))
    ensures Distinct(NamesIn(lines[..|lines| - 1]))
    ensures HasPrefix(lines[|lines| - 1], "+++ b/") ==> lines[|lines| - 1][6..] !in NamesIn(lines[..|lines| - 1])
  {
    if HasPrefix(lines[|lines| - 1], "+++ b/") {
      DistinctSnoc(NamesIn(lines[..|lines| - 1]), lines[|lines| - 1][6..]);
    }
    hide Distinct;
  }

  // ----- What the engine has in hand -----

  function LastName(lines: seq<Line>): string {
    var names := NamesIn(lines);
    if names == [] then "" else names[|names| - 1]
  }

  /** The last hunk header since the name belongs to the named file. */
  ghost predicate OwnHunk(lines: seq<Line>) {
    if lines == [] then false
    else
      var front, line := lines[..|lines| - 1], lines[|lines| - 1];
      if HasPrefix(line, "+++ b/") then false
      else if HasPrefix(line, "@@") then PlaceAfter(front).Named? || PlaceAfter(front).Body?
      else OwnHunk(front)
  }

  /** A stray that is not an added line. */
  ghost predicate Unreal(m: LineMap, strays: Strays) {
    exists s :: s in strays && s.1 !in LinesOf(m, s.0)
  }

  /** The engine holds the last name and knows of a hunk since. */
  predicate Holds(lines: seq<Line>, e: ScanState) {
    && e.path == LastName(lines)
    && (e.inHunk && e.path != "" <==> HunkSinceName(lines))
    && (NamesIn(lines) != [] ==> e.path != "")
  }

  /** Lines are recorded under names only, and strays never under the name of the file being read. */
  ghost predicate Recorded(lines: seq<Line>, m: LineMap, strays: Strays) {
    && (forall path :: LinesOf(m, path) != {} ==> path in NamesIn(lines))
    && (forall s :: s in strays ==> s.0 in NamesIn(lines))
    && (PlaceAfter(lines).Named? || PlaceAfter(lines).Body? ==> forall s :: s in strays ==> s.0 != LastName(lines))
  }

  /** Where the next stray would stand. */
  ghost predicate Beyond(lines: seq<Line>, m: LineMap, e: ScanState, strays: Strays) {
    && (PlaceAfter(lines).Body? ==> e.line == NextLine(lines) && OwnHunk(lines))
    && (PlaceAfter(lines).Named? ==> !HunkSinceName(lines) && NamesIn(lines) != [])
    && (PlaceAfter(lines).GoneBody? ==> !OwnHunk(lines))
    && (OwnHunk(lines) ==> HunkSinceName(lines) && forall l :: l in LinesOf(m, e.path) ==> l < e.line)
    && (!HunkSinceName(lines) ==> LinesOf(m, e.path) == {})
    && (HunkSinceName(lines) && !OwnHunk(lines) ==> LinesOf(m, e.path) == {} || Unreal(m, strays))
    && (PlaceAfter(lines).Gone? && HunkSinceName(lines) ==> strays != [])
    && (strays != [] ==> Unreal(m, strays))
  }

  ghost predicate Apart(lines: seq<Line>, m: LineMap, e: ScanState, strays: Strays) {
    Holds(lines, e) && Recorded(lines, m, strays) && Beyond(lines, m, e, strays)
  }

  /** The lines recorded after one more line. */
  function MergedNext(p: Place, m: LineMap, e: ScanState, line: Line): LineMap {
    if p.Body? && line != "" && line[0] == '+' then AddLine(m, e.path, e.line) else m
  }

  lemma MergedStep(o: ParseOptions, p: Place, st: ParseState, e: ScanState, strays: Strays, line: Line)
    requires Resolved(o) && Related(p, st, e, strays) && !Next(p, line).Bad? && !ParseLine(o, st, line).inv.truncated
    ensures Merged(ParseLine(o, st, line)) == MergedNext(p, Merged(st), e, line)
  {
    hide ParseLine, Merged, CanonicalHeader, AddLine, Overlay;
    if HasPrefix(line, "diff --git ") {
      assert line[0] == 'd';
      MergedAtGitLine(o, st, line);
    } else if HasPrefix(line, "@@") {
      assert line[0] == '@';
      HunkHeaderLine(o, st, line);
      HeadersAgree(line);
      OpenHunkAgrees(o, st, line);
    } else if p.Body? || p.GoneBody? {
      MergedInBody(o, p, st, e, strays, line);
    } else if p.Preamble? {
      MergedInPreamble(o, st, e, strays, line);
    } else {
      MergedInHeader(o, st, line);
    }
  }

  lemma MergedAtGitLine(o: ParseOptions, st: ParseState, line: Line)
    requires Resolved(o) && HasPrefix(line, "diff --git ") && !st.fileCapHit && (st.curHunk.Some? ==> st.curFile.Some?)
    requires !ParseLine(o, st, line).inv.truncated
    ensures Merged(ParseLine(o, st, line)) == Merged(st)
  {
    hide FileFromGitLine, CapReason, FlushFile, ReadHeaderLine, OpenHunk, AddToHunk;
    FlushFileKeepsMerged(st);
  }

  lemma MergedInBody(o: ParseOptions, p: Place, st: ParseState, e: ScanState, strays: Strays, line: Line)
    requires Resolved(o) && Related(p, st, e, strays) && (p.Body? || p.GoneBody?) && !Next(p, line).Bad?
    requires !HasPrefix(line, "@@") && !HasPrefix(line, "diff --git ")
    ensures Merged(ParseLine(o, st, line)) == MergedNext(p, Merged(st), e, line)
  {
    hide OpenFile, OpenHunk, ReadHeaderLine, MergeHunk, Overlay, AddLine;
    var f, h := st.curFile.value, st.curHunk.value;
    MergeOneMore(MergeHunks(MergeFiles(st.inv.files), f.path, f.hunks), f.path, h.addedLines, st.curLine);
  }

  lemma MergedInPreamble(o: ParseOptions, st: ParseState, e: ScanState, strays: Strays, line: Line)
    requires Resolved(o) && Related(Preamble, st, e, strays)
    requires !HasPrefix(line, "diff --git ") && !HasPrefix(line, "@@") && !Next(Preamble, line).Bad?
    requires !ParseLine(o, st, line).inv.truncated
    ensures Merged(ParseLine(o, st, line)) == Merged(st)
  {
    hide CapReason, ReadHeaderLine, OpenHunk, FlushFile, Overlay;
    HeaderLineSetsPath(EmptyFile("", "", [line]), line);
  }

  lemma MergedInHeader(o: ParseOptions, st: ParseState, line: Line)
    requires Resolved(o) && st.curHunk.None? && st.curFile.Some? && !st.fileCapHit && st.curFile.value.hunks == []
    requires !HasPrefix(line, "diff --git ") && !HasPrefix(line, "@@")
    ensures Merged(ParseLine(o, st, line)) == Merged(st)
  {
    hide ParseLine, MergeFiles;
    ParserOnHeaderLine(o, st, line);
  }

  /** One more line, given what came before. */
  ghost predicate Follows(lines: seq<Line>, m: LineMap, e: ScanState, strays: Strays, m': LineMap, e': ScanState,
      strays': Strays)
    requires lines != []
  {
    var p, line := PlaceAfter(lines[..|lines| - 1]), lines[|lines| - 1];
    && !PlaceAfter(lines).Bad?
    && m' == MergedNext(p, m, e, line) && e' == ScanLine(e, line) && strays' == strays + StrayAt(p, e, line)
  }

  lemma UnrealGrows(m: LineMap, strays: Strays, more: Strays)
    requires Unreal(m, strays)
    ensures Unreal(m, strays + more)
  {
    var s :| s in strays && s.1 !in LinesOf(m, s.0);
    assert s in strays + more;
  }

  /** What a line that names a file does to the places and names of the text. */
  lemma NamePlace(lines: seq<Line>)
    requires lines != [] && HasPrefix(lines[|lines| - 1], "+++ b/") && !PlaceAfter(lines).Bad?
    ensures var front, line := lines[..|lines| - 1], lines[|lines| - 1];
      && PlaceAfter(front).Header? && PlaceAfter(lines) == Named && line != DELETED
      && NamesIn(lines) == NamesIn(front) + [line[6..]] && LastName(lines) == line[6..] != ""
      && !OwnHunk(lines) && !HunkSinceName(lines)
  {
    hide CanonicalHeader, ParseHunkHeader;
    var line := lines[|lines| - 1];
    assert line[0] == '+' && line[4] == 'b' && DELETED[4] == '/';
  }

  lemma NameScan(e: ScanState, line: Line)
    requires HasPrefix(line, "+++ b/")
    ensures ScanLine(e, line) == e.(path := line[6..], inHunk := false)
  {
    hide HunkStart, AddLine;
    assert line[0] == '+';
  }

  lemma NameLine(lines: seq<Line>, m: LineMap, e: ScanState, strays: Strays, m': LineMap, e': ScanState,
      strays': Strays)
    requires lines != [] && HasPrefix(lines[|lines| - 1], "+++ b/")
      && lines[|lines| - 1][6..] !in NamesIn(lines[..|lines| - 1])
    requires Apart(lines[..|lines| - 1], m, e, strays) && Follows(lines, m, e, strays, m', e', strays')
    ensures Apart(lines, m', e', strays')
  {
    var front, line := lines[..|lines| - 1], lines[|lines| - 1];
    NamePlace(lines);
    NameScan(e, line);
    assert strays + [] == strays;
    assert m' == m && strays' == strays;
    hide PlaceAfter, NextLine, OwnHunk, HunkSinceName, NamesIn, Unreal, MergedNext, ScanLine, LinesOf, HasPrefix;
    assert forall s :: s in strays ==> s.0 in NamesIn(front);
  }

  lemma HeaderLine(lines: seq<Line>, m: LineMap, e: ScanState, strays: Strays, m': LineMap, e': ScanState,
      strays': Strays)
    requires lines != [] && HasPrefix(lines[|lines| - 1], "@@")
    requires PlaceAfter(lines[..|lines| - 1]).Body? ==> NextLine(lines[..|lines| - 1]) <= Start(lines[|lines| - 1])
    requires Apart(lines[..|lines| - 1], m, e, strays) && Follows(lines, m, e, strays, m', e', strays')
    ensures Apart(lines, m', e', strays')
  {
    hide HunkStart, AddLine, ParseHunkHeader, LinesOf, Start, CanonicalHeader;
    var front, line := lines[..|lines| - 1], lines[|lines| - 1];
    HeaderPlace(lines);
    HeaderScan(front, e, line);
    HunkSinceNamed(front);
    assert strays + [] == strays;
    assert m' == m && strays' == strays;
    hide PlaceAfter, NextLine, OwnHunk, HunkSinceName, NamesIn, Unreal, MergedNext;
  }

  /** What a hunk header does to the places and names of the text. */
  lemma HeaderPlace(lines: seq<Line>)
    requires lines != [] && HasPrefix(lines[|lines| - 1], "@@") && !PlaceAfter(lines).Bad?
    ensures var front, line := lines[..|lines| - 1], lines[|lines| - 1]; var p := PlaceAfter(front);
      && line[0] == '@' && line != DELETED && CanonicalHeader(line)
      && (p.Named? || p.Body? || p.Gone? || p.GoneBody?)
      && PlaceAfter(lines) == (if p.Gone? || p.GoneBody? then GoneBody else Body(false))
      && NamesIn(lines) == NamesIn(front) && LastName(lines) == LastName(front)
      && (OwnHunk(lines) <==> p.Named? || p.Body?)
      && (HunkSinceName(lines) <==> NamesIn(front) != [])
      && NextLine(lines) == Start(line)
  {
    hide CanonicalHeader, ParseHunkHeader;
    assert lines[|lines| - 1][0] == '@' && DELETED[0] == '+';
  }

  lemma HeaderScan(front: seq<Line>, e: ScanState, line: Line)
    requires HasPrefix(line, "@@") && CanonicalHeader(line)
    ensures ScanLine(e, line) == e.(line := Start(line), inHunk := true)
  {
    assert line[0] == '@';
    HeadersAgree(line);
    hide HunkStart, ParseHunkHeader, CanonicalHeader;
  }

  lemma {:induction false} HunkSinceNamed(lines: seq<Line>)
    ensures HunkSinceName(lines) ==> NamesIn(lines) != []
  {
    if lines != [] {
      HunkSinceNamed(lines[..|lines| - 1]);
    }
  }

  /** What any other line does to the places and names of the text. */
  lemma OtherPlace(lines: seq<Line>)
    requires lines != [] && !HasPrefix(lines[|lines| - 1], "@@") && !HasPrefix(lines[|lines| - 1], "+++ b/")
    requires !PlaceAfter(lines).Bad?
    ensures var front, line := lines[..|lines| - 1], lines[|lines| - 1];
      var p, p' := PlaceAfter(front), PlaceAfter(lines);
      && NamesIn(lines) == NamesIn(front) && LastName(lines) == LastName(front)
      && OwnHunk(lines) == OwnHunk(front) && HunkSinceName(lines) == HunkSinceName(front)
      && NextLine(lines) == NextLine(front) + (if line == "" || line[0] == '-' || line[0] == '\\' then 0 else 1)
      && (p'.Body? ==> p.Body?) && (p'.Named? ==> p.Named?) && (p'.GoneBody? ==> p.GoneBody?)
      && (p'.Gone? ==> p.Gone? || (p.Header? && line == DELETED))
      && !p.Bad? && (p.Header? && line == DELETED ==> p'.Gone? && line[0] == '+')
      && (p.Body? && line != "" && line[0] == '+' ==> p'.Body?)
  {
    hide CanonicalHeader, ParseHunkHeader;
    assert DELETED[0] == '+' && DELETED[4] == '/';
  }

  /** What any other line does to the engine, besides what it records. */
  lemma OtherScan(e: ScanState, line: Line)
    requires !HasPrefix(line, "@@") && !HasPrefix(line, "+++ b/")
    ensures var e' := ScanLine(e, line);
      && e'.path == e.path && e'.inHunk == e.inHunk
      && e'.line == e.line
         + (if !e.inHunk || e.path == "" || line == "" || line[0] == '-' || line[0] == '\\' then 0 else 1)
  {
    hide HunkStart, AddLine;
  }

  /** Whether the last line is the name of a deleted file, taken by the engine for an added line. */
  ghost predicate Stray(lines: seq<Line>, e: ScanState)
    requires lines != []
  {
    PlaceAfter(lines[..|lines| - 1]).Header? && lines[|lines| - 1] == DELETED && e.inHunk && e.path != ""
  }

  lemma StrayedLine(lines: seq<Line>, m: LineMap, e: ScanState, strays: Strays, m': LineMap, e': ScanState,
      strays': Strays)
    requires lines != [] && !HasPrefix(lines[|lines| - 1], "@@") && !HasPrefix(lines[|lines| - 1], "+++ b/")
    requires Apart(lines[..|lines| - 1], m, e, strays) && Follows(lines, m, e, strays, m', e', strays')
    requires Stray(lines, e)
    ensures Apart(lines, m', e', strays')
  {
    var front, line := lines[..|lines| - 1], lines[|lines| - 1];
    OtherPlace(lines);
    OtherScan(e, line);
    HunkSinceNamed(front);
    LastIsNamed(front);
    StrayLine(m, e, strays);
    hide PlaceAfter, NextLine, OwnHunk, HunkSinceName, NamesIn, ScanLine, HasPrefix, Unreal, LinesOf;
    assert m' == m && strays' == strays + [(e.path, e.line)];
    assert LastNamed(front);
  }

  lemma PlainLine(lines: seq<Line>, m: LineMap, e: ScanState, strays: Strays, m': LineMap, e': ScanState,
      strays': Strays)
    requires lines != [] && !HasPrefix(lines[|lines| - 1], "@@") && !HasPrefix(lines[|lines| - 1], "+++ b/")
    requires Apart(lines[..|lines| - 1], m, e, strays) && Follows(lines, m, e, strays, m', e', strays')
    requires !Stray(lines, e)
    ensures Apart(lines, m', e', strays')
  {
    var front, line := lines[..|lines| - 1], lines[|lines| - 1];
    OtherPlace(lines);
    OtherScan(e, line);
    HunkSinceNamed(front);
    assert strays + [] == strays;
    if m' != m {
      AddedLine(m, e, strays);
    }
    hide PlaceAfter, NextLine, OwnHunk, HunkSinceName, NamesIn, ScanLine, HasPrefix, Unreal, AddLine;
  }

  lemma OtherLine(lines: seq<Line>, m: LineMap, e: ScanState, strays: Strays, m': LineMap, e': ScanState,
      strays': Strays)
    requires lines != [] && !HasPrefix(lines[|lines| - 1], "@@") && !HasPrefix(lines[|lines| - 1], "+++ b/")
    requires Apart(lines[..|lines| - 1], m, e, strays) && Follows(lines, m, e, strays, m', e', strays')
    ensures Apart(lines, m', e', strays')
  {
    hide Apart, Follows, Stray;
    if Stray(lines, e) {
      StrayedLine(lines, m, e, strays, m', e', strays');
    } else {
      PlainLine(lines, m, e, strays, m', e', strays');
    }
  }

  predicate LastNamed(lines: seq<Line>) {
    NamesIn(lines) != [] ==> LastName(lines) in NamesIn(lines)
  }

  lemma LastIsNamed(lines: seq<Line>)
    ensures LastNamed(lines)
  {
    hide NamesIn;
  }

  /** A stray beyond the recorded lines is none of them. */
  lemma StrayLine(m: LineMap, e: ScanState, strays: Strays)
    ensures (forall l :: l in LinesOf(m, e.path) ==> l < e.line) || LinesOf(m, e.path) == {} ==>
              Unreal(m, strays + [(e.path, e.line)])
    ensures Unreal(m, strays) ==> Unreal(m, strays + [(e.path, e.line)])
    ensures forall s :: s in strays + [(e.path, e.line)] ==> s in strays || s == (e.path, e.line)
  {
    assert (e.path, e.line) in strays + [(e.path, e.line)];
    if Unreal(m, strays) {
      UnrealGrows(m, strays, [(e.path, e.line)]);
    }
  }

  /** Recording a line of the file being read touches no stray. */
  lemma AddedLine(m: LineMap, e: ScanState, strays: Strays)
    ensures var m' := AddLine(m, e.path, e.line);
      && LinesOf(m', e.path) == LinesOf(m, e.path) + {e.line}
      && (forall path :: path != e.path ==> LinesOf(m', path) == LinesOf(m, path))
      && ((forall s :: s in strays ==> s.0 != e.path) && Unreal(m, strays) ==> Unreal(m', strays))
  {
    var m' := AddLine(m, e.path, e.line);
    if (forall s :: s in strays ==> s.0 != e.path) && Unreal(m, strays) {
      var s :| s in strays && s.1 !in LinesOf(m, s.0);
      assert s.1 !in LinesOf(m', s.0);
    }
  }

  lemma {:induction false} LinesApart(o: ParseOptions, lines: seq<Line>)
    requires Resolved(o) && !PlaceAfter(lines).Bad? && !ParseLines(o, Diff.START, lines).inv.truncated && Tidy(lines)
    ensures Apart(lines, Merged(ParseLines(o, Diff.START, lines)), ScanLines(SCAN_START, lines), StraysOf(lines))
  {
    hide ParseLine, ScanLine, StrayAt, Related, Apart, Tidy, Merged, MergedNext, Next;
    if lines == [] {
      NothingApart(o);
    } else {
      var front, line := lines[..|lines| - 1], lines[|lines| - 1];
      var st, e := ParseLines(o, Diff.START, front), ScanLines(SCAN_START, front);
      if st.inv.truncated {
        TruncationSticks(o, st, line);
      }
      BadStays(line);
      TidyFront(lines);
      LinesApart(o, front);
      LinesAgree(o, front);
      MergedStep(o, PlaceAfter(front), st, e, StraysOf(front), line);
      var m', e', strays' := Merged(ParseLines(o, Diff.START, lines)), ScanLines(SCAN_START, lines), StraysOf(lines);
      if HasPrefix(line, "+++ b/") {
        NameLine(lines, Merged(st), e, StraysOf(front), m', e', strays');
      } else if HasPrefix(line, "@@") {
        HeaderLine(lines, Merged(st), e, StraysOf(front), m', e', strays');
      } else {
        OtherLine(lines, Merged(st), e, StraysOf(front), m', e', strays');
      }
    }
  }

  lemma BadStays(line: Line)
    ensures Next(Bad, line).Bad?
  {
  }

  lemma NothingApart(o: ParseOptions)
    requires Resolved(o)
    ensures Apart([], Merged(ParseLines(o, Diff.START, [])), ScanLines(SCAN_START, []), StraysOf([]))
  {
  }

  // ----- The readers agree exactly when no deleted file follows a hunk -----

  lemma DeletesSnoc(lines: seq<Line>)
    requires lines != []
    ensures DeletesAfterHunk(lines) <==> DeletesAfterHunk(lines[..|lines| - 1]) || DeletesAt(lines, |lines| - 1)
  {
    hide PlaceAfter, HunkSinceName;
    var front := lines[..|lines| - 1];
    forall i | 0 <= i < |front|
      ensures DeletesAt(front, i) <==> DeletesAt(lines, i)
    {
      assert front[i] == lines[i] && front[..i] == lines[..i];
    }
  }

  /** A stray is counted under the last name, past all added lines of its file if the last hunk header
      belongs to it. */
  lemma StrayPastAdded(o: ParseOptions, lines: seq<Line>)
    requires Resolved(o) && !PlaceAfter(lines).Bad? && !ParseLines(o, Diff.START, lines).inv.truncated && Tidy(lines)
    requires lines != [] && DeletesAt(lines, |lines| - 1)
    ensures var front := lines[..|lines| - 1];
      var path, line := LastName(front), ScanLines(SCAN_START, front).line;
      && StraysOf(lines) == StraysOf(front) + [(path, line)]
      && (OwnHunk(front) ==> forall l :: l in LinesOf(Merged(ParseLines(o, Diff.START, front)), path) ==> l < line)
  {
    FrontHolds(o, lines);
    hide PlaceAfter, ParseLines, ScanLines, Merged, OwnHunk, HunkSinceName, Tidy;
  }

  lemma FrontHolds(o: ParseOptions, lines: seq<Line>)
    requires Resolved(o) && !PlaceAfter(lines).Bad? && !ParseLines(o, Diff.START, lines).inv.truncated && Tidy(lines)
    requires lines != []
    ensures var front := lines[..|lines| - 1];
      && !PlaceAfter(front).Bad? && !ParseLines(o, Diff.START, front).inv.truncated && Tidy(front)
      && Apart(front, Merged(ParseLines(o, Diff.START, front)), ScanLines(SCAN_START, front), StraysOf(front))
  {
    hide ParseLine, ScanLine, StrayAt, Apart, Tidy, Merged, Next;
    var front, line := lines[..|lines| - 1], lines[|lines| - 1];
    if ParseLines(o, Diff.START, front).inv.truncated {
      TruncationSticks(o, ParseLines(o, Diff.START, front), line);
    }
    BadStays(line);
    TidyFront(lines);
    LinesApart(o, front);
  }

  lemma {:induction false} StraysIff(o: ParseOptions, lines: seq<Line>)
    requires Resolved(o) && !PlaceAfter(lines).Bad? && !ParseLines(o, Diff.START, lines).inv.truncated && Tidy(lines)
    ensures StraysOf(lines) != [] <==> DeletesAfterHunk(lines)
  {
    if lines != [] {
      FrontHolds(o, lines);
      StraysIff(o, lines[..|lines| - 1]);
      DeletesSnoc(lines);
      hide PlaceAfter, ParseLines, ScanLines, Merged, Tidy, Recorded, Beyond, DeletesAfterHunk, HunkSinceName;
      assert lines[..|lines| - 1] == lines[..|lines| - 1][..];
    }
  }

  /** In a text that is parsed whole, strays are not added lines, and a deleted file after a hunk makes one. */
  lemma WholeText(raw: string, options: ParseOptions)
    requires WellFormed(raw) && Tidy(Split(raw)) && !ParseSpec(raw, options).truncated && TrimSpace(raw) != ""
    ensures var strays := StraysOf(Split(raw));
      && (strays != [] <==> DeletesAfterHunk(Split(raw)))
      && (strays != [] ==> Unreal(MergeFiles(ParseSpec(raw, options).files), strays))
  {
    hide ParseLines, ScanLines, PlaceAfter, Tidy, StraysOf, DeletesAfterHunk, MergeFiles, Split, ParseSpec, Merged,
      FlushFile, Unreal;
    var o := ResolveOptions(options);
    NotCut(raw, options);
    LinesApart(o, Split(raw));
    StraysIff(o, Split(raw));
    LinesStand(o, Split(raw));
  }

  /** The two readers agree on a well-formed diff whose files are named once and whose hunks ascend, exactly
      when no deleted file follows a hunk. */
  lemma AgreeIffNoDeletionAfterHunk(raw: string, options: ParseOptions)
    requires WellFormed(raw) && Tidy(Split(raw)) && !ParseSpec(raw, options).truncated
    ensures ChangedLinesOf(raw) == MergeFiles(ParseSpec(raw, options).files) <==> !DeletesAfterHunk(Split(raw))
  {
    hide WellFormed, Tidy, StraysOf, DeletesAfterHunk, MergeFiles, Split, ParseSpec, ChangedLinesOf, Unreal, TrimSpace;
    ReadersAgreeIffStraysReal(raw, options);
    UnrealIff(MergeFiles(ParseSpec(raw, options).files), StraysOf(Split(raw)));
    if TrimSpace(raw) == "" {
      BlankText(raw);
      BlankLines(Split(raw));
      BlankScan(Split(raw));
      BlankDeletes(Split(raw));
    } else {
      WholeText(raw, options);
    }
  }

  /** Whatever the findings, no suggestion is made for a line that no hunk of the parsed diff adds. */
  ghost predicate SuggestionsOnAdded(raw: string, options: ParseOptions) {
    forall findings, s :: s in SuggestionsFor(ChangedLinesOf(raw), findings) ==>
      s.line in LinesOf(MergeFiles(ParseSpec(raw, options).files), s.path)
  }

  /** The engine's suggestions target added lines exactly when no deleted file follows a hunk. */
  lemma SuggestionsOnAddedIff(raw: string, options: ParseOptions)
    requires WellFormed(raw) && Tidy(Split(raw)) && !ParseSpec(raw, options).truncated
    ensures SuggestionsOnAdded(raw, options) <==> !DeletesAfterHunk(Split(raw))
  {
    AgreeIffNoDeletionAfterHunk(raw, options);
    ReadersAgreeUpToStrays(raw, options);
    var m, e, strays := MergeFiles(ParseSpec(raw, options).files), ChangedLinesOf(raw), StraysOf(Split(raw));
    hide WellFormed, Tidy, StraysOf, DeletesAfterHunk, MergeFiles, Split, ParseSpec, ChangedLinesOf, SuggestionsFor,
      SuggestionFor, Postable, LinesOf;
    if e == m {
      forall findings
        ensures forall s :: s in SuggestionsFor(e, findings) ==> s.line in LinesOf(m, s.path)
      {
        SuggestionsArePostable(e, findings);
      }
    } else {
      OverlayNoop(m, strays);
      var stray :| stray in strays && stray.1 !in LinesOf(m, stray.0);
      OverlayHolds(m, strays, stray);
      var s := SuggestionAt(e, stray.0, stray.1);
    }
  }

  lemma {:induction false} OverlayHolds(m: LineMap, strays: Strays, s: (string, int))
    requires s in strays
    ensures s.1 in LinesOf(Overlay(m, strays), s.0)
  {
    var front, last := strays[..|strays| - 1], strays[|strays| - 1];
    if s != last {
      assert s in front;
      OverlayHolds(m, front, s);
    }
  }

  /** A finding on any line of the map gets its suggestion. */
  lemma SuggestionAt(m: LineMap, path: string, line: int) returns (s: InlineSuggestion)
    requires line in LinesOf(m, path)
    ensures s.path == path && s.line == line && exists findings :: s in SuggestionsFor(m, findings)
  {
    var f := Finding(path, line, "NOTE", "", "", "x");
    s := SuggestionFor(f);
    SuggestionsArePostable(m, [f]);
    assert TrimSpace("x") == "x" && !Contains("x", "```");
    hide SuggestionsFor, SuggestionFor;
    assert f in [f] && SuggestedBy(m, [f], s);
  }

  lemma UnrealIff(m: LineMap, strays: Strays)
    ensures (forall s :: s in strays ==> s.1 in LinesOf(m, s.0)) <==> !Unreal(m, strays)
    ensures strays == [] ==> !Unreal(m, strays)
  {
  }

  /** A text that is not truncated was parsed whole. */
  lemma NotCut(raw: string, options: ParseOptions)
    requires TrimSpace(raw) != "" && !ParseSpec(raw, options).truncated
    ensures var o := ResolveOptions(options); var st := ParseLines(o, Diff.START, Split(raw));
      !st.inv.truncated && ParseSpec(raw, options) == FlushFile(st).inv
  {
    hide ParseLines, Split;
    var o := ResolveOptions(options);
    if |raw| > o.maxBytes {
      AllTruncated(o, StartFor(raw, o.maxBytes), Split(CutToBytes(raw, o.maxBytes)));
    }
  }

  lemma BlankDeletes(lines: seq<Line>)
    requires forall l :: l in lines ==> Blank(l)
    ensures !DeletesAfterHunk(lines)
  {
    hide PlaceAfter, HunkSinceName;
    assert DELETED[0] == '+';
    forall i | 0 <= i < |lines|
      ensures lines[i] != DELETED
    {
      assert lines[i] in lines;
    }
  }

  lemma LinesStand(o: ParseOptions, lines: seq<Line>)
    requires Resolved(o) && !PlaceAfter(lines).Bad? && !ParseLines(o, Diff.START, lines).inv.truncated
    ensures var st := ParseLines(o, Diff.START, lines);
      (st.curHunk.Some? ==> st.curFile.Some?) && MergeFiles(FlushFile(st).inv.files) == Merged(st)
  {
    LinesAgree(o, lines);
    hide ParseLines, ScanLines, PlaceAfter, StraysOf, MergeFiles, Overlay, FlushFile, Merged;
    var st := ParseLines(o, Diff.START, lines);
    FlushFileKeepsMerged(st);
    MergedFlushed(FlushFile(st));
  }

  lemma MergedFlushed(st: ParseState)
    requires st.curFile.None?
    ensures Merged(st) == MergeFiles(st.inv.files)
  {
  }

  // ----- Texts on which they disagree -----

  /** The parser's counts after `n` lines, when no cap was reached. */
  predicate Room(st: ParseState, n: nat) {
    && !st.inv.truncated && !st.fileCapHit && !st.hunkCapHit && (st.curHunk.Some? ==> st.curFile.Some?)
    && |st.inv.files| + (if st.curFile.Some? then 1 else 0) <= n
    && st.inv.totalHunks + (if st.curHunk.Some? then 1 else 0) <= n
  }

  lemma RoomStep(o: ParseOptions, st: ParseState, line: Line, n: nat)
    requires Resolved(o) && Room(st, n) && n < o.maxFiles && n < o.maxHunks
    ensures Room(ParseLine(o, st, line), n + 1)
  {
    hide FileFromGitLine, ReadHeaderLine, ParseHunkHeader, BodyLine, CapReason, CloseFile, HasPrefix;
  }

  lemma {:induction false} LinesRoom(o: ParseOptions, lines: seq<Line>)
    requires Resolved(o) && |lines| <= o.maxFiles && |lines| <= o.maxHunks
    ensures Room(ParseLines(o, Diff.START, lines), |lines|)
  {
    if lines != [] {
      hide ParseLine, Room;
      LinesRoom(o, lines[..|lines| - 1]);
      RoomStep(o, ParseLines(o, Diff.START, lines[..|lines| - 1]), lines[|lines| - 1], |lines| - 1);
    }
  }

  /** A text within the byte cap, of no more lines than the other caps, is not truncated. */
  lemma WithinCaps(raw: string, options: ParseOptions)
    requires var o := ResolveOptions(options);
      |raw| <= o.maxBytes && |Split(raw)| <= o.maxFiles && |Split(raw)| <= o.maxHunks
    ensures !ParseSpec(raw, options).truncated
  {
    hide ParseLines, Split, TrimSpace;
    LinesRoom(ResolveOptions(options), Split(raw));
  }

  /** Where a text ends: its place, the names in it, and whether a hunk header stands since the last. */
  ghost predicate EndsAt(lines: seq<Line>, p: Place, names: seq<string>, since: bool) {
    PlaceAfter(lines) == p && NamesIn(lines) == names && HunkSinceName(lines) == since && Tidy(lines)
  }

  lemma EndsNext(lines: seq<Line>, p: Place, names: seq<string>, since: bool, line: Line)
    requires EndsAt(lines, p, names, since)
    requires HasPrefix(line, "+++ b/") ==> line[6..] !in names
    requires HasPrefix(line, "@@") ==> !p.Body?
    ensures EndsAt(lines + [line], Next(p, line),
                   if HasPrefix(line, "+++ b/") then names + [line[6..]] else names,
                   if HasPrefix(line, "+++ b/") then false else if HasPrefix(line, "@@") then names != [] else since)
  {
    var all := lines + [line];
    assert all[..|lines|] == lines && all[|lines|] == line;
    if HasPrefix(line, "+++ b/") {
      DistinctSnoc(names, line[6..]);
    }
    hide Next, Distinct, NextLine, Start, HasPrefix;
    forall i | 0 <= i < |lines|
      ensures all[i] == lines[i] && all[..i] == lines[..i]
    {
    }
  }

  /** A line that neither names a file nor opens a hunk. */
  lemma EndsOther(lines: seq<Line>, p: Place, names: seq<string>, since: bool, line: Line)
    requires EndsAt(lines, p, names, since) && line != "" && line[0] != '@' && !HasPrefix(line, "+++ b/")
    ensures EndsAt(lines + [line], Next(p, line), names, since)
  {
    hide EndsAt, Next;
    EndsNext(lines, p, names, since, line);
  }

  /** A line of a hunk that is not empty and reads as no header. */
  predicate Plain(line: Line) {
    line != "" && (line[0] == '+' || line[0] == '-' || line[0] == ' ') && !HasPrefix(line, "+++ b/")
  }

  /** Where lines of each kind lead. */
  lemma NextPlaces(line: Line)
    ensures Plain(line) ==> Next(Body(false), line) == Body(false)
    ensures HasPrefix(line, "-") ==> Next(GoneBody, line) == GoneBody
    ensures HasPrefix(line, "--- ") ==> Next(Header, line) == Header
    ensures HasPrefix(line, "diff --git ") ==> Next(Preamble, line) == Header && Next(Body(false), line) == Header
    ensures HasPrefix(line, "+++ b/") && |line| > 6 ==> Next(Header, line) == Named
    ensures HasPrefix(line, "@@") && CanonicalHeader(line) ==>
      Next(Named, line) == Body(false) && Next(Gone, line) == GoneBody
  {
    hide CanonicalHeader;
    assert DELETED[4] == '/';
    assert HasPrefix(line, "+++ b/") ==> line[0] == '+' && line[4] == 'b';
    assert HasPrefix(line, "-") ==> line[0] == '-';
    assert HasPrefix(line, "--- ") ==> line[0] == '-';
    assert HasPrefix(line, "@@") ==> line[0] == '@';
    assert HasPrefix(line, "diff --git ") ==> line[0] == 'd';
  }

  lemma {:induction false} PlainLines(lines: seq<Line>, names: seq<string>, body: seq<Line>)
    requires EndsAt(lines, Body(false), names, true) && forall l :: l in body ==> Plain(l)
    ensures EndsAt(lines + body, Body(false), names, true)
  {
    hide EndsAt, Next;
    if body == [] {
      assert lines + body == lines;
    } else {
      var front, line := body[..|body| - 1], body[|body| - 1];
      assert line in body && forall l :: l in front ==> l in body;
      PlainLines(lines, names, front);
      EndsOther(lines + front, Body(false), names, true, line);
      NextPlaces(line);
      assert lines + body == lines + front + [line];
    }
  }

  lemma {:induction false} GoneLines(lines: seq<Line>, names: seq<string>, since: bool, body: seq<Line>)
    requires EndsAt(lines, GoneBody, names, since) && forall l :: l in body ==> HasPrefix(l, "-")
    ensures EndsAt(lines + body, GoneBody, names, since)
  {
    hide EndsAt, Next;
    if body == [] {
      assert lines + body == lines;
    } else {
      var front, line := body[..|body| - 1], body[|body| - 1];
      assert line in body && forall l :: l in front ==> l in body;
      assert line[0] == '-';
      GoneLines(lines, names, since, front);
      EndsOther(lines + front, GoneBody, names, since, line);
      NextPlaces(line);
      assert lines + body == lines + front + [line];
    }
  }

  /** A file with one hunk, then a deleted file with one hunk. */
  function TwoFiles(git: Line, before: Line, name: Line, head: Line, body: seq<Line>,
                    git2: Line, before2: Line, head2: Line, gone: seq<Line>): seq<Line> {
    [git, before, name, head] + body + [git2, before2] + [DELETED] + [head2] + gone
  }

  ghost predicate FileWithHunk(git: Line, before: Line, head: Line) {
    HasPrefix(git, "diff --git ") && HasPrefix(before, "--- ") && CanonicalHeader(head) && HasPrefix(head, "@@")
  }

  lemma FirstHeader(git: Line, before: Line, name: Line)
    requires HasPrefix(git, "diff --git ") && HasPrefix(before, "--- ") && HasPrefix(name, "+++ b/") && |name| > 6
    ensures EndsAt([git, before, name], Named, [name[6..]], false)
  {
    assert git[0] == 'd' && before[0] == '-' && name[0] == '+' && before[1] == '-';
    assert EndsAt([], Preamble, [], false);
    NextPlaces(git);
    NextPlaces(before);
    NextPlaces(name);
    assert !HasPrefix(name, "@@");
    hide EndsAt, Next, HasPrefix;
    assert [] + [git] == [git] && [git] + [before] == [git, before] && [git, before] + [name] == [git, before, name];
    assert [] + [name[6..]] == [name[6..]];
    EndsOther([], Preamble, [], false, git);
    EndsOther([git], Header, [], false, before);
    EndsNext([git, before], Header, [], false, name);
  }

  lemma FirstFile(git: Line, before: Line, name: Line, head: Line, body: seq<Line>)
    requires FileWithHunk(git, before, head) && HasPrefix(name, "+++ b/") && |name| > 6
    requires forall l :: l in body ==> Plain(l)
    ensures EndsAt([git, before, name, head] + body, Body(false), [name[6..]], true)
  {
    assert head[0] == '@' && !HasPrefix(head, "+++ b/");
    hide CanonicalHeader, Next, EndsAt, Plain;
    FirstHeader(git, before, name);
    NextPlaces(head);
    EndsNext([git, before, name], Named, [name[6..]], false, head);
    assert [git, before, name] + [head] == [git, before, name, head];
    PlainLines([git, before, name, head], [name[6..]], body);
  }

  lemma SecondFile(lines: seq<Line>, names: seq<string>, git: Line, before: Line, head: Line, gone: seq<Line>)
    requires EndsAt(lines, Body(false), names, true) && names != []
    requires FileWithHunk(git, before, head) && forall l :: l in gone ==> HasPrefix(l, "-")
    ensures var all := lines + [git, before] + [DELETED] + [head] + gone;
      EndsAt(all, GoneBody, names, true) && DeletesAfterHunk(all)
  {
    hide CanonicalHeader;
    assert git[0] == 'd' && before[0] == '-' && head[0] == '@' && DELETED[0] == '+' && DELETED[4] == '/';
    assert Next(Header, DELETED) == Gone;
    hide Next;
    NextPlaces(git);
    NextPlaces(before);
    NextPlaces(head);
    EndsOther(lines, Body(false), names, true, git);
    EndsOther(lines + [git], Header, names, true, before);
    assert lines + [git] + [before] == lines + [git, before];
    EndsOther(lines + [git, before], Header, names, true, DELETED);
    assert PlaceAfter(lines + [git, before]).Header? && HunkSinceName(lines + [git, before]);
    hide EndsAt, PlaceAfter, HunkSinceName;
    EndsNext(lines + [git, before] + [DELETED], Gone, names, true, head);
    GoneLines(lines + [git, before] + [DELETED] + [head], names, true, gone);
    var all := lines + [git, before] + [DELETED] + [head] + gone;
    var i := |lines| + 2;
    assert all[..i] == lines + [git, before] && all[i] == DELETED;
    assert DeletesAt(all, i);
  }

  /** Every such diff makes the readers disagree. */
  lemma DeletedFileDisagrees(git: Line, before: Line, name: Line, head: Line, body: seq<Line>,
                             git2: Line, before2: Line, head2: Line, gone: seq<Line>, options: ParseOptions)
    requires FileWithHunk(git, before, head) && HasPrefix(name, "+++ b/") && |name| > 6
    requires FileWithHunk(git2, before2, head2)
    requires (forall l :: l in body ==> Plain(l)) && (forall l :: l in gone ==> HasPrefix(l, "-"))
    requires var lines := TwoFiles(git, before, name, head, body, git2, before2, head2, gone);
      var o := ResolveOptions(options);
      |Join(lines)| <= o.maxBytes && |lines| <= o.maxFiles && |lines| <= o.maxHunks
    ensures var raw := Join(TwoFiles(git, before, name, head, body, git2, before2, head2, gone));
      ChangedLinesOf(raw) != MergeFiles(ParseSpec(raw, options).files) && !SuggestionsOnAdded(raw, options)
  {
    var lines := TwoFiles(git, before, name, head, body, git2, before2, head2, gone);
    var raw := Join(lines);
    FirstFile(git, before, name, head, body);
    SecondFile([git, before, name, head] + body, [name[6..]], git2, before2, head2, gone);
    SplitJoin(lines);
    hide ParseSpec, Split, Join, DeletesAfterHunk, Tidy, ChangedLinesOf, MergeFiles, PlaceAfter, ResolveOptions,
      SuggestionsOnAdded;
    WithinCaps(raw, options);
    AgreeIffNoDeletionAfterHunk(raw, options);
    SuggestionsOnAddedIff(raw, options);
  }

  const HEAD: Line := "@@ -1 +1 @@"
  const KEPT: (Line, Line, Line) := ("diff --git " + "a/p b/p", "--- " + "a/p", "+++ b/" + "p")
  const GONE: (Line, Line) := ("diff --git " + "a/q b/q", "--- " + "a/q")

  lemma RangesParse(line: Line, a: string, b: string)
    requires HasPrefix(line, "@@") && Index(line[2..], "@@").Some?
    requires Fields(TrimSpace(line[2..2 + Index(line[2..], "@@").value])) == ["-" + a, "+" + b]
    requires ParseRange(a).Some? && ParseRange(b).Some?
    ensures ParseHunkHeader(line).Some?
  {
    hide Fields, TrimSpace, ParseRange;
    assert ("-" + a)[1..] == a && ("+" + b)[1..] == b;
  }

  lemma HeadText()
    ensures HeaderText("1", "1", "") == HEAD && RangeText("1") && HasPrefix(HEAD, "@@")
  {
    assert "@@ " + ("-" + "1") == "@@ -1";
    assert " @@" + "" == " @@";
    assert ("+" + "1") + " @@" == "+1 @@";
    assert " " + "+1 @@" == " +1 @@";
    assert "@@ -1" + " +1 @@" == HEAD;
  }

  lemma RangesAreCanonical(line: Line, a: string, b: string, rest: string)
    requires RangeText(a) && RangeText(b) && line == HeaderText(a, b, rest) && HasPrefix(line, "@@")
    requires ParseRange(a).Some? && ParseRange(b).Some?
    ensures CanonicalHeader(line)
  {
    hide Fields, Index, TrimSpace, HeaderText, ParseRange, ParseHunkHeader, RangeText, HasPrefix;
    ParserReadsSecondRange(a, b, rest);
    RangesParse(line, a, b);
  }

  lemma HeadIsCanonical()
    ensures CanonicalHeader(HEAD)
  {
    assert ParseRange("1").Some? by { assert Digits("1").Some?; }
    HeadText();
    hide HeaderText, ParseRange, RangeText, HasPrefix, CanonicalHeader;
    RangesAreCanonical(HEAD, "1", "1", "");
  }

  lemma {:induction false} JoinLength(lines: seq<Line>)
    requires forall l :: l in lines ==> |l| <= 20
    ensures |Join(lines)| <= 21 * |lines|
  {
    if |lines| > 1 {
      JoinLength(lines[1..]);
    } else if lines != [] {
      assert lines[0] in lines;
    }
  }

  lemma Prefixed(prefix: string, rest: string)
    ensures HasPrefix(prefix + rest, prefix)
  {
  }

  lemma ExampleFiles()
    ensures HasPrefix(KEPT.0, "diff --git ") && HasPrefix(GONE.0, "diff --git ")
    ensures HasPrefix(KEPT.1, "--- ") && HasPrefix(GONE.1, "--- ") && HasPrefix(KEPT.2, "+++ b/") && |KEPT.2| > 6
  {
    hide HasPrefix;
    Prefixed("diff --git ", "a/p b/p");
    Prefixed("diff --git ", "a/q b/q");
    Prefixed("--- ", "a/p");
    Prefixed("--- ", "a/q");
    Prefixed("+++ b/", "p");
  }

  /** The smallest such diff: one line changed in one file, and another file of one line deleted. */
  lemma SmallestDisagreement()
    ensures var raw := Join(TwoFiles(KEPT.0, KEPT.1, KEPT.2, HEAD, ["-x", "+y"], GONE.0, GONE.1, HEAD, ["-z"]));
      && ChangedLinesOf(raw) != MergeFiles(ParseSpec(raw, ParseOptions(0, 0, 0)).files)
      && !SuggestionsOnAdded(raw, ParseOptions(0, 0, 0))
  {
    ExampleFiles();
    HeadIsCanonical();
    HeadText();
    hide CanonicalHeader, Join, HeaderText;
    var body, gone: seq<Line> := ["-x", "+y"], ["-z"];
    var lines := TwoFiles(KEPT.0, KEPT.1, KEPT.2, HEAD, body, GONE.0, GONE.1, HEAD, gone);
    assert |lines| == 11;
    assert forall l :: l in lines ==> |l| <= 20;
    JoinLength(lines);
    DeletedFileDisagrees(KEPT.0, KEPT.1, KEPT.2, HEAD, body, GONE.0, GONE.1, HEAD, gone, ParseOptions(0, 0, 0));
  }
}
