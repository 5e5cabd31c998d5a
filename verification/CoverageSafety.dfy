/** From the text of a diff to the coverage verdict: what the parser accounts for, and when a review may
    be reported as full. */
module CoverageSafety {
  import opened Text
  import opened Diff
  import opened Coverage
  import A = Agreement
  import R = RoundTrip

  // ----- What the parser accounts for -----

  function GoodHeaders(lines: seq<Line>): seq<Line> {
    if lines == [] then []
    else
      var l := lines[|lines| - 1];
      GoodHeaders(lines[..|lines| - 1]) + if HasPrefix(l, "@@") && ParseHunkHeader(l).Some? then [l] else []
  }

  /** The omissions of malformed headers, by reason. */
  function MalformedReasons(lines: seq<Line>): seq<string> {
    if lines == [] then []
    else
      var l := lines[|lines| - 1];
      MalformedReasons(lines[..|lines| - 1])
      + if HasPrefix(l, "@@") && ParseHunkHeader(l).None? then [MalformedReason(l)] else []
  }

  function Reasons(oms: seq<Omission>): seq<string> {
    if oms == [] then [] else Reasons(oms[..|oms| - 1]) + [oms[|oms| - 1].reason]
  }

  lemma ReasonsSnoc(oms: seq<Omission>, om: Omission)
    ensures Reasons(oms + [om]) == Reasons(oms) + [om.reason]
  {
    assert (oms + [om])[..|oms|] == oms;
  }

  function Open<T>(o: Option<T>): nat {
    if o.Some? then 1 else 0
  }

  function FileCap(o: ParseOptions): string
    requires Resolved(o)
  {
    CapReason("file", "DIFF_MAX_FILES", o.maxFiles)
  }

  function HunkCap(o: ParseOptions): string
    requires Resolved(o)
  {
    CapReason("hunk", "DIFF_MAX_HUNKS", o.maxHunks)
  }

  /** The parser after `lines`: it has read a prefix of the good headers, all of them unless a cap was
      hit; its totals respect the caps; truncation leaves an omission, and without truncation the
      omissions are those of the malformed headers. `cut` is what the byte cap omitted beforehand; a file
      or hunk cap that is hit is named among the omissions. */
  ghost predicate Accounts(o: ParseOptions, cut: seq<string>, lines: seq<Line>, st: ParseState)
    requires Resolved(o)
  {
    && (st.curHunk.Some? ==> st.curFile.Some?)
    && (st.fileCapHit || st.hunkCapHit ==> st.inv.truncated)
    && R.HeadersRead(st) <= GoodHeaders(lines)
    && (!st.fileCapHit && !st.hunkCapHit ==> R.HeadersRead(st) == GoodHeaders(lines))
    && |R.HeadersRead(st)| == st.inv.totalHunks + Open(st.curHunk) <= o.maxHunks
    && |st.inv.files| == st.inv.totalFiles && st.inv.totalFiles + Open(st.curFile) <= o.maxFiles
    && (st.inv.truncated ==> st.inv.omissions != [])
    && (!st.inv.truncated ==> Reasons(st.inv.omissions) == MalformedReasons(lines))
    && (forall i :: 0 <= i < |st.inv.omissions| ==> st.inv.omissions[i].reason != NOT_EXAMINED)
    && (!st.fileCapHit && !st.hunkCapHit ==> Reasons(st.inv.omissions) == cut + MalformedReasons(lines))
    && (st.fileCapHit ==> FileCap(o) in Reasons(st.inv.omissions))
    && (st.hunkCapHit ==> HunkCap(o) in Reasons(st.inv.omissions))
  }

  /** Between lines, only the start of the text and a reached file cap leave no file open. */
  ghost predicate Settled(st: ParseState) {
    st.curFile.None? && !st.fileCapHit ==> st.inv.files == []
  }

  lemma FlushAccounts(o: ParseOptions, cut: seq<string>, lines: seq<Line>, st: ParseState)
    requires Resolved(o) && Accounts(o, cut, lines, st)
    ensures Accounts(o, cut, lines, FlushHunk(st)) && FlushHunk(st).curHunk.None?
    ensures FlushHunk(st) == st.(inv := FlushHunk(st).inv, curFile := FlushHunk(st).curFile, curHunk := None)
    ensures FlushHunk(st).curFile.Some? == st.curFile.Some?
    ensures FlushHunk(st).inv == st.inv.(totalHunks := FlushHunk(st).inv.totalHunks)
  {
    hide R.HeadersRead, GoodHeaders;
    R.FlushKeepsHeaders(st);
  }

  lemma FlushFileAccounts(o: ParseOptions, cut: seq<string>, lines: seq<Line>, st: ParseState)
    requires Resolved(o) && Accounts(o, cut, lines, st)
    ensures Accounts(o, cut, lines, FlushFile(st)) && FlushFile(st).curHunk.None? && FlushFile(st).curFile.None?
    ensures FlushFile(st).fileCapHit == st.fileCapHit
    ensures FlushFile(st).inv.omissions == st.inv.omissions && FlushFile(st).inv.truncated == st.inv.truncated
  {
    hide R.HeadersRead, GoodHeaders, FlushHunk;
    FlushAccounts(o, cut, lines, st);
    R.FlushKeepsHeaders(st);
  }

  lemma HeadersSnoc(lines: seq<Line>, l: Line)
    ensures GoodHeaders(lines + [l])
         == GoodHeaders(lines) + if HasPrefix(l, "@@") && ParseHunkHeader(l).Some? then [l] else []
    ensures MalformedReasons(lines + [l])
         == MalformedReasons(lines)
            + if HasPrefix(l, "@@") && ParseHunkHeader(l).None? then [MalformedReason(l)] else []
  {
    hide ParseHunkHeader, MalformedReason;
    assert (lines + [l])[..|lines|] == lines;
  }

  /** A line that is no hunk header leaves the account as it is. */
  lemma PlainLine(o: ParseOptions, cut: seq<string>, lines: seq<Line>, l: Line, st: ParseState)
    requires Resolved(o) && Accounts(o, cut, lines, st) && !HasPrefix(l, "@@")
    ensures Accounts(o, cut, lines + [l], st)
  {
    hide ParseHunkHeader, R.HeadersRead;
    HeadersSnoc(lines, l);
    assert GoodHeaders(lines) + [] == GoodHeaders(lines);
    assert MalformedReasons(lines) + [] == MalformedReasons(lines);
  }

  /** Changes that keep the inventory, the number of open things and the headers keep the account. */
  lemma SameAccount(o: ParseOptions, cut: seq<string>, lines: seq<Line>, st: ParseState, s: ParseState)
    requires Resolved(o) && Accounts(o, cut, lines, st)
    requires s.inv == st.inv && s.fileCapHit == st.fileCapHit && s.hunkCapHit == st.hunkCapHit
    requires s.curFile.Some? == st.curFile.Some? && s.curHunk.Some? == st.curHunk.Some?
    requires s.curFile.Some? ==> s.curFile.value.hunks == st.curFile.value.hunks
    requires s.curHunk.Some? ==> s.curHunk.value.header == st.curHunk.value.header
    ensures Accounts(o, cut, lines, s)
  {
    hide R.FileHunkHeaders, R.HunkHeaders, GoodHeaders;
  }

  /** An omission that comes with truncation. */
  lemma CapAccounts(o: ParseOptions, cut: seq<string>, lines: seq<Line>, st: ParseState, om: Omission, s: ParseState)
    requires Resolved(o) && Accounts(o, cut, lines, st) && om.reason != "" && om.reason[0] == 'e'
    requires s.inv == Omit(st.inv, om).(truncated := true)
    requires s.curFile == st.curFile && s.curHunk == st.curHunk
    requires st.fileCapHit ==> s.fileCapHit
    requires st.hunkCapHit ==> s.hunkCapHit
    requires s.fileCapHit || s.hunkCapHit
    requires s.fileCapHit ==> st.fileCapHit || om.reason == FileCap(o)
    requires s.hunkCapHit ==> st.hunkCapHit || om.reason == HunkCap(o)
    ensures Accounts(o, cut, lines, s)
  {
    hide R.FileHunkHeaders, R.HunkHeaders, GoodHeaders, Reasons, CapReason;
    ReasonsSnoc(st.inv.omissions, om);
    assert NOT_EXAMINED[0] == 'n';
  }

  lemma CapReasonStarts(what: string, variable: string, n: int)
    requires n > 0
    ensures CapReason(what, variable, n) != "" && CapReason(what, variable, n)[0] == 'e'
  {
    hide Itoa;
  }

  lemma OpenFileAccounts(o: ParseOptions, cut: seq<string>, lines: seq<Line>, st: ParseState, f: FileDiff)
    requires Resolved(o) && Accounts(o, cut, lines, st) && f.hunks == []
    requires st.curFile.None? && st.curHunk.None? && !st.fileCapHit
    ensures Accounts(o, cut, lines, OpenFile(o, st, f)) && Settled(OpenFile(o, st, f))
    ensures OpenFile(o, st, f).curHunk.None?
  {
    hide R.FileHunkHeaders, GoodHeaders, CapReason;
    CapReasonStarts("file", "DIFF_MAX_FILES", o.maxFiles);
    var om := Omission("", "", CapReason("file", "DIFF_MAX_FILES", o.maxFiles));
    if |st.inv.files| >= o.maxFiles {
      CapAccounts(o, cut, lines, st, om, OpenFile(o, st, f));
    } else {
      assert R.HunkHeaders([]) == [];
    }
  }

  lemma GitLineAccounts(o: ParseOptions, cut: seq<string>, lines: seq<Line>, l: Line, st: ParseState)
    requires Resolved(o) && Accounts(o, cut, lines, st) && Settled(st) && HasPrefix(l, "diff --git ")
    ensures Accounts(o, cut, lines + [l], ParseLine(o, st, l)) && Settled(ParseLine(o, st, l))
  {
    hide Accounts, FileFromGitLine, OpenFile, FlushFile, ReadHeaderLine, OpenHunk, AddToHunk;
    assert l[0] == 'd';
    FlushFileAccounts(o, cut, lines, st);
    if !st.fileCapHit {
      OpenFileAccounts(o, cut, lines, FlushFile(st), FileFromGitLine(l));
    }
    PlainLine(o, cut, lines, l, ParseLine(o, st, l));
  }

  lemma OtherLineAccounts(o: ParseOptions, cut: seq<string>, lines: seq<Line>, l: Line, st: ParseState)
    requires Resolved(o) && Accounts(o, cut, lines, st) && Settled(st)
    requires !HasPrefix(l, "diff --git ") && !HasPrefix(l, "@@")
    ensures Accounts(o, cut, lines + [l], ParseLine(o, st, l)) && Settled(ParseLine(o, st, l))
  {
    hide OpenFile, ReadHeaderLine, OpenHunk, BodyLine, FlushFile, GoodHeaders, MalformedReasons, R.HeadersRead;
    var s := st;
    if HasPrefix(l, "--- ") && st.curFile.None? && !st.fileCapHit {
      OpenFileAccounts(o, cut, lines, st, EmptyFile("", "", [l]));
      s := OpenFile(o, st, EmptyFile("", "", [l]));
    }
    if s.curFile.Some? {
      A.HeaderLineSetsPath(s.curFile.value, l);
    }
    SameAccount(o, cut, lines, s, ParseLine(o, st, l));
    PlainLine(o, cut, lines, l, ParseLine(o, st, l));
  }

  lemma MalformedAccounts(o: ParseOptions, cut: seq<string>, lines: seq<Line>, l: Line, st: ParseState, path: string)
    requires Resolved(o) && Accounts(o, cut, lines, st) && HasPrefix(l, "@@") && ParseHunkHeader(l).None?
    ensures Accounts(o, cut, lines + [l], st.(inv := Omit(st.inv, Omission(path, "", MalformedReason(l)))))
  {
    hide ParseHunkHeader, R.FileHunkHeaders, R.HunkHeaders, GoodHeaders, MalformedReasons;
    HeadersSnoc(lines, l);
    ReasonsSnoc(st.inv.omissions, Omission(path, "", MalformedReason(l)));
    assert GoodHeaders(lines) + [] == GoodHeaders(lines);
    assert MalformedReason(l)[0] == 'm' && NOT_EXAMINED[0] == 'n';
  }

  lemma OpenedAccounts(o: ParseOptions, cut: seq<string>, lines: seq<Line>, l: Line, st: ParseState, h: Hunk, next: int)
    requires Resolved(o) && Accounts(o, cut, lines, st) && st.curFile.Some? && st.curHunk.None? && !st.fileCapHit
      && !st.hunkCapHit
    requires HasPrefix(l, "@@") && ParseHunkHeader(l).Some? && h.header == l && st.inv.totalHunks < o.maxHunks
    ensures Accounts(o, cut, lines + [l], st.(curHunk := Some(h), curLine := next))
  {
    hide ParseHunkHeader, R.FileHunkHeaders, R.HunkHeaders, GoodHeaders, MalformedReasons;
    HeadersSnoc(lines, l);
    assert MalformedReasons(lines) + [] == MalformedReasons(lines);
  }

  /** Once a cap is hit, later headers are dropped. */
  lemma DroppedHeader(o: ParseOptions, cut: seq<string>, lines: seq<Line>, l: Line, st: ParseState)
    requires Resolved(o) && Accounts(o, cut, lines, st) && (st.fileCapHit || st.hunkCapHit)
    ensures Accounts(o, cut, lines + [l], st)
  {
    hide ParseHunkHeader, R.HeadersRead, GoodHeaders, MalformedReasons;
    HeadersSnoc(lines, l);
  }

  lemma OpenHunkAccounts(o: ParseOptions, cut: seq<string>, lines: seq<Line>, l: Line, st: ParseState)
    requires Resolved(o) && Accounts(o, cut, lines, st) && Settled(st) && !st.fileCapHit && HasPrefix(l, "@@")
    ensures Accounts(o, cut, lines + [l], OpenHunk(o, st, l)) && Settled(OpenHunk(o, st, l))
  {
    hide ParseHunkHeader, CapReason, FlushHunk, Itoa, R.FileHunkHeaders, GoodHeaders, MalformedReasons, MalformedReason;
    FlushAccounts(o, cut, lines, st);
    var flushed := FlushHunk(st);
    var s := if flushed.curFile.None? then flushed.(curFile := Some(EmptyFile("unknown", "", []))) else flushed;
    assert Accounts(o, cut, lines, s) by {
      assert R.HunkHeaders([]) == [];
    }
    hide Accounts;
    var om := Omission(s.curFile.value.path, "", CapReason("hunk", "DIFF_MAX_HUNKS", o.maxHunks));
    CapReasonStarts("hunk", "DIFF_MAX_HUNKS", o.maxHunks);
    if s.hunkCapHit {
      DroppedHeader(o, cut, lines, l, s);
    } else if s.inv.totalHunks >= o.maxHunks {
      CapAccounts(o, cut, lines, s, om, OpenHunk(o, st, l));
      DroppedHeader(o, cut, lines, l, OpenHunk(o, st, l));
    } else if ParseHunkHeader(l).None? {
      MalformedAccounts(o, cut, lines, l, s, s.curFile.value.path);
    } else {
      var t := OpenHunk(o, st, l);
      OpenedAccounts(o, cut, lines, l, s, t.curHunk.value, t.curLine);
    }
  }

  lemma HeaderLineAccounts(o: ParseOptions, cut: seq<string>, lines: seq<Line>, l: Line, st: ParseState)
    requires Resolved(o) && Accounts(o, cut, lines, st) && Settled(st) && HasPrefix(l, "@@")
    ensures Accounts(o, cut, lines + [l], ParseLine(o, st, l)) && Settled(ParseLine(o, st, l))
  {
    hide Accounts, OpenFile, ReadHeaderLine, OpenHunk, AddToHunk, FlushFile;
    assert l[0] == '@';
    if st.fileCapHit {
      DroppedHeader(o, cut, lines, l, st);
    } else {
      if st.curFile.Some? {
        A.NotHeaderLine(st.curFile.value, l);
      }
      OpenHunkAccounts(o, cut, lines, l, st);
    }
  }

  lemma {:induction false} LinesAccount(o: ParseOptions, cut: seq<string>, st: ParseState, lines: seq<Line>)
    requires Resolved(o) && Accounts(o, cut, [], st) && Settled(st)
    ensures Accounts(o, cut, lines, ParseLines(o, st, lines)) && Settled(ParseLines(o, st, lines))
  {
    hide ParseLine, Accounts, Settled;
    if lines != [] {
      var front, l := lines[..|lines| - 1], lines[|lines| - 1];
      LinesAccount(o, cut, st, front);
      var s := ParseLines(o, st, front);
      assert front + [l] == lines;
      if HasPrefix(l, "diff --git ") {
        GitLineAccounts(o, cut, front, l, s);
      } else if HasPrefix(l, "@@") {
        HeaderLineAccounts(o, cut, front, l, s);
      } else {
        OtherLineAccounts(o, cut, front, l, s);
      }
    }
  }

  /** What the byte cap omits. */
  function CutReasons(raw: string, o: ParseOptions): seq<string>
    requires o.maxBytes > 0
  {
    if |raw| > o.maxBytes then [CapReason("diff size", "DIFF_MAX_BYTES", o.maxBytes)] else []
  }

  lemma StartAccounts(raw: string, o: ParseOptions)
    requires Resolved(o) && o.maxBytes > 0
    ensures Accounts(o, CutReasons(raw, o), [], StartFor(raw, o.maxBytes)) && Settled(StartFor(raw, o.maxBytes))
  {
    hide CapReason;
    CapReasonStarts("diff size", "DIFF_MAX_BYTES", o.maxBytes);
    assert NOT_EXAMINED[0] == 'n';
    var om := Omission("", "", CapReason("diff size", "DIFF_MAX_BYTES", o.maxBytes));
    ReasonsSnoc([], om);
    assert [] + [om] == [om] && [] + [om.reason] == [om.reason] && CutReasons(raw, o) + [] == CutReasons(raw, o);
  }

  /** The lines the parser reads. */
  function TextLines(raw: string, options: ParseOptions): seq<Line> {
    Split(CutToBytes(raw, ResolveOptions(options).maxBytes))
  }

  /** The file and the hunk cap were not reached: neither is named among the omissions. */
  predicate CapsFree(inv: ChangeInventory, options: ParseOptions) {
    var o := ResolveOptions(options);
    FileCap(o) !in Reasons(inv.omissions) && HunkCap(o) !in Reasons(inv.omissions)
  }

  /** The parser's totals respect the caps; its hunks are, in order, good hunk headers of the text; a
      truncated inventory has an omission, and an inventory that is not truncated holds every good
      header as a hunk and every malformed one as an omission. The same holds of the text that was kept
      when the byte cap alone was reached. */
  lemma ParseAccounts(raw: string, options: ParseOptions)
    ensures var inv := ParseSpec(raw, options); var lines := TextLines(raw, options);
      && |inv.files| == inv.totalFiles <= ResolveOptions(options).maxFiles
      && |R.FileHunkHeaders(inv.files)| == inv.totalHunks <= ResolveOptions(options).maxHunks
      && R.FileHunkHeaders(inv.files) <= GoodHeaders(lines)
      && (inv.truncated ==> inv.omissions != [])
      && (!inv.truncated ==>
        R.FileHunkHeaders(inv.files) == GoodHeaders(lines) && Reasons(inv.omissions) == MalformedReasons(lines))
      && (CapsFree(inv, options) ==>
        && R.FileHunkHeaders(inv.files) == GoodHeaders(lines)
        && Reasons(inv.omissions) ==
          (if TrimSpace(raw) == "" then [] else CutReasons(raw, ResolveOptions(options))) + MalformedReasons(lines))
      && (forall i :: 0 <= i < |inv.omissions| ==> inv.omissions[i].reason != NOT_EXAMINED)
  {
    hide ParseLines, GoodHeaders, MalformedReasons, CutToBytes, Split, FlushFile, StartFor, TrimSpace,
      R.FileHunkHeaders, CapReason;
    var o := ResolveOptions(options);
    var lines := TextLines(raw, options);
    if TrimSpace(raw) == "" {
      BlankHasNoHeaders(raw, o.maxBytes);
      assert R.FileHunkHeaders([]) == [] by { NoHeadersInNothing(); }
    } else {
      var st := ParseLines(o, StartFor(raw, o.maxBytes), lines);
      StartAccounts(raw, o);
      LinesAccount(o, CutReasons(raw, o), StartFor(raw, o.maxBytes), lines);
      FlushFileAccounts(o, CutReasons(raw, o), lines, st);
      FlushKeepsCaps(st);
    }
  }

  lemma FlushKeepsCaps(st: ParseState)
    ensures FlushFile(st).hunkCapHit == st.hunkCapHit && FlushFile(st).fileCapHit == st.fileCapHit
  {
  }

  lemma NoHeadersInNothing()
    ensures R.FileHunkHeaders([]) == []
  {
  }

  lemma BlankHasNoHeaders(raw: string, maxBytes: nat)
    requires TrimSpace(raw) == ""
    ensures GoodHeaders(Split(CutToBytes(raw, maxBytes))) == []
    ensures MalformedReasons(Split(CutToBytes(raw, maxBytes))) == []
  {
    hide Split, LastNewline, GoodHeaders, MalformedReasons, TrimSpace;
    A.BlankText(raw);
    var lines := Split(CutToBytes(raw, maxBytes));
    assert Blank(Join(lines));
    A.BlankLines(lines);
    BlankLinesNoHeaders(lines);
  }

  lemma {:induction false} BlankLinesNoHeaders(lines: seq<Line>)
    requires forall l :: l in lines ==> Blank(l)
    ensures GoodHeaders(lines) == [] && MalformedReasons(lines) == []
  {
    hide ParseHunkHeader, MalformedReason;
    if lines != [] {
      var l := lines[|lines| - 1];
      assert l in lines;
      assert l != "" ==> IsSpace(l[0]);
      BlankLinesNoHeaders(lines[..|lines| - 1]);
    }
  }

  // ----- When a review is full -----

  function MarkAll(entries: seq<LedgerEntry>, marks: seq<string>): (r: seq<LedgerEntry>)
    ensures |r| == |entries|
  {
    if marks == [] then entries
    else MarkFile(MarkAll(entries, marks[..|marks| - 1]), marks[|marks| - 1])
  }

  predicate Reached(e: LedgerEntry, marks: seq<string>) {
    e.file in marks && Markable(e, e.file)
  }

  /** Marks flip exactly the markable entries of the files they name, in whatever order they come. */
  lemma {:induction false} MarksFlip(entries: seq<LedgerEntry>, marks: seq<string>)
    ensures forall i :: 0 <= i < |entries| ==>
      MarkAll(entries, marks)[i] == if Reached(entries[i], marks) then Examine(entries[i]) else entries[i]
  {
    hide Contains;
    if marks != [] {
      var front, last := marks[..|marks| - 1], marks[|marks| - 1];
      MarksFlip(entries, front);
      assert forall m :: m in marks <==> m in front || m == last;
    }
  }

  /** Every hunk of the file can be, and is, marked. */
  ghost predicate FileCovered(f: FileDiff, marks: seq<string>) {
    && !f.isBinary && !f.isModeOnly && f.hunks != []
    && f.path != "" && f.path in marks
    && forall i :: 0 <= i < |f.hunks| ==> !Contains(f.hunks[i].id, "omission")
  }

  ghost predicate AllReached(entries: seq<LedgerEntry>, marks: seq<string>) {
    forall i :: 0 <= i < |entries| ==> Reached(entries[i], marks)
  }

  lemma AllReachedConcat(a: seq<LedgerEntry>, b: seq<LedgerEntry>, marks: seq<string>)
    ensures AllReached(a + b, marks) <==> AllReached(a, marks) && AllReached(b, marks)
  {
    hide Reached;
    if AllReached(a + b, marks) {
      assert forall i :: 0 <= i < |a| ==> (a + b)[i] == a[i];
      assert forall i :: 0 <= i < |b| ==> (a + b)[|a| + i] == b[i];
    }
  }

  lemma {:induction false} HunksReached(f: FileDiff, hunks: seq<Hunk>, marks: seq<string>)
    ensures |HunkEntries(f, hunks)| == |hunks|
    ensures AllReached(HunkEntries(f, hunks), marks) <==>
      || hunks == []
      || (f.path != "" && f.path in marks && forall i :: 0 <= i < |hunks| ==> !Contains(hunks[i].id, "omission"))
  {
    hide Contains;
    if hunks != [] {
      var front, h := hunks[..|hunks| - 1], hunks[|hunks| - 1];
      HunksReached(f, front, marks);
      AllReachedConcat(HunkEntries(f, front), [Skip(h.id, f.path, NOT_EXAMINED)], marks);
      var one := [Skip(h.id, f.path, NOT_EXAMINED)];
      assert AllReached(one, marks) <==> Reached(one[0], marks);
    }
  }

  lemma FileReached(f: FileDiff, marks: seq<string>)
    ensures AllReached(FileEntries(f), marks) <==> FileCovered(f, marks)
  {
    hide Contains, HunkEntries;
    HunksReached(f, f.hunks, marks);
    var e := FileEntries(f);
    if f.isBinary || f.isModeOnly || f.hunks == [] {
      assert e[0].reason[0] in {'b', 'm', 'r'} || e[0].reason[2] == ' ';
      assert NOT_EXAMINED[0] == 'n' && NOT_EXAMINED[2] == 't';
      assert !Reached(e[0], marks);
    }
  }

  lemma {:induction false} FilesReached(files: seq<FileDiff>, marks: seq<string>)
    ensures AllReached(FilesEntries(files), marks)
      <==> forall i :: 0 <= i < |files| ==> FileCovered(files[i], marks)
  {
    hide FileCovered, FileEntries, Reached;
    if files != [] {
      var front, f := files[..|files| - 1], files[|files| - 1];
      FilesReached(front, marks);
      AllReachedConcat(FilesEntries(front), FileEntries(f), marks);
      FileReached(f, marks);
    }
  }

  lemma {:induction false} OmissionsNotReached(oms: seq<Omission>, marks: seq<string>)
    requires forall i :: 0 <= i < |oms| ==> oms[i].reason != NOT_EXAMINED
    ensures AllReached(OmissionEntries(oms), marks) <==> oms == []
  {
    if oms != [] {
      hide Contains, Itoa;
      var front := oms[..|oms| - 1];
      OmissionsNotReached(front, marks);
      var e := OmissionEntry(oms[|oms| - 1], |oms| - 1);
      AllReachedConcat(OmissionEntries(front), [e], marks);
      assert !Reached([e][0], marks);
    }
  }

  /** The ledger of an inventory, after any file marks, is complete exactly when nothing was omitted,
      every file has hunks to read, and every hunk's file was marked and its id can be flipped. */
  lemma CompleteIff(inv: ChangeInventory, marks: seq<string>)
    requires forall i :: 0 <= i < |inv.omissions| ==> inv.omissions[i].reason != NOT_EXAMINED
    ensures AllExamined(MarkAll(InitialEntries(inv), marks))
      <==> inv.omissions == [] && forall i :: 0 <= i < |inv.files| ==> FileCovered(inv.files[i], marks)
  {
    hide FileCovered, Reached, FilesEntries, OmissionEntries;
    var entries := InitialEntries(inv);
    MarksFlip(entries, marks);
    StartsSkipped(inv);
    assert AllExamined(MarkAll(entries, marks)) <==> AllReached(entries, marks);
    AllReachedConcat(FilesEntries(inv.files), OmissionEntries(inv.omissions), marks);
    FilesReached(inv.files, marks);
    OmissionsNotReached(inv.omissions, marks);
  }

  ghost predicate AllSkipped(entries: seq<LedgerEntry>) {
    forall i :: 0 <= i < |entries| ==> !entries[i].examined
  }

  /** Every entry starts as skipped. */
  lemma StartsSkipped(inv: ChangeInventory)
    ensures AllSkipped(InitialEntries(inv))
  {
    FilesStartSkipped(inv.files);
    OmissionsStartSkipped(inv.omissions);
  }

  lemma {:induction false} FilesStartSkipped(files: seq<FileDiff>)
    ensures AllSkipped(FilesEntries(files))
  {
    if files != [] {
      FilesStartSkipped(files[..|files| - 1]);
      HunksStartSkipped(files[|files| - 1], files[|files| - 1].hunks);
    }
  }

  lemma {:induction false} HunksStartSkipped(f: FileDiff, hunks: seq<Hunk>)
    ensures AllSkipped(HunkEntries(f, hunks))
  {
    if hunks != [] {
      HunksStartSkipped(f, hunks[..|hunks| - 1]);
    }
  }

  lemma {:induction false} OmissionsStartSkipped(oms: seq<Omission>)
    ensures AllSkipped(OmissionEntries(oms))
  {
    if oms != [] {
      OmissionsStartSkipped(oms[..|oms| - 1]);
    }
  }

  /** A review is reported as full exactly when no omission was recorded and every file is covered; and
      then nothing was cut, every "@@" line of the text is a hunk, and every hunk's file was marked. */
  lemma FullCoverage(raw: string, options: ParseOptions, marks: seq<string>)
    ensures var inv := ParseSpec(raw, options); var full := AllExamined(MarkAll(InitialEntries(inv), marks));
      && (full <==> inv.omissions == [] && forall i :: 0 <= i < |inv.files| ==> FileCovered(inv.files[i], marks))
      && (full ==>
            && !inv.truncated
            && R.FileHunkHeaders(inv.files) == GoodHeaders(TextLines(raw, options))
            && MalformedReasons(TextLines(raw, options)) == [])
  {
    hide ParseSpec, FileCovered, MarkAll, InitialEntries, GoodHeaders, MalformedReasons;
    ParseAccounts(raw, options);
    CompleteIff(ParseSpec(raw, options), marks);
  }
}
