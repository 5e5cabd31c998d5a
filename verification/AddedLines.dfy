/** Which lines are added: the answer of both readers, said of the decimal numbers in the hunk headers and
    of the lines that follow them. */
module AddedLines {
  import opened Text
  import opened TextLaws
  import opened Diff
  import opened Engine
  import A = Agreement
  import R = RoundTrip

  // ----- Hunk headers -----

  /** One side of a hunk header: where it starts and, unless that is one, how many lines it has. */
  function RangeOf(start: nat, count: Option<nat>): string {
    Itoa(start) + if count.None? then "" else "," + Itoa(count.value)
  }

  predicate Fits(start: nat, count: Option<nat>) {
    start <= MAX_INT64 && (count.Some? ==> count.value <= MAX_INT64)
  }

  function CountOf(count: Option<nat>): nat {
    if count.None? then 1 else count.value
  }

  lemma RangeIsText(start: nat, count: Option<nat>)
    ensures A.RangeText(RangeOf(start, count))
  {
    hide Itoa;
    assert Itoa(start) != "";
  }

  lemma CommaAt(s: string, i: nat)
    ensures StandsAt(s, ",", i) <==> i < |s| && s[i] == ','
  {
    if i < |s| {
      assert s[i..i + 1] == [s[i]];
    }
  }

  lemma CutAtComma(s: string, rest: string)
    requires ',' !in s
    ensures Cut(s) == (s, None) && Cut(s + "," + rest) == (s, Some(rest))
  {
    CommaNowhere(s);
    CommaThere(s, rest);
    hide Index;
    RestAfterComma(s, rest);
  }

  lemma CommaNowhere(s: string)
    requires ',' !in s
    ensures Index(s, ",").None?
  {
    forall i: nat
      ensures !StandsAt(s, ",", i)
    {
      CommaAt(s, i);
    }
    IndexIsFirst(s, ",");
    hide Index, StandsAt;
  }

  lemma CommaThere(s: string, rest: string)
    requires ',' !in s
    ensures Index(s + "," + rest, ",") == Some(|s|)
  {
    var t := s + "," + rest;
    forall i: nat | i <= |s|
      ensures StandsAt(t, ",", i) <==> i == |s|
    {
      CommaAt(t, i);
      assert i < |s| ==> t[i] == s[i] && s[i] in s;
    }
    IndexWhere(t, ",", |s|);
  }

  lemma RestAfterComma(s: string, rest: string)
    ensures (s + "," + rest)[..|s|] == s && (s + "," + rest)[|s| + 1..] == rest
  {
  }

  lemma RangeCut(start: nat, count: Option<nat>)
    ensures Cut(RangeOf(start, count)) == (Itoa(start), if count.None? then None else Some(Itoa(count.value)))
  {
    var s := Itoa(start);
    hide Itoa, Cut;
    assert ',' !in s;
    if count.Some? {
      var n := Itoa(count.value);
      CutAtComma(s, n);
      assert s + ("," + n) == s + "," + n;
    } else {
      CutAtComma(s, "");
      assert s + "" == s;
    }
  }

  lemma RangeReads(start: nat, count: Option<nat>)
    ensures ParseRange(RangeOf(start, count)) == if Fits(start, count) then Some((start, CountOf(count))) else None
  {
    RangeCut(start, count);
    AtoiItoa(start);
    if count.Some? {
      AtoiItoa(count.value);
    }
    hide Itoa, Atoi, Cut, RangeOf;
  }

  /** Both readers take from a header the decimal numbers written in it, as far as 64 bits go. */
  lemma HeaderReads(a: nat, an: Option<nat>, c: nat, cn: Option<nat>, rest: string)
    ensures var line := "@@ -" + RangeOf(a, an) + " +" + RangeOf(c, cn) + " @@" + rest;
      && (ParseHunkHeader(line) == if Fits(a, an) && Fits(c, cn)
          then Some(HunkRange(a, CountOf(an), c, CountOf(cn))) else None)
      && (HunkStart(line) == if c <= MAX_INT64 then Some(c) else None)
  {
    var x, y := RangeOf(a, an), RangeOf(c, cn);
    var line := "@@ -" + x + " +" + y + " @@" + rest;
    HeaderIsText(x, y, rest);
    RangeIsText(a, an);
    RangeIsText(c, cn);
    ParserReads(line, a, an, c, cn, rest);
    EngineReads(line, x, c, cn, rest);
  }

  lemma HeaderIsText(x: string, y: string, rest: string)
    ensures "@@ -" + x + " +" + y + " @@" + rest == A.HeaderText(x, y, rest)
  {
  }

  lemma Signed(sign: string, x: string)
    requires |sign| == 1
    ensures HasPrefix(sign + x, sign) && (sign + x)[1..] == x
  {
  }

  lemma ParserReads(line: string, a: nat, an: Option<nat>, c: nat, cn: Option<nat>, rest: string)
    requires A.RangeText(RangeOf(a, an)) && A.RangeText(RangeOf(c, cn))
    requires line == A.HeaderText(RangeOf(a, an), RangeOf(c, cn), rest)
    ensures ParseHunkHeader(line) == if Fits(a, an) && Fits(c, cn)
      then Some(HunkRange(a, CountOf(an), c, CountOf(cn))) else None
  {
    var x, y := RangeOf(a, an), RangeOf(c, cn);
    RangeReads(a, an);
    RangeReads(c, cn);
    assert HasPrefix(line, "@@");
    A.ParserReadsSecondRange(x, y, rest);
    Signed("-", x);
    Signed("+", y);
    hide RangeOf, ParseRange, Fields, Index, TrimSpace, A.HeaderText, HasPrefix;
    HeaderOfFields(line, x, y);
  }

  lemma HeaderOfFields(line: string, x: string, y: string)
    requires HasPrefix(line, "@@") && Index(line[2..], "@@").Some?
    requires Fields(TrimSpace(line[2..2 + Index(line[2..], "@@").value])) == ["-" + x, "+" + y]
    ensures ParseHunkHeader(line) ==
      match (ParseRange(x), ParseRange(y))
      case (Some(a), Some(b)) => Some(HunkRange(a.0, a.1, b.0, b.1))
      case _ => None
  {
    Signed("-", x);
    Signed("+", y);
    hide ParseRange, Fields, Index, TrimSpace;
  }

  /** The parser reads no header whose ranges lack their signs. */
  lemma HeaderNeedsSigns(p: string, q: string, rest: string)
    requires A.RangeText(p) && A.RangeText(q)
    ensures var line := "@@ " + p + (" " + (q + (" @@" + rest)));
      ParseHunkHeader(line).Some? ==> p[0] == '-' && q[0] == '+'
  {
    var line := "@@ " + p + (" " + (q + (" @@" + rest)));
    A.ParserReadsRanges(p, q, rest);
    hide Fields, Index, TrimSpace, ParseRange;
    assert HasPrefix(p, "-") ==> p[0] == '-';
    assert HasPrefix(q, "+") ==> q[0] == '+';
  }

  lemma EngineReads(line: string, x: string, c: nat, cn: Option<nat>, rest: string)
    requires A.RangeText(x) && A.RangeText(RangeOf(c, cn)) && line == A.HeaderText(x, RangeOf(c, cn), rest)
    ensures HunkStart(line) == if c <= MAX_INT64 then Some(c) else None
  {
    var y := RangeOf(c, cn);
    A.EngineReadsThirdField(x, y, rest);
    RangeCut(c, cn);
    AtoiItoa(c);
    hide RangeOf, Fields, Atoi, Itoa, Cut, A.HeaderText;
    assert TrimPrefix("+" + y, "+") == y;
  }

  // ----- Hunk bodies -----

  /** A line of the new side: kept or added. */
  predicate NewSide(l: Line) {
    l == "" || (l[0] != '-' && l[0] != '\\')
  }

  /** How many of the first `n` lines are on the new side. */
  function NewSideBefore(lines: seq<Line>, n: nat): nat
    requires n <= |lines|
  {
    |set i | 0 <= i < n && NewSide(lines[i])|
  }

  lemma NewSideNext(lines: seq<Line>, n: nat)
    requires n < |lines|
    ensures NewSideBefore(lines, n + 1) == NewSideBefore(lines, n) + if NewSide(lines[n]) then 1 else 0
  {
    var before := set i | 0 <= i < n && NewSide(lines[i]);
    assert (set i | 0 <= i < n + 1 && NewSide(lines[i])) == before + if NewSide(lines[n]) then {n} else {};
  }

  lemma NewSideOfFront(lines: seq<Line>, n: nat, j: nat)
    requires j <= n <= |lines|
    ensures NewSideBefore(lines[..n], j) == NewSideBefore(lines, j)
  {
    assert (set i | 0 <= i < j && NewSide(lines[..n][i])) == (set i | 0 <= i < j && NewSide(lines[i]));
  }

  /** Line `j` of the body starts with '+' and has number `l`: as many lines of the new side come before
      it as `l` is past `start`. */
  predicate AddsAt(lines: seq<Line>, start: int, j: nat, l: int) {
    j < |lines| && lines[j] != "" && lines[j][0] == '+' && l - start == NewSideBefore(lines, j)
  }

  lemma {:induction false} BodyAdds(start: int, lines: seq<Line>)
    ensures forall l :: l in R.BodyLines(start, lines).0 <==> exists j: nat :: AddsAt(lines, start, j, l)
    ensures R.BodyLines(start, lines).1 == start + NewSideBefore(lines, |lines|)
  {
    if lines == [] {
    } else {
      var n := |lines| - 1;
      var front := lines[..n];
      BodyAdds(start, front);
      NewSideOfFront(lines, n, n);
      NewSideNext(lines, n);
      assert front + [lines[n]] == lines;
      forall j: nat, l | j < n
        ensures AddsAt(front, start, j, l) <==> AddsAt(lines, start, j, l)
      {
        NewSideOfFront(lines, n, j);
      }
      hide NewSideBefore;
      forall l
        ensures l in R.BodyLines(start, lines).0 <==> exists j: nat :: AddsAt(lines, start, j, l)
      {
        if l in R.BodyLines(start, front).0 {
          var j: nat :| AddsAt(front, start, j, l);
          assert AddsAt(lines, start, j, l);
        } else if j: nat :| AddsAt(lines, start, j, l) {
          assert j == n;
        }
        assert AddsAt(lines, start, n, l) <==> lines[n] != "" && lines[n][0] == '+' && l == R.BodyLines(start, front).1;
      }
    }
  }

  // ----- The parser's answer -----

  /** The added lines of every parsed hunk, by the number in its header and the lines of its body. */
  lemma ParsedAdds(raw: string, options: ParseOptions, f: FileDiff, h: Hunk, a: nat, an: Option<nat>,
      c: nat, cn: Option<nat>, rest: string)
    requires f in ParseSpec(raw, options).files && h in f.hunks
    requires h.header == "@@ -" + RangeOf(a, an) + " +" + RangeOf(c, cn) + " @@" + rest
    ensures forall l :: l in h.addedLines <==> exists j: nat :: AddsAt(h.lines, c, j, l)
    ensures h.newStart == c <= MAX_INT64 && h.newCount == CountOf(cn)
    ensures h.oldStart == a <= MAX_INT64 && h.oldCount == CountOf(an)
  {
    R.ParsedHunksWell(raw, options);
    HeaderReads(a, an, c, cn, rest);
    BodyAdds(h.newStart, h.lines);
    hide ParseSpec, ParseHunkHeader, RangeOf, AddsAt, R.BodyLines;
    assert R.WellHunk(h);
  }

  /** A line of the map is an added line of a hunk of a file with that path. */
  lemma {:induction false} HunksMerged(m: LineMap, path: string, hunks: seq<Hunk>)
    ensures forall p, l :: l in LinesOf(A.MergeHunks(m, path, hunks), p) <==>
      l in LinesOf(m, p) || (p == path && exists h :: h in hunks && l in h.addedLines)
  {
    if hunks != [] {
      var front, last := hunks[..|hunks| - 1], hunks[|hunks| - 1];
      HunksMerged(m, path, front);
      assert forall h :: h in hunks <==> h in front || h == last;
    }
  }

  ghost predicate AddedIn(files: seq<FileDiff>, p: string, l: int) {
    exists f, h :: f in files && f.path == p && h in f.hunks && l in h.addedLines
  }

  lemma {:induction false} FilesMerged(files: seq<FileDiff>)
    ensures forall p, l :: l in LinesOf(A.MergeFiles(files), p) <==> AddedIn(files, p, l)
  {
    if files != [] {
      var front, last := files[..|files| - 1], files[|files| - 1];
      FilesMerged(front);
      HunksMerged(A.MergeFiles(front), last.path, last.hunks);
      assert forall f :: f in files <==> f in front || f == last;
    }
  }

  // ----- The engine's answer -----

  predicate NamesFile(line: string) {
    HasPrefix(line, "+++ b/")
  }

  predicate OpensHunk(line: string) {
    HasPrefix(line, "@@") && HunkStart(line).Some?
  }

  /** A line after which the engine counts on. */
  predicate Counts(line: string) {
    line != "" && line[0] != '-' && line[0] != '\\' && !HasPrefix(line, "@@")
  }

  /** The last line before `n` that names a file names `p`. */
  ghost predicate Under(lines: seq<string>, n: nat, p: string)
    requires n <= |lines|
  {
    exists q :: 0 <= q < n && lines[q] == "+++ b/" + p && forall i :: q < i < n ==> !NamesFile(lines[i])
  }

  /** The last line before `n` that names a file or opens a hunk is `g`, which opens one at `c`. */
  ghost predicate Inside(lines: seq<string>, n: nat, g: int, c: int)
    requires n <= |lines|
  {
    && 0 <= g < n && HasPrefix(lines[g], "@@") && HunkStart(lines[g]) == Some(c)
    && forall i :: g < i < n ==> !NamesFile(lines[i]) && !OpensHunk(lines[i])
  }

  function CountedAfter(lines: seq<string>, g: int, n: nat): nat
    requires 0 <= g < n <= |lines|
  {
    |set i | 0 <= i < |lines| && Counts(lines[i]) && g < i < n|
  }

  /** Line `k` of the text adds line `l` of file `p`: it starts with '+', and as many lines are counted
      between the hunk header and it as `l` is past the start in that header. */
  ghost predicate TextAdds(lines: seq<string>, k: nat, p: string, l: int) {
    && k < |lines| && lines[k] != "" && lines[k][0] == '+' && !NamesFile(lines[k])
    && p != "" && Under(lines, k, p)
    && exists g, c :: Inside(lines, k, g, c) && l - c == CountedAfter(lines, g, k)
  }

  lemma UnderNext(lines: seq<string>, n: nat, p: string)
    requires n < |lines|
    ensures Under(lines, n + 1, p) <==>
      if NamesFile(lines[n]) then lines[n] == "+++ b/" + p else Under(lines, n, p)
  {
    if NamesFile(lines[n]) {
      if lines[n] == "+++ b/" + p {
        assert Under(lines, n + 1, p);
      }
    } else if Under(lines, n, p) {
      var q :| 0 <= q < n && lines[q] == "+++ b/" + p && forall i :: q < i < n ==> !NamesFile(lines[i]);
      assert lines[q] == "+++ b/" + p && forall i :: q < i < n + 1 ==> !NamesFile(lines[i]);
    } else if Under(lines, n + 1, p) {
      var q :| 0 <= q < n + 1 && lines[q] == "+++ b/" + p && forall i :: q < i < n + 1 ==> !NamesFile(lines[i]);
      assert NamesFile(lines[q]);
    }
  }

  lemma CountedNone(lines: seq<string>, g: nat)
    requires g < |lines|
    ensures CountedAfter(lines, g, g + 1) == 0
  {
    var none := set i | 0 <= i < |lines| && Counts(lines[i]) && g < i < g + 1;
    forall i | i in none
      ensures false
    {
    }
  }

  lemma CountedNext(lines: seq<string>, g: int, n: nat)
    requires 0 <= g < n < |lines|
    ensures CountedAfter(lines, g, n + 1) == CountedAfter(lines, g, n) + if Counts(lines[n]) then 1 else 0
  {
    var before := set i | 0 <= i < |lines| && Counts(lines[i]) && g < i < n;
    assert (set i | 0 <= i < |lines| && Counts(lines[i]) && g < i < n + 1)
        == before + if Counts(lines[n]) then {n} else {};
  }

  ghost predicate HoldsPath(lines: seq<string>, n: nat, st: ScanState)
    requires n <= |lines|
  {
    forall p :: p != "" ==> (st.path == p <==> Under(lines, n, p))
  }

  ghost predicate HoldsHunk(lines: seq<string>, n: nat, st: ScanState)
    requires n <= |lines|
  {
    && (st.inHunk <==> exists g, c :: Inside(lines, n, g, c))
    && (st.path != "" ==> forall g, c :: Inside(lines, n, g, c) ==> st.line == c + CountedAfter(lines, g, n))
  }

  /** What the engine holds after `n` lines. */
  ghost predicate Holds(lines: seq<string>, n: nat, st: ScanState)
    requires n <= |lines|
  {
    && HoldsPath(lines, n, st) && HoldsHunk(lines, n, st)
    && (forall p, l :: l in LinesOf(st.lines, p) <==> exists k: nat :: k < n && TextAdds(lines, k, p, l))
  }

  lemma PathNext(lines: seq<string>, n: nat, st: ScanState)
    requires n < |lines| && HoldsPath(lines, n, st)
    ensures HoldsPath(lines, n + 1, ScanLine(st, lines[n]))
  {
    var line, m := lines[n], n + 1;
    forall p | p != ""
      ensures ScanLine(st, line).path == p <==> Under(lines, m, p)
    {
      UnderNext(lines, n, p);
      if NamesFile(line) {
        assert line == "+++ b/" + line[6..];
        assert ("+++ b/" + p)[6..] == p;
      }
      hide Under, HunkStart;
    }
  }

  lemma HunkNext(lines: seq<string>, n: nat, st: ScanState)
    requires n < |lines| && HoldsHunk(lines, n, st)
    ensures HoldsHunk(lines, n + 1, ScanLine(st, lines[n]))
  {
    hide HunkStart, AddLine;
    var line, m := lines[n], n + 1;
    assert NamesFile(line) ==> line[0] == '+';
    assert HasPrefix(line, "@@") ==> line[0] == '@';
    forall g, c
      ensures Inside(lines, m, g, c) <==>
        if NamesFile(line) then false
        else if OpensHunk(line) then g == n && HunkStart(line) == Some(c) else Inside(lines, n, g, c)
    {
    }
    if OpensHunk(line) {
      assert Inside(lines, m, n, HunkStart(line).value);
    }
    forall g, c | Inside(lines, m, g, c)
      ensures g < n ==> CountedAfter(lines, g, m) == CountedAfter(lines, g, n) + if Counts(line) then 1 else 0
      ensures g == n ==> CountedAfter(lines, g, m) == 0
    {
      if g < n {
        CountedNext(lines, g, n);
      } else {
        CountedNone(lines, n);
      }
    }
    hide Inside, CountedAfter;
  }

  lemma LinesNext(lines: seq<string>, n: nat, st: ScanState, p: string, l: int)
    requires n < |lines| && HoldsPath(lines, n, st) && HoldsHunk(lines, n, st)
    ensures l in LinesOf(ScanLine(st, lines[n]).lines, p) <==> l in LinesOf(st.lines, p) || TextAdds(lines, n, p, l)
  {
    hide HunkStart, Inside, Under, CountedAfter;
    var line := lines[n];
    assert HasPrefix(line, "@@") ==> line[0] == '@';
  }

  lemma HoldsNext(lines: seq<string>, n: nat, st: ScanState)
    requires n < |lines| && Holds(lines, n, st)
    ensures Holds(lines, n + 1, ScanLine(st, lines[n]))
  {
    var st' := ScanLine(st, lines[n]);
    PathNext(lines, n, st);
    HunkNext(lines, n, st);
    hide ScanLine, TextAdds, HoldsPath, HoldsHunk;
    forall p, l
      ensures l in LinesOf(st'.lines, p) <==> exists k: nat :: k < n + 1 && TextAdds(lines, k, p, l)
    {
      LinesNext(lines, n, st, p, l);
    }
  }

  lemma {:induction false} ScanHolds(lines: seq<string>, n: nat)
    requires n <= |lines|
    ensures Holds(lines, n, ScanLines(SCAN_START, lines[..n]))
  {
    if n > 0 {
      ScanHolds(lines, n - 1);
      HoldsNext(lines, n - 1, ScanLines(SCAN_START, lines[..n - 1]));
      assert lines[..n][..n - 1] == lines[..n - 1];
    }
  }

  ghost predicate SomeAdds(lines: seq<string>, p: string, l: int) {
    exists k: nat :: TextAdds(lines, k, p, l)
  }

  lemma ScanAdds(lines: seq<string>, p: string, l: int)
    ensures l in LinesOf(ScanLines(SCAN_START, lines).lines, p) <==> SomeAdds(lines, p, l)
  {
    ScanHolds(lines, |lines|);
    assert lines[..|lines|] == lines;
    hide Inside, Under, HoldsPath, HoldsHunk, ScanLines, LinesOf;
    var st := ScanLines(SCAN_START, lines);
    assert l in LinesOf(st.lines, p) <==> exists k: nat :: k < |lines| && TextAdds(lines, k, p, l);
    if k: nat :| TextAdds(lines, k, p, l) {
      assert k < |lines|;
    }
  }

  /** On every text, the engine reports a line of a file exactly if some line of the text adds it. */
  lemma EngineAdds(raw: string, p: string, l: int)
    ensures l in LinesOf(ChangedLinesOf(raw), p) <==> SomeAdds(Split(raw), p, l)
  {
    ScanAdds(Split(raw), p, l);
    hide SomeAdds, ScanLines, LinesOf;
  }

  /** On a well-formed diff within the caps that deletes no file, a line of a file is added in the parser's
      inventory exactly if some line of the text adds it. */
  lemma ParserAdds(raw: string, options: ParseOptions, p: string, l: int)
    requires A.WellFormed(raw) && !ParseSpec(raw, options).truncated && A.DELETED !in Split(raw)
    ensures AddedIn(ParseSpec(raw, options).files, p, l) <==> SomeAdds(Split(raw), p, l)
  {
    hide ParseSpec, ChangedLinesOf, A.WellFormed, SomeAdds;
    A.ReadersAgree(raw, options);
    FilesMerged(ParseSpec(raw, options).files);
    EngineAdds(raw, p, l);
  }
}
