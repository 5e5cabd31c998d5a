/** pkg/reviewer/engine.go: the review engine's own reader of added lines, and the inline suggestions
    it lets through. */
module Engine {
  import opened Text
  import opened TextLaws

  type LineMap = map<string, set<int>>

  function LinesOf(m: LineMap, path: string): set<int> {
    if path in m then m[path] else {}
  }

  function AddLine(m: LineMap, path: string, line: int): LineMap {
    m[path := LinesOf(m, path) + {line}]
  }

  /** The mutable locals of the scan. */
  datatype ScanState = ScanState(path: string, line: int, inHunk: bool, lines: LineMap)

  const SCAN_START := ScanState("", 0, false, map[])

  /** The new-side start of a hunk header, read from its third field. */
  function HunkStart(raw: string): Option<int> {
    var fields := Fields(raw);
    if |fields| < 3 then None else Atoi(Cut(TrimPrefix(fields[2], "+")).0)
  }

  function ScanLine(st: ScanState, raw: string): ScanState {
    if HasPrefix(raw, "+++ b/") then st.(path := raw[6..], inHunk := false)
    else if HasPrefix(raw, "@@") then
      match HunkStart(raw)
      case Some(start) => st.(line := start, inHunk := true)
      case None => st
    else if !st.inHunk || st.path == "" || raw == "" || raw[0] == '\\' || raw[0] == '-' then st
    else if raw[0] == '+' then st.(lines := AddLine(st.lines, st.path, st.line), line := st.line + 1)
    else st.(line := st.line + 1)
  }

  function ScanLines(st: ScanState, lines: seq<string>): ScanState {
    if lines == [] then st
    else ScanLine(ScanLines(st, lines[..|lines| - 1]), lines[|lines| - 1])
  }

  function ChangedLinesOf(raw: string): LineMap {
    ScanLines(SCAN_START, Split(raw)).lines
  }

  method ChangedPRLines(raw: string) returns (m: LineMap)
    ensures m == ChangedLinesOf(raw)
  {
    var lines := Split(raw);
    var st := SCAN_START;
    var i := 0;
    while i < |lines|
      invariant i <= |lines|
      invariant st == ScanLines(SCAN_START, lines[..i])
    {
      assert lines[..i + 1][..i] == lines[..i];
      st := ScanLine(st, lines[i]);
      i := i + 1;
    }
    assert lines[..i] == lines;
    m := st.lines;
  }

  datatype Finding = Finding(file: string, line: int, severity: string, title: string,
                             description: string, suggestedCode: string)

  datatype InlineSuggestion = InlineSuggestion(path: string, line: int, body: string)

  predicate Postable(m: LineMap, f: Finding) {
    && TrimSpace(f.suggestedCode) != ""
    && !Contains(TrimSpace(f.suggestedCode), "```")
    && f.line in LinesOf(m, f.file)
  }

  function SuggestionFor(f: Finding): InlineSuggestion {
    InlineSuggestion(f.file, f.line,
      "**[" + f.severity + "] " + f.title + "**\n\n" + f.description
      + "\n\n```suggestion\n" + TrimSpace(f.suggestedCode) + "\n```")
  }

  /** By the code without the white space around it: a finding may be posted if there is code, no fence stands
      in it, and the finding is on a line of the map; and the suggestion posts that code, in a fence. */
  lemma SuggestionIs(m: LineMap, f: Finding, before: string, code: string, after: string)
    requires f.suggestedCode == before + code + after && Blank(before) && Bare(code) && Blank(after)
    ensures Postable(m, f) <==> code != "" && !Carries(code, "```") && f.file in m && f.line in m[f.file]
    ensures SuggestionFor(f).path == f.file && SuggestionFor(f).line == f.line
    ensures SuggestionFor(f).body ==
      "**[" + f.severity + "] " + f.title + "**\n\n" + f.description + "\n\n```suggestion\n" + code + "\n```"
  {
    TrimSpaceIs(before, code, after);
    ContainsIff(code, "```");
    hide TrimSpace, Contains, Carries;
  }

  function SuggestionsFor(m: LineMap, findings: seq<Finding>): seq<InlineSuggestion> {
    if findings == [] then []
    else
      var last := findings[|findings| - 1];
      SuggestionsFor(m, findings[..|findings| - 1]) + if Postable(m, last) then [SuggestionFor(last)] else []
  }

  method BuildInlineSuggestions(raw: string, findings: seq<Finding>) returns (out: seq<InlineSuggestion>)
    ensures out == SuggestionsFor(ChangedLinesOf(raw), findings)
  {
    var changed := ChangedPRLines(raw);
    out := [];
    var i := 0;
    while i < |findings|
      invariant i <= |findings|
      invariant out == SuggestionsFor(changed, findings[..i])
    {
      assert findings[..i + 1][..i] == findings[..i];
      if Postable(changed, findings[i]) {
        out := out + [SuggestionFor(findings[i])];
      }
      i := i + 1;
    }
    assert findings[..i] == findings;
  }

  ghost predicate SuggestedBy(m: LineMap, findings: seq<Finding>, s: InlineSuggestion) {
    exists f :: f in findings && Postable(m, f) && s == SuggestionFor(f)
  }

  /** The suggestions are those of findings on lines of the map whose code holds no fence, and of no others. */
  lemma {:induction false} SuggestionsArePostable(m: LineMap, findings: seq<Finding>)
    ensures forall s :: s in SuggestionsFor(m, findings) <==> SuggestedBy(m, findings, s)
    ensures forall s :: s in SuggestionsFor(m, findings) ==> s.line in LinesOf(m, s.path)
  {
    hide Postable;
    if findings != [] {
      var front, last := findings[..|findings| - 1], findings[|findings| - 1];
      SuggestionsArePostable(m, front);
      forall s
        ensures SuggestedBy(m, findings, s) <==>
          SuggestedBy(m, front, s) || (Postable(m, last) && s == SuggestionFor(last))
      {
        assert findings == front + [last];
      }
    }
    PostableLine(m);
  }

  lemma PostableLine(m: LineMap)
    ensures forall f :: Postable(m, f) ==> SuggestionFor(f).line in LinesOf(m, SuggestionFor(f).path)
  {
  }
}
