/** pkg/changelog/changelog.go: inserting an entry into the Unreleased section of a changelog. */
module Changelog {
  import opened Text
  import opened TextLaws

  datatype Error = InvalidCategory | InvalidEntry | NoUnreleased

  datatype Result = Updated(text: string) | Refused(error: Error)

  predicate ValidCategory(c: string) {
    c in {"Added", "Changed", "Deprecated", "Removed", "Fixed", "Security"}
  }

  /** One line of text that is neither a heading nor a list item; white space around it is dropped first. */
  predicate ValidEntry(entry: string) {
    entry != "" && '\r' !in entry && '\n' !in entry && !HasPrefix(entry, "#") && !HasPrefix(entry, "-")
  }

  const UNRELEASED := "## [Unreleased]"

  function Heading(category: string): string {
    "### " + category
  }

  // ----- Places in a changelog -----

  datatype Kind = Titled(title: string) | Section | Filled

  /** What a scan stops at: a line with this title, the next section, or a line that is not blank. */
  predicate Stops(k: Kind, line: string) {
    match k
    case Titled(title) => TrimSpace(line) == title
    case Section => HasPrefix(line, "## ")
    case Filled => TrimSpace(line) != ""
  }

  /** The first line from `from` on, before `end`, that a scan stops at; `end` if there is none. */
  function Find(lines: seq<string>, k: Kind, from: nat, end: nat): (i: nat)
    requires from <= end <= |lines|
    ensures from <= i <= end
    decreases end - from
  {
    if from == end then from else if Stops(k, lines[from]) then from else Find(lines, k, from + 1, end)
  }

  lemma {:induction false} Found(lines: seq<string>, k: Kind, from: nat, end: nat)
    requires from <= end <= |lines|
    ensures var i := Find(lines, k, from, end);
      (i < end ==> Stops(k, lines[i])) && forall j :: from <= j < i ==> !Stops(k, lines[j])
    decreases end - from
  {
    hide Stops;
    if from < end && !Stops(k, lines[from]) {
      Found(lines, k, from + 1, end);
    }
  }

  lemma FindIs(lines: seq<string>, k: Kind, from: nat, end: nat, i: nat)
    requires from <= i <= end <= |lines|
    requires (i < end ==> Stops(k, lines[i])) && forall j :: from <= j < i ==> !Stops(k, lines[j])
    ensures Find(lines, k, from, end) == i
  {
    hide Stops, Find;
    Found(lines, k, from, end);
  }

  function UnreleasedAt(lines: seq<string>): nat {
    Find(lines, Titled(UNRELEASED), 0, |lines|)
  }

  function SectionEnd(lines: seq<string>, unreleased: nat): nat
    requires unreleased < |lines|
  {
    Find(lines, Section, unreleased + 1, |lines|)
  }

  function CategoryAt(lines: seq<string>, category: string): nat
    requires UnreleasedAt(lines) < |lines|
  {
    var u := UnreleasedAt(lines);
    Find(lines, Titled(Heading(category)), u + 1, SectionEnd(lines, u))
  }

  predicate HasCategory(lines: seq<string>, category: string)
    requires UnreleasedAt(lines) < |lines|
  {
    CategoryAt(lines, category) < SectionEnd(lines, UnreleasedAt(lines))
  }

  /** Where the new lines go. */
  function Place(lines: seq<string>, category: string): (at: nat)
    requires UnreleasedAt(lines) < |lines|
    ensures UnreleasedAt(lines) < at <= SectionEnd(lines, UnreleasedAt(lines))
  {
    var u := UnreleasedAt(lines);
    if HasCategory(lines, category) then Find(lines, Filled, CategoryAt(lines, category) + 1, SectionEnd(lines, u))
      else u + 1
  }

  /** The new lines. */
  function Block(lines: seq<string>, category: string, entry: string): seq<string>
    requires UnreleasedAt(lines) < |lines|
  {
    if HasCategory(lines, category) then ["- " + entry] else ["", Heading(category), "", "- " + entry]
  }

  function Insert(lines: seq<string>, at: nat, block: seq<string>): seq<string>
    requires at <= |lines|
  {
    lines[..at] + block + lines[at..]
  }

  function Inserted(lines: seq<string>, category: string, entry: string): seq<string>
    requires UnreleasedAt(lines) < |lines|
  {
    Insert(lines, Place(lines, category), Block(lines, category, entry))
  }

  // ----- Lines of an entry -----

  lemma TrimKeepsFirst(s: string)
    requires s != "" && !IsSpace(s[0])
    ensures TrimSpace(s) != "" && TrimSpace(s)[0] == s[0]
  {
    TrimRightIs(s);
  }

  lemma TrimNothing(s: string)
    requires s != "" && !IsSpace(s[0]) && !IsSpace(s[|s| - 1])
    ensures TrimSpace(s) == s
  {
  }

  lemma HeadingIs(category: string)
    requires ValidCategory(category)
    ensures TrimSpace(Heading(category)) == Heading(category) && '\n' !in Heading(category)
    ensures !HasPrefix(Heading(category), "## ") && Heading(category) != "" && Heading(category) != UNRELEASED
  {
    assert Heading(category)[2] == '#' && Heading(category)[|Heading(category)| - 1] == category[|category| - 1];
    hide TrimSpace;
    TrimNothing(Heading(category));
  }

  /** An entry line is filled, and is neither a section nor a title. */
  lemma EntryLine(e: string, title: string)
    requires HasPrefix(title, "#")
    ensures !Stops(Section, "- " + e) && !Stops(Titled(title), "- " + e) && Stops(Filled, "- " + e)
  {
    hide TrimSpace;
    TrimKeepsFirst("- " + e);
  }

  lemma BlankLine(title: string)
    requires title != ""
    ensures TrimSpace("") == "" && !Stops(Section, "") && !Stops(Titled(title), "") && !Stops(Filled, "")
  {
  }

  lemma InsertAt(lines: seq<string>, at: nat, block: seq<string>)
    requires at <= |lines|
    ensures var n := Insert(lines, at, block);
      && |n| == |lines| + |block|
      && (forall j :: 0 <= j < at ==> n[j] == lines[j])
      && (forall j :: 0 <= j < |block| ==> n[at + j] == block[j])
      && (forall j :: at + |block| <= j < |n| ==> n[j] == lines[j - |block|])
      && n[..at] + n[at + |block|..] == lines
  {
  }

  /** Lines inserted after a title neither move it nor, if no section begins with them, shorten its section. */
  lemma SectionGrows(lines: seq<string>, at: nat, block: seq<string>)
    requires UnreleasedAt(lines) < |lines| && UnreleasedAt(lines) < at <= SectionEnd(lines, UnreleasedAt(lines))
    requires forall j :: 0 <= j < |block| ==> !Stops(Section, block[j])
    ensures var n, u := Insert(lines, at, block), UnreleasedAt(lines);
      UnreleasedAt(n) == u && SectionEnd(n, u) == SectionEnd(lines, u) + |block|
  {
    hide Stops, Find;
    InsertAt(lines, at, block);
    Found(lines, Titled(UNRELEASED), 0, |lines|);
    Found(lines, Section, UnreleasedAt(lines) + 1, |lines|);
    var n, u, end := Insert(lines, at, block), UnreleasedAt(lines), SectionEnd(lines, UnreleasedAt(lines));
    hide Insert;
    FindIs(n, Titled(UNRELEASED), 0, |n|, u);
    forall j | u + 1 <= j < end + |block|
      ensures !Stops(Section, n[j])
    {
      if at <= j < at + |block| {
        assert n[at + (j - at)] == block[j - at];
      }
    }
    FindIs(n, Section, u + 1, |n|, end + |block|);
  }

  lemma BlockLines(lines: seq<string>, category: string, entry: string)
    requires UnreleasedAt(lines) < |lines| && ValidCategory(category)
    ensures var block := Block(lines, category, entry);
      && (forall j :: 0 <= j < |block| ==> !Stops(Section, block[j]))
      && block[|block| - 1] == "- " + entry
  {
    hide Find, CategoryAt, HasCategory, TrimSpace;
    HeadingIs(category);
    EntryLine(entry, UNRELEASED);
  }

  lemma TitleLine(category: string)
    requires ValidCategory(category)
    ensures Stops(Titled(Heading(category)), Heading(category)) && !Stops(Titled(Heading(category)), "")
  {
    hide TrimSpace;
    HeadingIs(category);
    BlankLine(Heading(category));
  }

  lemma TitleStays(lines: seq<string>, at: nat, block: seq<string>, category: string)
    requires UnreleasedAt(lines) < |lines| && HasCategory(lines, category)
    requires CategoryAt(lines, category) < at <= SectionEnd(lines, UnreleasedAt(lines))
    requires forall j :: 0 <= j < |block| ==> !Stops(Section, block[j])
    ensures var n := Insert(lines, at, block);
      UnreleasedAt(n) == UnreleasedAt(lines) && HasCategory(n, category)
        && CategoryAt(n, category) == CategoryAt(lines, category)
  {
    hide Stops, Heading, Find;
    var n, u := Insert(lines, at, block), UnreleasedAt(lines);
    InsertAt(lines, at, block);
    SectionGrows(lines, at, block);
    Found(lines, Titled(Heading(category)), u + 1, SectionEnd(lines, u));
    hide Insert, UnreleasedAt, SectionEnd;
    FindIs(n, Titled(Heading(category)), u + 1, SectionEnd(n, u), CategoryAt(lines, category));
  }

  lemma TitleAdded(lines: seq<string>, category: string, entry: string)
    requires UnreleasedAt(lines) < |lines| && ValidCategory(category) && !HasCategory(lines, category)
    ensures var n, u := Inserted(lines, category, entry), UnreleasedAt(lines);
      UnreleasedAt(n) == u && u + 2 < |n| && HasCategory(n, category) && CategoryAt(n, category) == u + 2
  {
    hide Stops, Heading, Find;
    var u, block := UnreleasedAt(lines), Block(lines, category, entry);
    var n := Inserted(lines, category, entry);
    BlockLines(lines, category, entry);
    InsertAt(lines, u + 1, block);
    SectionGrows(lines, u + 1, block);
    Found(lines, Titled(Heading(category)), u + 1, SectionEnd(lines, u));
    TitleLine(category);
    assert n[u + 1 + 0] == "" && n[u + 1 + 1] == Heading(category);
    hide Insert, UnreleasedAt, SectionEnd, Block;
    FindIs(n, Titled(Heading(category)), u + 1, SectionEnd(n, u), u + 2);
  }

  /** The heading of the category after an insertion. */
  lemma CategoryAfter(lines: seq<string>, category: string, entry: string)
    requires UnreleasedAt(lines) < |lines| && ValidCategory(category)
    ensures var n, u := Inserted(lines, category, entry), UnreleasedAt(lines);
      && UnreleasedAt(n) == u && u + 2 < |n| && HasCategory(n, category)
      && CategoryAt(n, category) == if HasCategory(lines, category) then CategoryAt(lines, category) else u + 2
  {
    hide Stops, Heading, IsSpace, TrimSpace, Find;
    if HasCategory(lines, category) {
      BlockLines(lines, category, entry);
      TitleStays(lines, Place(lines, category), Block(lines, category, entry), category);
    } else {
      TitleAdded(lines, category, entry);
    }
  }

  /** The entry stands in the Unreleased section, under the heading of its category, with only blank lines
      in between; a later insertion into the category goes right before it. */
  lemma EntryInSection(lines: seq<string>, category: string, entry: string)
    requires UnreleasedAt(lines) < |lines| && ValidCategory(category)
    ensures var n, u := Inserted(lines, category, entry), UnreleasedAt(lines);
      var at := Place(lines, category) + |Block(lines, category, entry)| - 1;
      && UnreleasedAt(n) == u && at < SectionEnd(n, u) <= |n| && n[at] == "- " + entry
      && HasCategory(n, category)
      && u < CategoryAt(n, category) < at
      && (forall j :: CategoryAt(n, category) < j < at ==> TrimSpace(n[j]) == "")
      && Place(n, category) == at
  {
    hide Heading, IsSpace, TrimSpace, Find;
    CategoryAfter(lines, category, entry);
    var u, at, block := UnreleasedAt(lines), Place(lines, category), Block(lines, category, entry);
    var n := Inserted(lines, category, entry);
    BlockLines(lines, category, entry);
    InsertAt(lines, at, block);
    SectionGrows(lines, at, block);
    EntryLine(entry, UNRELEASED);
    var h, last := CategoryAt(n, category), at + |block| - 1;
    assert n[last] == block[|block| - 1];
    BlankBetween(lines, category, entry);
    hide Insert, CategoryAt, HasCategory, UnreleasedAt, Block, Place, Inserted;
    FindIs(n, Filled, h + 1, SectionEnd(n, u), last);
  }

  lemma BlankBetween(lines: seq<string>, category: string, entry: string)
    requires UnreleasedAt(lines) < |lines| && ValidCategory(category)
    ensures var n := Inserted(lines, category, entry);
      var last := Place(lines, category) + |Block(lines, category, entry)| - 1;
      && UnreleasedAt(n) < |n| && last < |n| && CategoryAt(n, category) < last
      && forall j :: CategoryAt(n, category) < j < last ==> !Stops(Filled, n[j])
  {
    hide Heading, IsSpace, TrimSpace, Find;
    CategoryAfter(lines, category, entry);
    var u, at, block := UnreleasedAt(lines), Place(lines, category), Block(lines, category, entry);
    var n := Inserted(lines, category, entry);
    InsertAt(lines, at, block);
    hide Insert;
    BlankLine("#");
    if HasCategory(lines, category) {
      Found(lines, Filled, CategoryAt(lines, category) + 1, SectionEnd(lines, u));
    } else {
      assert n[at + 2] == block[2] == "";
    }
  }

  /** A second insertion into the same category adds no heading and puts the newer entry first. */
  lemma NewestFirst(lines: seq<string>, category: string, first: string, second: string)
    requires UnreleasedAt(lines) < |lines| && ValidCategory(category)
    ensures var once := Inserted(lines, category, first);
      var at := Place(lines, category) + |Block(lines, category, first)| - 1;
      && UnreleasedAt(once) < |once| && at < |once|
      && var twice := Inserted(once, category, second);
      && twice == Insert(once, at, ["- " + second])
      && twice[at] == "- " + second && twice[at + 1] == "- " + first
  {
    EntryInSection(lines, category, first);
    hide Place, UnreleasedAt, HasCategory, CategoryAt, SectionEnd;
    var once := Inserted(lines, category, first);
    var at := Place(lines, category) + |Block(lines, category, first)| - 1;
    InsertAt(once, at, ["- " + second]);
    assert once[at] == Insert(once, at, ["- " + second])[at + 1];
  }

  lemma BlockHasNoNewline(lines: seq<string>, category: string, entry: string)
    requires UnreleasedAt(lines) < |lines| && ValidCategory(category) && ValidEntry(entry)
    ensures forall i :: 0 <= i < |Block(lines, category, entry)| ==> '\n' !in Block(lines, category, entry)[i]
  {
    hide HasCategory, UnreleasedAt, TrimSpace;
    HeadingIs(category);
  }

  /** The lines of the result are the lines of the changelog with the block inserted; without the block they
      are the changelog again, exactly. */
  lemma RemovalRestores(content: string, category: string, entry: string)
    requires UnreleasedAt(Split(content)) < |Split(content)| && ValidCategory(category) && ValidEntry(entry)
    ensures var lines := Split(content);
      var at, n, text := Place(lines, category), |Block(lines, category, entry)|,
        Join(Inserted(lines, category, entry));
      && |Split(text)| == |lines| + n && at + n <= |Split(text)|
      && Split(text) == Inserted(lines, category, entry)
      && Join(Split(text)[..at] + Split(text)[at + n..]) == content
  {
    BlockHasNoNewline(Split(content), category, entry);
    hide Place, Block, UnreleasedAt, Split, ValidEntry;
    var lines := Split(content);
    var at, block := Place(lines, category), Block(lines, category, entry);
    InsertAt(lines, at, block);
    assert lines[..at] + block + lines[at..] == Inserted(lines, category, entry);
    var whole: seq<Line> := Inserted(lines, category, entry);
    SplitJoin(whole);
  }

  // ----- The code -----

  method InsertLines(lines: seq<string>, index: nat, values: seq<string>) returns (text: string)
    requires index <= |lines|
    ensures text == Join(Insert(lines, index, values))
  {
    var result: seq<string> := [];
    result := result + lines[..index];
    result := result + values;
    result := result + lines[index..];
    assert result == Insert(lines, index, values);
    text := Join(result);
  }

  /** An entry is accepted by its text between the white space around it: there is some, it starts with
      neither '#' nor '-', and it holds no line break. */
  lemma EntryAcceptedIff(before: string, text: string, after: string)
    requires Blank(before) && Blank(after) && Bare(text)
    ensures TrimSpace(before + text + after) == text
    ensures ValidEntry(TrimSpace(before + text + after)) <==>
      && text != "" && text[0] != '#' && text[0] != '-'
      && forall i :: 0 <= i < |text| ==> text[i] != '\n' && text[i] != '\r'
  {
    TrimSpaceIs(before, text, after);
    hide TrimSpace;
  }

  /** Inserts an entry at the front of its category in the Unreleased section, with a new heading if the
      category has none. */
  method InsertUnreleasedEntry(content: string, category: string, entry: string) returns (r: Result)
    ensures var lines, e := Split(content), TrimSpace(entry);
      r == if category !in {"Added", "Changed", "Deprecated", "Removed", "Fixed", "Security"}
           then Refused(InvalidCategory)
           else if !ValidEntry(e) then Refused(InvalidEntry)
           else if UnreleasedAt(lines) == |lines| then Refused(NoUnreleased)
           else Updated(Join(Inserted(lines, category, e)))
  {
    hide Find, Stops, Split, Join, TrimSpace, ValidEntry;
    if !ValidCategory(category) {
      return Refused(InvalidCategory);
    }
    var e := TrimSpace(entry);
    if !ValidEntry(e) {
      return Refused(InvalidEntry);
    }
    var lines := Split(content);
    var unreleased := FindLine(lines, Titled(UNRELEASED), 0, |lines|);
    if unreleased == |lines| {
      return Refused(NoUnreleased);
    }
    var sectionEnd := FindLine(lines, Section, unreleased + 1, |lines|);
    var heading := FindLine(lines, Titled(Heading(category)), unreleased + 1, sectionEnd);
    var text;
    if heading < sectionEnd {
      var insertAt := FindLine(lines, Filled, heading + 1, sectionEnd);
      text := InsertLines(lines, insertAt, ["- " + e]);
    } else {
      text := InsertLines(lines, unreleased + 1, ["", Heading(category), "", "- " + e]);
    }
    r := Updated(text);
  }

  /** The scans of InsertUnreleasedEntry. */
  method FindLine(lines: seq<string>, k: Kind, from: nat, end: nat) returns (i: nat)
    requires from <= end <= |lines|
    ensures from <= i <= end && i == Find(lines, k, from, end)
  {
    hide Stops, Find;
    i := from;
    while i < end
      invariant from <= i <= end && forall j :: from <= j < i ==> !Stops(k, lines[j])
    {
      if Stops(k, lines[i]) {
        FindIs(lines, k, from, end, i);
        return;
      }
      i := i + 1;
    }
    FindIs(lines, k, from, end, i);
  }
}
