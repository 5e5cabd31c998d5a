/** pkg/diff/diff.go, CoverageLedger, and pkg/reviewer/types.go, CoverageFromLedger. */
module Coverage {
  import opened Text
  import opened TextLaws
  import opened Diff

  const NOT_EXAMINED := "not examined"

  datatype LedgerEntry = LedgerEntry(hunkId: string, file: string, examined: bool, reason: string)

  function Skip(id: string, file: string, reason: string): LedgerEntry {
    LedgerEntry(id, file, false, reason)
  }

  // ----- What the ledger starts with -----

  function HunkEntries(f: FileDiff, hunks: seq<Hunk>): seq<LedgerEntry> {
    if hunks == [] then []
    else HunkEntries(f, hunks[..|hunks| - 1]) + [Skip(hunks[|hunks| - 1].id, f.path, NOT_EXAMINED)]
  }

  function FileEntries(f: FileDiff): seq<LedgerEntry> {
    if f.isBinary then [Skip(f.path + ":binary", f.path, "binary file")]
    else if f.isModeOnly then [Skip(f.path + ":mode-only", f.path, "mode change only")]
    else if f.hunks == [] then
      [Skip(f.path + ":empty", f.path,
            if f.isRename then "renamed from " + f.oldPath + " (no content changes)" else "no content changes")]
    else HunkEntries(f, f.hunks)
  }

  function FilesEntries(files: seq<FileDiff>): seq<LedgerEntry> {
    if files == [] then [] else FilesEntries(files[..|files| - 1]) + FileEntries(files[|files| - 1])
  }

  function OmissionEntry(om: Omission, index: nat): LedgerEntry {
    var id :=
      if om.hunkId != "" then om.hunkId
      else if om.file != "" then om.file + ":omission-" + Itoa(index + 1)
      else "omission-" + Itoa(index + 1);
    Skip(id, om.file, om.reason)
  }

  function OmissionEntries(oms: seq<Omission>): seq<LedgerEntry> {
    if oms == [] then []
    else OmissionEntries(oms[..|oms| - 1]) + [OmissionEntry(oms[|oms| - 1], |oms| - 1)]
  }

  function InitialEntries(inv: ChangeInventory): seq<LedgerEntry> {
    FilesEntries(inv.files) + OmissionEntries(inv.omissions)
  }

  /** What a new ledger says of a file without text or hunks, and of an omission. */
  lemma EntriesAre(f: FileDiff, om: Omission, index: nat)
    ensures f.isBinary ==> FileEntries(f) == [LedgerEntry(f.path + ":binary", f.path, false, "binary file")]
    ensures !f.isBinary && f.isModeOnly ==>
      FileEntries(f) == [LedgerEntry(f.path + ":mode-only", f.path, false, "mode change only")]
    ensures !f.isBinary && !f.isModeOnly && f.hunks == [] ==>
      && |FileEntries(f)| == 1
      && FileEntries(f)[0].hunkId == f.path + ":empty" && FileEntries(f)[0].file == f.path
      && FileEntries(f)[0].reason == if f.isRename then "renamed from " + f.oldPath + " (no content changes)"
                                     else "no content changes"
    ensures var e := OmissionEntry(om, index);
      && e.file == om.file && e.reason == om.reason && !e.examined
      && (om.hunkId != "" ==> e.hunkId == om.hunkId)
      && (om.hunkId == "" && om.file != "" ==> e.hunkId == om.file + ":omission-" + Itoa(index + 1))
      && (om.hunkId == "" && om.file == "" ==> e.hunkId == "omission-" + Itoa(index + 1))
  {
  }

  /** The entries of a file's hunks, one for each in order. */
  lemma {:induction false} HunkEntriesAre(f: FileDiff, hunks: seq<Hunk>)
    ensures |HunkEntries(f, hunks)| == |hunks|
    ensures forall i :: 0 <= i < |hunks| ==>
      HunkEntries(f, hunks)[i] == LedgerEntry(hunks[i].id, f.path, false, "not examined")
  {
    if hunks != [] {
      HunkEntriesAre(f, hunks[..|hunks| - 1]);
    }
  }

  /** The file part of an omission's ID. */
  function OmissionStem(om: Omission): string {
    if om.file != "" then om.file + ":omission" else "omission"
  }

  /** Two omissions that name no hunk never share an ID, so neither hides the other from the index. */
  lemma OmissionsApart(a: Omission, i: nat, b: Omission, j: nat)
    requires a.hunkId == "" && b.hunkId == "" && i != j
    ensures OmissionEntry(a, i).hunkId != OmissionEntry(b, j).hunkId
  {
    var s, t := OmissionStem(a), OmissionStem(b);
    assert OmissionEntry(a, i).hunkId == s + "-" + Itoa(i + 1);
    assert OmissionEntry(b, j).hunkId == t + "-" + Itoa(j + 1);
    hide Itoa;
    if s + "-" + Itoa(i + 1) == t + "-" + Itoa(j + 1) {
      ItoaApart(s, i + 1, t, j + 1, '-');
    }
  }

  // ----- Marking -----

  function Examine(e: LedgerEntry): LedgerEntry {
    e.(examined := true, reason := "")
  }

  /** Entries a file-wide mark may flip. */
  predicate Markable(e: LedgerEntry, file: string) {
    e.file == file && file != "" && !Contains(e.hunkId, "omission") && e.reason == NOT_EXAMINED
  }

  function MarkFile(entries: seq<LedgerEntry>, file: string): (r: seq<LedgerEntry>)
    ensures |r| == |entries|
  {
    seq(|entries|, i requires 0 <= i < |entries| =>
      if Markable(entries[i], file) then Examine(entries[i]) else entries[i])
  }

  function SkipFile(entries: seq<LedgerEntry>, file: string, reason: string): (r: seq<LedgerEntry>)
    ensures |r| == |entries|
  {
    seq(|entries|, i requires 0 <= i < |entries| =>
      if entries[i].file == file && file != "" then entries[i].(examined := false, reason := reason) else entries[i])
  }

  /** The entry an id stands for: the last one recorded under it. */
  ghost predicate Latest(entries: seq<LedgerEntry>, id: string, i: int) {
    0 <= i < |entries| && entries[i].hunkId == id && forall j :: i < j < |entries| ==> entries[j].hunkId != id
  }

  /** `byID` points at the last entry of every id. */
  ghost predicate IndexesIDs(entries: seq<LedgerEntry>, byID: map<string, nat>) {
    && (forall id :: id in byID ==> Latest(entries, id, byID[id]))
    && (forall i :: 0 <= i < |entries| ==> entries[i].hunkId in byID)
  }

  /** `byFile` lists the entries of every named file. */
  ghost predicate IndexesFiles(entries: seq<LedgerEntry>, byFile: map<string, seq<nat>>) {
    && (forall f :: f in byFile ==> f != "" && forall i :: i in byFile[f] ==> i < |entries| && entries[i].file == f)
    && (forall i :: 0 <= i < |entries| && entries[i].file != "" ==>
          entries[i].file in byFile && i in byFile[entries[i].file])
  }

  lemma IDIndexGrows(entries: seq<LedgerEntry>, byID: map<string, nat>, e: LedgerEntry)
    requires IndexesIDs(entries, byID)
    ensures IndexesIDs(entries + [e], byID[e.hunkId := |entries|])
  {
    var grown, index := entries + [e], byID[e.hunkId := |entries|];
    forall id | id in index
      ensures Latest(grown, id, index[id])
    {
      if id != e.hunkId {
        assert Latest(entries, id, byID[id]);
      }
    }
  }

  lemma FileIndexGrows(entries: seq<LedgerEntry>, byFile: map<string, seq<nat>>, e: LedgerEntry)
    requires IndexesFiles(entries, byFile)
    ensures var known := if e.file in byFile then byFile[e.file] else [];
      IndexesFiles(entries + [e], if e.file == "" then byFile else byFile[e.file := known + [|entries|]])
  {
    var known := if e.file in byFile then byFile[e.file] else [];
    var grown := entries + [e];
    var index := if e.file == "" then byFile else byFile[e.file := known + [|entries|]];
    assert e.file != "" ==> |entries| in index[e.file];
    forall i | 0 <= i < |entries| && entries[i].file != ""
      ensures grown[i].file in index && i in index[grown[i].file]
    {
      assert i in byFile[entries[i].file];
    }
  }

  /** `now` is `before` with `f` applied to the entries listed. */
  ghost predicate Changed(before: seq<LedgerEntry>, now: seq<LedgerEntry>, indexes: seq<nat>,
      f: LedgerEntry -> LedgerEntry) {
    && |now| == |before|
    && forall i :: 0 <= i < |before| ==> now[i] == if i in indexes then f(before[i]) else before[i]
  }

  lemma ChangeOneMore(before: seq<LedgerEntry>, now: seq<LedgerEntry>, done: seq<nat>, k: nat,
      f: LedgerEntry -> LedgerEntry)
    requires Changed(before, now, done, f) && k < |before|
    requires f(f(before[k])) == f(before[k])
    ensures Changed(before, now[k := f(now[k])], done + [k], f)
  {
    assert forall i: nat :: i in done + [k] <==> i in done || i == k;
  }

  lemma NothingChanged(before: seq<LedgerEntry>, f: LedgerEntry -> LedgerEntry)
    ensures Changed(before, before, [], f)
  {
  }

  /** One more entry of the file is looked at, and marked if it may be. */
  lemma MarkOneMore(before: seq<LedgerEntry>, now: seq<LedgerEntry>, done: seq<nat>, i: nat, file: string)
    requires |now| == |before| && Changed(before, now, done, MarkEntry(file))
    requires i < |before| && before[i].file == file && file != ""
    ensures var e := now[i];
      Changed(before, if !Contains(e.hunkId, "omission") && e.reason == NOT_EXAMINED then now[i := Examine(e)] else now,
              done + [i], MarkEntry(file))
  {
    ChangeOneMore(before, now, done, i, MarkEntry(file));
    MarkedSameFile(before, now, done, i, file);
    hide Contains, Changed;
    assert now[i := now[i]] == now;
  }

  lemma MarkedSameFile(before: seq<LedgerEntry>, now: seq<LedgerEntry>, done: seq<nat>, k: nat, file: string)
    requires Changed(before, now, done, MarkEntry(file)) && k < |before|
    ensures |now| == |before| && now[k].file == before[k].file
  {
  }

  lemma MarkFileByEntry(before: seq<LedgerEntry>, now: seq<LedgerEntry>, file: string)
    requires |now| == |before|
    requires forall i :: 0 <= i < |now| ==>
      now[i] == if before[i].file == file && file != "" then MarkEntry(file)(before[i]) else before[i]
    ensures now == MarkFile(before, file)
  {
    hide Contains;
  }

  lemma SkipFileByEntry(before: seq<LedgerEntry>, now: seq<LedgerEntry>, file: string, reason: string)
    requires |now| == |before|
    requires forall i :: 0 <= i < |now| ==>
      now[i] == if before[i].file == file && file != "" then SkipEntry(reason)(before[i]) else before[i]
    ensures now == SkipFile(before, file, reason)
  {
  }

  /** Marks change neither ids nor files, so the indexes stay right. */
  lemma MarksKeepIndexes(before: seq<LedgerEntry>, now: seq<LedgerEntry>, byID: map<string, nat>,
      byFile: map<string, seq<nat>>)
    requires IndexesIDs(before, byID) && IndexesFiles(before, byFile)
    requires |now| == |before|
    requires forall i :: 0 <= i < |now| ==> now[i].hunkId == before[i].hunkId && now[i].file == before[i].file
    ensures IndexesIDs(now, byID) && IndexesFiles(now, byFile)
  {
    forall id | id in byID
      ensures Latest(now, id, byID[id])
    {
      assert Latest(before, id, byID[id]);
    }
  }

  function MarkEntry(file: string): LedgerEntry -> LedgerEntry {
    (e: LedgerEntry) => if Markable(e, file) then Examine(e) else e
  }

  function SkipEntry(reason: string): LedgerEntry -> LedgerEntry {
    (e: LedgerEntry) => e.(examined := false, reason := reason)
  }

  /** Going through the entries listed for a file reaches every entry of that file. */
  lemma IndexReachesFile(before: seq<LedgerEntry>, now: seq<LedgerEntry>, byID: map<string, nat>,
                         byFile: map<string, seq<nat>>, file: string, f: LedgerEntry -> LedgerEntry)
    requires IndexesIDs(before, byID) && IndexesFiles(before, byFile)
    requires Changed(before, now, if file in byFile then byFile[file] else [], f)
    requires forall e :: f(e).hunkId == e.hunkId && f(e).file == e.file
    ensures IndexesIDs(now, byID) && IndexesFiles(now, byFile)
    ensures forall i :: 0 <= i < |now| ==>
      now[i] == if before[i].file == file && file != "" then f(before[i]) else before[i]
  {
    hide IndexesIDs;
    forall i | 0 <= i < |now|
      ensures now[i] == if before[i].file == file && file != "" then f(before[i]) else before[i]
    {
      if before[i].file == file && file != "" {
        assert i in byFile[file];
      }
    }
    MarksKeepIndexes(before, now, byID, byFile);
  }

  lemma FileMarked(before: seq<LedgerEntry>, now: seq<LedgerEntry>, byID: map<string, nat>,
                  byFile: map<string, seq<nat>>, file: string)
    requires IndexesIDs(before, byID) && IndexesFiles(before, byFile)
    requires Changed(before, now, if file in byFile then byFile[file] else [], MarkEntry(file))
    ensures IndexesIDs(now, byID) && IndexesFiles(now, byFile) && now == MarkFile(before, file)
  {
    assert forall e :: MarkEntry(file)(e).hunkId == e.hunkId && MarkEntry(file)(e).file == e.file;
    hide IndexesIDs, IndexesFiles, Changed, MarkEntry;
    IndexReachesFile(before, now, byID, byFile, file, MarkEntry(file));
    MarkFileByEntry(before, now, file);
  }

  lemma FileSkipped(before: seq<LedgerEntry>, now: seq<LedgerEntry>, byID: map<string, nat>,
                   byFile: map<string, seq<nat>>, file: string, reason: string)
    requires IndexesIDs(before, byID) && IndexesFiles(before, byFile)
    requires Changed(before, now, if file in byFile then byFile[file] else [], SkipEntry(reason))
    ensures IndexesIDs(now, byID) && IndexesFiles(now, byFile) && now == SkipFile(before, file, reason)
  {
    assert forall e :: SkipEntry(reason)(e).hunkId == e.hunkId && SkipEntry(reason)(e).file == e.file;
    hide IndexesIDs, IndexesFiles, Changed, SkipEntry;
    IndexReachesFile(before, now, byID, byFile, file, SkipEntry(reason));
    SkipFileByEntry(before, now, file, reason);
  }

  class CoverageLedger {
    var entries: seq<LedgerEntry>
    var byID: map<string, nat>
    var byFile: map<string, seq<nat>>

    /** The two indexes point at the entries they are named after. */
    ghost predicate Valid()
      reads this
    {
      IndexesIDs(entries, byID) && IndexesFiles(entries, byFile)
    }

    constructor (inv: Option<ChangeInventory>)
      ensures Valid()
      ensures entries == if inv.Some? then InitialEntries(inv.value) else []
    {
      entries, byID, byFile := [], map[], map[];
      new;
      if inv.Some? {
        AddFiles(inv.value.files);
        AddOmissions(inv.value.omissions);
        assert [] + FilesEntries(inv.value.files) == FilesEntries(inv.value.files);
      }
    }

    method AddFiles(files: seq<FileDiff>)
      requires Valid()
      modifies this
      ensures Valid() && entries == old(entries) + FilesEntries(files)
    {
      hide IndexesIDs, IndexesFiles, FileEntries;
      for i := 0 to |files|
        invariant Valid() && entries == old(entries) + FilesEntries(files[..i])
      {
        assert files[..i + 1][..i] == files[..i];
        AddFile(files[i]);
      }
      assert files[..|files|] == files;
    }

    method AddOmissions(oms: seq<Omission>)
      requires Valid()
      modifies this
      ensures Valid() && entries == old(entries) + OmissionEntries(oms)
    {
      hide IndexesIDs, IndexesFiles, OmissionEntry;
      for i := 0 to |oms|
        invariant Valid() && entries == old(entries) + OmissionEntries(oms[..i])
      {
        assert oms[..i + 1][..i] == oms[..i];
        AddEntry(OmissionEntry(oms[i], i));
      }
      assert oms[..|oms|] == oms;
    }

    method AddEntry(e: LedgerEntry)
      requires Valid()
      modifies this
      ensures Valid() && entries == old(entries) + [e]
    {
      hide IndexesIDs, IndexesFiles;
      IDIndexGrows(entries, byID, e);
      FileIndexGrows(entries, byFile, e);
      var n := |entries|;
      entries := entries + [e];
      byID := byID[e.hunkId := n];
      if e.file != "" {
        byFile := byFile[e.file := (if e.file in byFile then byFile[e.file] else []) + [n]];
      }
    }

    method AddFile(f: FileDiff)
      requires Valid()
      modifies this
      ensures Valid() && entries == old(entries) + FileEntries(f)
    {
      if f.isBinary || f.isModeOnly || f.hunks == [] {
        AddEntry(FileEntries(f)[0]);
      } else {
        for j := 0 to |f.hunks|
          invariant Valid() && entries == old(entries) + HunkEntries(f, f.hunks[..j])
        {
          assert f.hunks[..j + 1][..j] == f.hunks[..j];
          AddEntry(Skip(f.hunks[j].id, f.path, NOT_EXAMINED));
        }
        assert f.hunks[..|f.hunks|] == f.hunks;
      }
    }

    method MarkExamined(hunkId: string)
      requires Valid()
      modifies this`entries
      ensures Valid() && |entries| == |old(entries)|
      ensures forall i :: 0 <= i < |entries| ==>
        entries[i] == if Latest(old(entries), hunkId, i)
                      then old(entries[i]).(examined := true, reason := "") else old(entries[i])
    {
      if hunkId in byID {
        var i := byID[hunkId];
        entries := entries[i := Examine(entries[i])];
      }
    }

    method MarkSkipped(hunkId: string, reason: string)
      requires Valid()
      modifies this`entries
      ensures Valid() && |entries| == |old(entries)|
      ensures forall i :: 0 <= i < |entries| ==>
        entries[i] == if Latest(old(entries), hunkId, i)
                      then old(entries[i]).(examined := false, reason := reason) else old(entries[i])
    {
      if hunkId in byID {
        var i := byID[hunkId];
        entries := entries[i := entries[i].(examined := false, reason := reason)];
      }
    }

    method MarkFileExamined(file: string)
      requires Valid()
      modifies this`entries
      ensures Valid() && entries == MarkFile(old(entries), file)
    {
      var indexes := if file in byFile then byFile[file] else [];
      ghost var before := entries;
      assert forall i :: i in indexes ==> i < |before| && before[i].file == file && file != "";
      hide IndexesIDs, IndexesFiles, Contains, Changed, MarkFile, MarkEntry, Examine;
      assert Changed(before, entries, indexes[..0], MarkEntry(file)) by { NothingChanged(before, MarkEntry(file)); }
      for k := 0 to |indexes|
        invariant |entries| == |before| && Changed(before, entries, indexes[..k], MarkEntry(file))
      {
        var i := indexes[k];
        assert i in indexes && indexes[..k + 1] == indexes[..k] + [i];
        MarkOneMore(before, entries, indexes[..k], i, file);
        var e := entries[i];
        if !Contains(e.hunkId, "omission") && e.reason == NOT_EXAMINED {
          entries := entries[i := Examine(e)];
        }
      }
      assert indexes[..|indexes|] == indexes;
      FileMarked(before, entries, byID, byFile, file);
    }

    method MarkFileSkipped(file: string, reason: string)
      requires Valid()
      modifies this`entries
      ensures Valid() && entries == SkipFile(old(entries), file, reason)
    {
      var indexes := if file in byFile then byFile[file] else [];
      ghost var before := entries;
      assert forall i :: i in indexes ==> i < |before|;
      hide IndexesIDs, IndexesFiles, Changed, SkipFile;
      assert Changed(before, entries, indexes[..0], SkipEntry(reason)) by { NothingChanged(before, SkipEntry(reason)); }
      for k := 0 to |indexes|
        invariant |entries| == |before| && Changed(before, entries, indexes[..k], SkipEntry(reason))
      {
        var i := indexes[k];
        assert i in indexes && indexes[..k + 1] == indexes[..k] + [i];
        ChangeOneMore(before, entries, indexes[..k], i, SkipEntry(reason));
        entries := entries[i := entries[i].(examined := false, reason := reason)];
      }
      assert indexes[..|indexes|] == indexes;
      FileSkipped(before, entries, byID, byFile, file, reason);
    }

    method Counts() returns (examined: nat, skipped: nat)
      ensures examined == CountExamined(entries) && examined + skipped == |entries|
    {
      examined, skipped := 0, 0;
      for i := 0 to |entries|
        invariant examined == CountExamined(entries[..i]) && examined + skipped == i
      {
        assert entries[..i + 1][..i] == entries[..i];
        if entries[i].examined { examined := examined + 1; } else { skipped := skipped + 1; }
      }
      assert entries[..|entries|] == entries;
    }

    method IsComplete() returns (complete: bool)
      ensures complete <==> AllExamined(entries)
    {
      for i := 0 to |entries|
        invariant forall j :: 0 <= j < i ==> entries[j].examined
      {
        if !entries[i].examined {
          return false;
        }
      }
      return true;
    }
  }

  // ----- The report -----

  function CountExamined(entries: seq<LedgerEntry>): nat {
    if entries == [] then 0
    else CountExamined(entries[..|entries| - 1]) + if entries[|entries| - 1].examined then 1 else 0
  }

  ghost predicate AllExamined(entries: seq<LedgerEntry>) {
    forall i :: 0 <= i < |entries| ==> entries[i].examined
  }

  lemma {:induction false} AllExaminedByCount(entries: seq<LedgerEntry>)
    ensures CountExamined(entries) <= |entries|
    ensures CountExamined(entries) == |entries| <==> AllExamined(entries)
  {
    if entries != [] {
      AllExaminedByCount(entries[..|entries| - 1]);
    }
  }

  datatype CoverageState = Full | Partial

  datatype CoverageItem = CoverageItem(id: string, file: string, reason: string)

  datatype CoverageReport = CoverageReport(
    state: CoverageState,
    totalHunks: nat,
    examinedCount: nat,
    skippedCount: nat,
    examinedHunks: seq<string>,
    skippedHunks: seq<CoverageItem>,
    omissions: seq<CoverageItem>)

  predicate IsOmissionEntry(hunkId: string) {
    || hunkId == ""
    || (|hunkId| > 8 && HasPrefix(hunkId, "omission"))
    || Contains(hunkId, ":omission")
    || Contains(hunkId, ":binary")
    || Contains(hunkId, ":mode-only")
    || Contains(hunkId, ":empty")
  }

  function ExaminedIDs(entries: seq<LedgerEntry>): seq<string> {
    if entries == [] then []
    else
      var e := entries[|entries| - 1];
      ExaminedIDs(entries[..|entries| - 1]) + if e.examined then [e.hunkId] else []
  }

  /** The unexamined entries, the omissions among them or the others. */
  function Unexamined(entries: seq<LedgerEntry>, omission: bool): seq<CoverageItem> {
    if entries == [] then []
    else
      var e := entries[|entries| - 1];
      Unexamined(entries[..|entries| - 1], omission)
      + if !e.examined && IsOmissionEntry(e.hunkId) == omission then [CoverageItem(e.hunkId, e.file, e.reason)] else []
  }

  // ----- What the lists hold -----

  /** An entry that is not examined, with its reason. */
  ghost predicate Listed(entries: seq<LedgerEntry>, item: CoverageItem) {
    exists e :: e in entries && !e.examined && item.id == e.hunkId && item.file == e.file && item.reason == e.reason
  }

  /** By its text, the ID is that of an omission: it is empty, starts with "omission" and goes on, or one of
      four marks stands in it. */
  ghost predicate OmissionID(id: string) {
    || id == ""
    || (StandsAt(id, "omission", 0) && id != "omission")
    || Carries(id, ":omission") || Carries(id, ":binary") || Carries(id, ":mode-only") || Carries(id, ":empty")
  }

  lemma OmissionEntryIff(id: string)
    ensures IsOmissionEntry(id) <==> OmissionID(id)
  {
    StandsFirst(id, "omission");
    ContainsIff(id, ":omission");
    ContainsIff(id, ":binary");
    ContainsIff(id, ":mode-only");
    ContainsIff(id, ":empty");
    hide Contains, Carries;
  }

  lemma {:induction false} ItemsListed(entries: seq<LedgerEntry>)
    ensures forall item :: item in Unexamined(entries, false) <==> Listed(entries, item) && !OmissionID(item.id)
    ensures forall item :: item in Unexamined(entries, true) <==> Listed(entries, item) && OmissionID(item.id)
  {
    if entries != [] {
      var front, e := entries[..|entries| - 1], entries[|entries| - 1];
      ItemsListed(front);
      OmissionEntryIff(e.hunkId);
      hide OmissionID, IsOmissionEntry;
      assert forall x :: x in entries <==> x in front || x == e;
      assert forall item :: Listed(entries, item) <==>
        Listed(front, item) || (!e.examined && item == CoverageItem(e.hunkId, e.file, e.reason));
    }
  }

  method CoverageFromLedger(l: CoverageLedger) returns (r: CoverageReport)
    ensures r.state == Full <==> AllExamined(l.entries)
    ensures r.totalHunks == |l.entries| && r.examinedCount == CountExamined(l.entries)
    ensures r.examinedCount + r.skippedCount == r.totalHunks
    ensures r.examinedHunks == ExaminedIDs(l.entries)
    ensures r.skippedHunks == Unexamined(l.entries, false) && r.omissions == Unexamined(l.entries, true)
    ensures forall item :: item in r.skippedHunks <==> Listed(l.entries, item) && !OmissionID(item.id)
    ensures forall item :: item in r.omissions <==> Listed(l.entries, item) && OmissionID(item.id)
  {
    ItemsListed(l.entries);
    hide OmissionID;
    var examinedCount, skippedCount := l.Counts();
    var complete := l.IsComplete();
    AllExaminedByCount(l.entries);
    var examined, skipped, omissions := [], [], [];
    for i := 0 to |l.entries|
      invariant examined == ExaminedIDs(l.entries[..i])
      invariant skipped == Unexamined(l.entries[..i], false) && omissions == Unexamined(l.entries[..i], true)
    {
      assert l.entries[..i + 1][..i] == l.entries[..i];
      var e := l.entries[i];
      if e.examined {
        examined := examined + [e.hunkId];
      } else if IsOmissionEntry(e.hunkId) {
        omissions := omissions + [CoverageItem(e.hunkId, e.file, e.reason)];
      } else {
        skipped := skipped + [CoverageItem(e.hunkId, e.file, e.reason)];
      }
    }
    assert l.entries[..|l.entries|] == l.entries;
    r := CoverageReport(if skippedCount > 0 || !complete then Partial else Full,
                        |l.entries|, examinedCount, skippedCount, examined, skipped, omissions);
  }

  /** The three lists of a report account for every entry. */
  lemma {:induction false} ReportAccountsForAll(entries: seq<LedgerEntry>)
    ensures |ExaminedIDs(entries)| == CountExamined(entries)
    ensures |ExaminedIDs(entries)| + |Unexamined(entries, false)| + |Unexamined(entries, true)| == |entries|
  {
    if entries != [] {
      ReportAccountsForAll(entries[..|entries| - 1]);
    }
  }
}
