/** What the window packer guarantees: budget, order, next-fit density, and which omissions reach the
    reader. */
module Packing {
  import opened Text
  import opened Diff
  import opened Pieces

  // ----- Every hunk is offered once, in order -----

  function AllPlaced(f: FileDiff, hunks: seq<Hunk>): seq<Fate> {
    if hunks == [] then [] else AllPlaced(f, hunks[..|hunks| - 1]) + [Placed(f, hunks[|hunks| - 1])]
  }

  function OfferedIn(f: FileDiff): seq<Fate> {
    if HasText(f) then AllPlaced(f, f.hunks) else []
  }

  /** The hunks of all files with text, in order. */
  function Offered(files: seq<FileDiff>): seq<Fate> {
    if files == [] then [] else Offered(files[..|files| - 1]) + OfferedIn(files[|files| - 1])
  }

  /** Two fate lists are about the same hunks. */
  ghost predicate SameHunks(a: seq<Fate>, b: seq<Fate>) {
    |a| == |b| && forall i :: 0 <= i < |a| ==> a[i].file == b[i].file && a[i].hunk == b[i].hunk
  }

  lemma SameHunksExtend(a: seq<Fate>, b: seq<Fate>, c: seq<Fate>, more: seq<Fate>)
    requires SameHunks(a, b) && SameHunks(c, a + more)
    ensures SameHunks(c, b + more)
  {
    forall i | 0 <= i < |c|
      ensures c[i].file == (b + more)[i].file && c[i].hunk == (b + more)[i].hunk
    {
      assert c[i].file == (a + more)[i].file && c[i].hunk == (a + more)[i].hunk;
      assert i < |a| ==> a[i].file == b[i].file && a[i].hunk == b[i].hunk;
    }
  }

  function PlacedHunks(fates: seq<Fate>): seq<Hunk> {
    if fates == [] then []
    else
      var last := fates[|fates| - 1];
      PlacedHunks(fates[..|fates| - 1]) + if last.Placed? then [last.hunk] else []
  }

  function DraftHunks(ds: seq<Draft>): seq<Hunk> {
    if ds == [] then [] else DraftHunks(ds[..|ds| - 1]) + HunksOf(ds[|ds| - 1].pieces)
  }

  function DraftOmissions(ds: seq<Draft>): seq<Omission> {
    if ds == [] then [] else DraftOmissions(ds[..|ds| - 1]) + ds[|ds| - 1].omissions
  }

  function OmissionsOf(st: PackState): seq<Omission> {
    DraftOmissions(st.done) + st.cur.omissions
  }

  /** The omissions of the first window. */
  function FirstOmissions(st: PackState): seq<Omission> {
    if st.done == [] then st.cur.omissions else st.done[0].omissions
  }

  predicate Fits(maxBytes: nat, d: Draft) {
    Size(d) <= maxBytes
  }

  /** A hunk that is rejected does not fit with its file header, and one that is placed fits alone. */
  predicate FateJust(maxBytes: nat, fate: Fate) {
    match fate
    case Placed(f, h) => |HunkText(h)| <= maxBytes
    case Rejected(f, h) => |HeaderText(f)| + |HunkText(h)| > maxBytes
  }

  /** The file, or the hunk when `id` is not empty, has an omission. */
  ghost predicate Recorded(omissions: seq<Omission>, path: string, id: string) {
    exists i :: 0 <= i < |omissions| && omissions[i].file == path && omissions[i].hunkId == id
  }

  ghost predicate RejectsRecorded(omissions: seq<Omission>, fates: seq<Fate>) {
    forall i :: 0 <= i < |fates| && fates[i].Rejected? ==> Recorded(omissions, fates[i].file.path, fates[i].hunk.id)
  }

  ghost predicate TextlessRecorded(omissions: seq<Omission>, files: seq<FileDiff>) {
    forall i :: 0 <= i < |files| && !HasText(files[i]) ==> Recorded(omissions, files[i].path, "")
  }

  lemma RecordedGrows(a: seq<Omission>, b: seq<Omission>, path: string, id: string)
    requires a <= b && Recorded(a, path, id)
    ensures Recorded(b, path, id)
  {
    var i :| 0 <= i < |a| && a[i].file == path && a[i].hunkId == id;
    assert b[i] == a[i];
  }

  lemma RejectsGrow(a: seq<Omission>, b: seq<Omission>, fates: seq<Fate>)
    requires a <= b && RejectsRecorded(a, fates)
    ensures RejectsRecorded(b, fates)
  {
    forall i | 0 <= i < |fates| && fates[i].Rejected?
      ensures Recorded(b, fates[i].file.path, fates[i].hunk.id)
    {
      RecordedGrows(a, b, fates[i].file.path, fates[i].hunk.id);
    }
  }

  ghost predicate Sound(maxBytes: nat, st: PackState) {
    && (forall d :: d in st.done ==> Fits(maxBytes, d) && d.pieces != [])
    && Fits(maxBytes, st.cur)
    && PlacedHunks(st.fates) == DraftHunks(st.done) + HunksOf(st.cur.pieces)
    && (forall fate :: fate in st.fates ==> FateJust(maxBytes, fate))
    && RejectsRecorded(OmissionsOf(st), st.fates)
  }

  lemma DraftsSnoc(ds: seq<Draft>, d: Draft)
    ensures DraftHunks(ds + [d]) == DraftHunks(ds) + HunksOf(d.pieces)
    ensures DraftOmissions(ds + [d]) == DraftOmissions(ds) + d.omissions
  {
    assert (ds + [d])[..|ds|] == ds;
  }

  lemma FinishKeeps(maxBytes: nat, st: PackState)
    requires Sound(maxBytes, st)
    ensures Sound(maxBytes, FinishWindow(st))
    ensures OmissionsOf(FinishWindow(st)) == OmissionsOf(st)
    ensures FirstOmissions(FinishWindow(st)) == FirstOmissions(st)
  {
    hide HunksOf, Render, RejectsRecorded, DraftHunks, DraftOmissions, PlacedHunks, FateJust;
    DraftsSnoc(st.done, st.cur);
    NothingInNothing();
    assert DraftOmissions(st.done) + st.cur.omissions + [] == DraftOmissions(st.done) + st.cur.omissions;
    assert DraftHunks(st.done) + HunksOf(st.cur.pieces) + [] == DraftHunks(st.done) + HunksOf(st.cur.pieces);
  }

  lemma NothingInNothing()
    ensures HunksOf([]) == [] && Render([]) == "" && FilesOf([]) == []
  {
  }

  lemma RejectKeeps(maxBytes: nat, st: PackState, f: FileDiff, h: Hunk, cost: nat)
    requires Sound(maxBytes, st) && |HeaderText(f)| + |HunkText(h)| > maxBytes
    ensures Sound(maxBytes, Reject(st, f, h, cost, maxBytes))
    ensures OmissionsOf(st) <= OmissionsOf(Reject(st, f, h, cost, maxBytes))
    ensures FirstOmissions(st) <= FirstOmissions(Reject(st, f, h, cost, maxBytes))
  {
    hide HeaderText, HunkText, OversizedReason, HunksOf, Render, DraftHunks, DraftOmissions;
    var s := Reject(st, f, h, cost, maxBytes);
    assert s.fates[..|st.fates|] == st.fates;
    var om := s.cur.omissions[|s.cur.omissions| - 1];
    assert OmissionsOf(s) == OmissionsOf(st) + [om];
    assert OmissionsOf(s)[|OmissionsOf(st)|] == om;
    RejectsGrow(OmissionsOf(st), OmissionsOf(s), st.fates);
  }

  lemma PlaceKeeps(maxBytes: nat, st: PackState, f: FileDiff, h: Hunk)
    requires Sound(maxBytes, st) && Size(st.cur) + Cost(st, f, h) <= maxBytes
    ensures Sound(maxBytes, Place(st, f, h))
    ensures Size(Place(st, f, h).cur) == Size(st.cur) + Cost(st, f, h)
    ensures OmissionsOf(Place(st, f, h)) == OmissionsOf(st)
    ensures FirstOmissions(Place(st, f, h)) == FirstOmissions(st)
  {
    hide HeaderText, HunkText, HunksOf, Render, FilesOf, DraftHunks, DraftOmissions, Recorded;
    var s := Place(st, f, h);
    PlaceBuilds(st, f, h);
    assert s.fates[..|st.fates|] == st.fates;
    assert DraftHunks(st.done) + (HunksOf(st.cur.pieces) + [h]) == DraftHunks(st.done) + HunksOf(st.cur.pieces) + [h];
  }

  lemma PackHunkKeeps(maxBytes: nat, st: PackState, f: FileDiff, h: Hunk)
    requires Sound(maxBytes, st)
    ensures var s := PackHunk(maxBytes, st, f, h);
      && Sound(maxBytes, s)
      && (s.fates == st.fates + [Placed(f, h)] || s.fates == st.fates + [Rejected(f, h)])
      && OmissionsOf(st) <= OmissionsOf(s) && FirstOmissions(st) <= FirstOmissions(s)
  {
    hide HeaderText, HunkText, Render, FilesOf, OversizedReason, Sound, OmissionsOf, FirstOmissions;
    var cost := Cost(st, f, h);
    NothingInNothing();
    if cost > maxBytes && st.cur.pieces == [] {
      RejectKeeps(maxBytes, st, f, h, cost);
    } else if Size(st.cur) + cost > maxBytes && st.cur.pieces != [] {
      FinishKeeps(maxBytes, st);
      var full := |HeaderText(f)| + |HunkText(h)|;
      if full > maxBytes {
        RejectKeeps(maxBytes, FinishWindow(st), f, h, full);
      } else {
        PlaceKeeps(maxBytes, FinishWindow(st), f, h);
      }
    } else {
      PlaceKeeps(maxBytes, st, f, h);
    }
  }

  lemma {:induction false} PackHunksKeep(maxBytes: nat, st: PackState, f: FileDiff, hunks: seq<Hunk>)
    requires Sound(maxBytes, st)
    ensures var s := PackHunks(maxBytes, st, f, hunks);
      && Sound(maxBytes, s)
      && OmissionsOf(st) <= OmissionsOf(s) && FirstOmissions(st) <= FirstOmissions(s)
      && SameHunks(s.fates, st.fates + AllPlaced(f, hunks))
  {
    hide PackHunk, Sound, OmissionsOf, FirstOmissions;
    if hunks != [] {
      var front := hunks[..|hunks| - 1];
      PackHunksKeep(maxBytes, st, f, front);
      var mid := PackHunks(maxBytes, st, f, front);
      PackHunkKeeps(maxBytes, mid, f, hunks[|hunks| - 1]);
      assert st.fates + AllPlaced(f, hunks) == st.fates + AllPlaced(f, front) + [Placed(f, hunks[|hunks| - 1])];
    } else {
      assert st.fates + [] == st.fates;
    }
  }

  /** Everything that holds of the packer once it has been through `files`. */
  ghost predicate Kept(maxBytes: nat, omissions: seq<Omission>, files: seq<FileDiff>, st: PackState) {
    && Sound(maxBytes, st)
    && omissions <= OmissionsOf(st) && omissions <= FirstOmissions(st)
    && SameHunks(st.fates, Offered(files))
    && TextlessRecorded(OmissionsOf(st), files)
  }

  lemma KeptByFile(maxBytes: nat, omissions: seq<Omission>, files: seq<FileDiff>, f: FileDiff, st: PackState)
    requires Kept(maxBytes, omissions, files, st)
    ensures Kept(maxBytes, omissions, files + [f], PackFile(maxBytes, st, f))
  {
    hide PackFile, Sound, OmissionsOf, FirstOmissions, SameHunks, OfferedIn, TextlessRecorded;
    PackFileKeeps(maxBytes, st, f);
    var s := PackFile(maxBytes, st, f);
    assert (files + [f])[..|files|] == files;
    SameHunksExtend(st.fates, Offered(files), s.fates, OfferedIn(f));
    TextlessGrows(OmissionsOf(st), OmissionsOf(s), files, f);
  }

  lemma TextlessGrows(a: seq<Omission>, b: seq<Omission>, files: seq<FileDiff>, f: FileDiff)
    requires a <= b && TextlessRecorded(a, files) && (!HasText(f) ==> Recorded(b, f.path, ""))
    ensures TextlessRecorded(b, files + [f])
  {
    hide Recorded, HasText;
    forall i | 0 <= i < |files| && !HasText(files[i])
      ensures Recorded(b, files[i].path, "")
    {
      RecordedGrows(a, b, files[i].path, "");
    }
  }

  lemma {:induction false} PackFilesKeep(maxBytes: nat, omissions: seq<Omission>, files: seq<FileDiff>)
    ensures Kept(maxBytes, omissions, files, PackFiles(maxBytes, PackStart(omissions), files))
  {
    if files == [] {
      StartSound(maxBytes, omissions);
    } else {
      hide Kept, PackFile;
      var front, f := files[..|files| - 1], files[|files| - 1];
      PackFilesKeep(maxBytes, omissions, front);
      KeptByFile(maxBytes, omissions, front, f, PackFiles(maxBytes, PackStart(omissions), front));
      assert front + [f] == files;
    }
  }

  lemma StartSound(maxBytes: nat, omissions: seq<Omission>)
    ensures Sound(maxBytes, PackStart(omissions))
    ensures OmissionsOf(PackStart(omissions)) == omissions == FirstOmissions(PackStart(omissions))
  {
    NothingInNothing();
  }

  lemma PackFileKeeps(maxBytes: nat, st: PackState, f: FileDiff)
    requires Sound(maxBytes, st)
    ensures var s := PackFile(maxBytes, st, f);
      && Sound(maxBytes, s)
      && OmissionsOf(st) <= OmissionsOf(s) && FirstOmissions(st) <= FirstOmissions(s)
      && SameHunks(s.fates, st.fates + OfferedIn(f))
      && (!HasText(f) ==> Recorded(OmissionsOf(s), f.path, ""))
  {
    hide PackHunks, HunksOf, Render, DraftOmissions, DraftHunks;
    assert st.fates + [] == st.fates;
    if !HasText(f) {
      var om := Omission(f.path, "", if f.isBinary then "binary file" else "mode change only");
      var s := OmitHere(st, om);
      assert OmissionsOf(s) == OmissionsOf(st) + [om];
      assert OmissionsOf(s)[|OmissionsOf(st)|] == om;
      RejectsGrow(OmissionsOf(st), OmissionsOf(s), st.fates);
    } else if f.hunks != [] {
      PackHunksKeep(maxBytes, st.(headerIncluded := false), f, f.hunks);
    }
  }

  /** Every window is within the budget; the windows hold the hunks in order, each hunk being either
      placed or rejected and recorded; a rejected hunk does not fit beside its file header and a placed
      one fits alone. */
  lemma WindowsSound(inv: ChangeInventory, maxBytes: nat)
    ensures var st := Pack(inv, maxBytes);
      && (forall d :: d in Drafts(inv, maxBytes) ==> |Render(d.pieces)| <= maxBytes)
      && DraftHunks(Drafts(inv, maxBytes)) == PlacedHunks(st.fates)
      && SameHunks(st.fates, Offered(inv.files))
      && (forall fate :: fate in st.fates ==> FateJust(maxBytes, fate))
      && RejectsRecorded(OmissionsOf(st), st.fates)
      && TextlessRecorded(OmissionsOf(st), inv.files)
  {
    hide PackFiles, Render, HunksOf, Flagged, FateJust, SameHunks, Offered, RejectsRecorded, TextlessRecorded,
      PlacedHunks;
    var st := Pack(inv, maxBytes);
    PackFilesKeep(maxBytes, inv.omissions, inv.files);
    FinishKeeps(maxBytes, st);
    NothingInNothing();
    if FinishWindow(st).done == [] {
      DraftsSnoc([], st.cur);
      assert [] + [st.cur] == [st.cur];
    }
  }

  // ----- Next-fit density -----

  /** No hunk is too big to open a window with its header. */
  predicate AllFit(maxBytes: nat, f: FileDiff) {
    forall h :: h in f.hunks ==> |HeaderText(f)| + |HunkText(h)| <= maxBytes
  }

  ghost predicate Dense(maxBytes: nat, st: PackState) {
    && (forall i :: 0 < i < |st.done| ==> Size(st.done[i - 1]) + Size(st.done[i]) > maxBytes)
    && (st.done != [] ==> st.cur.pieces != [] && Size(st.done[|st.done| - 1]) + Size(st.cur) > maxBytes)
  }

  lemma PlaceGrows(st: PackState, f: FileDiff, h: Hunk)
    ensures var s := Place(st, f, h);
      && s.cur.pieces != [] && s.done == st.done
      && Size(s.cur) == Size(st.cur) + Cost(st, f, h)
  {
    hide HeaderText, HunkText, HunksOf, Render, FilesOf;
    PlaceBuilds(st, f, h);
  }

  lemma PackHunkDense(maxBytes: nat, st: PackState, f: FileDiff, h: Hunk)
    requires Dense(maxBytes, st) && |HeaderText(f)| + |HunkText(h)| <= maxBytes
    ensures Dense(maxBytes, PackHunk(maxBytes, st, f, h))
  {
    hide HeaderText, HunkText, Render, FilesOf, Place;
    NothingInNothing();
    PlaceGrows(st, f, h);
    PlaceGrows(FinishWindow(st), f, h);
  }

  lemma {:induction false} PackHunksDense(maxBytes: nat, st: PackState, f: FileDiff, hunks: seq<Hunk>)
    requires Dense(maxBytes, st)
    requires forall h :: h in hunks ==> |HeaderText(f)| + |HunkText(h)| <= maxBytes
    ensures Dense(maxBytes, PackHunks(maxBytes, st, f, hunks))
  {
    hide HeaderText, HunkText, PackHunk, Dense;
    if hunks != [] {
      PackHunksDense(maxBytes, st, f, hunks[..|hunks| - 1]);
      PackHunkDense(maxBytes, PackHunks(maxBytes, st, f, hunks[..|hunks| - 1]), f, hunks[|hunks| - 1]);
    }
  }

  lemma {:induction false} PackFilesDense(maxBytes: nat, omissions: seq<Omission>, files: seq<FileDiff>)
    requires forall f :: f in files && HasText(f) ==> AllFit(maxBytes, f)
    ensures Dense(maxBytes, PackFiles(maxBytes, PackStart(omissions), files))
  {
    hide HeaderText, HunkText, PackHunks;
    if files != [] {
      var front, f := files[..|files| - 1], files[|files| - 1];
      PackFilesDense(maxBytes, omissions, front);
      var st := PackFiles(maxBytes, PackStart(omissions), front);
      if HasText(f) {
        PackHunksDense(maxBytes, st.(headerIncluded := false), f, f.hunks);
      }
    }
  }

  function TotalSize(ds: seq<Draft>): nat {
    if ds == [] then 0 else TotalSize(ds[..|ds| - 1]) + Size(ds[|ds| - 1])
  }

  lemma {:induction false} PairsBoundCount(maxBytes: nat, ds: seq<Draft>)
    requires forall i :: 0 < i < |ds| ==> Size(ds[i - 1]) + Size(ds[i]) > maxBytes
    ensures (|ds| / 2) * (maxBytes + 1) <= TotalSize(ds)
    decreases |ds|
  {
    hide Size;
    if |ds| >= 2 {
      var n := |ds|;
      var rest := ds[..n - 2];
      PairsBoundCount(maxBytes, rest);
      assert ds[..n - 1][..n - 2] == rest;
      assert TotalSize(ds) == TotalSize(rest) + Size(ds[n - 2]) + Size(ds[n - 1]);
      assert n / 2 == |rest| / 2 + 1;
      assert (n / 2) * (maxBytes + 1) == (|rest| / 2) * (maxBytes + 1) + (maxBytes + 1);
    }
  }

  /** When every hunk fits with its header, two consecutive windows together exceed the budget, so the
      number of windows is bounded by the bytes they hold. */
  lemma NextFit(inv: ChangeInventory, maxBytes: nat)
    requires forall f :: f in inv.files && HasText(f) ==> AllFit(maxBytes, f)
    ensures var ds := Drafts(inv, maxBytes);
      && (forall i :: 0 < i < |ds| ==> |Render(ds[i - 1].pieces)| + |Render(ds[i].pieces)| > maxBytes)
      && (|ds| / 2) * (maxBytes + 1) <= TotalSize(ds)
  {
    hide PackFiles, AllFit, HeaderText, Render, HunksOf, FilesOf, TotalSize;
    NothingInNothing();
    PackFilesDense(maxBytes, inv.omissions, inv.files);
    var ds := Drafts(inv, maxBytes);
    assert forall i :: 0 < i < |ds| ==> Size(ds[i - 1]) + Size(ds[i]) > maxBytes;
    PairsBoundCount(maxBytes, ds);
  }

  // ----- Which omissions reach the reader -----

  /** The omissions that end up in no returned window. */
  function Lost(inv: ChangeInventory, maxBytes: nat): seq<Omission> {
    var st := Pack(inv, maxBytes);
    if st.done != [] && st.cur.pieces == [] then st.cur.omissions else []
  }

  /** The returned windows and the lost tail together hold every omission, in order. */
  lemma OmissionsConserved(inv: ChangeInventory, maxBytes: nat)
    ensures DraftOmissions(Drafts(inv, maxBytes)) + Lost(inv, maxBytes) == OmissionsOf(Pack(inv, maxBytes))
    ensures inv.omissions <= OmissionsOf(Pack(inv, maxBytes))
  {
    hide PackFiles;
    var st := Pack(inv, maxBytes);
    PackFilesKeep(maxBytes, inv.omissions, inv.files);
    DraftsSnoc(st.done, st.cur);
    DraftsSnoc([], st.cur);
    assert [] + [st.cur] == [st.cur];
  }

  /** A hunk can be dropped without any flag: the second hunk of a file is too big, and the first was
      already closed into the only window. */
  lemma OversizedLastHunkIsLostSilently(f: FileDiff, a: Hunk, b: Hunk, maxBytes: nat)
    requires HasText(f) && f.hunks == [a, b]
    requires |HeaderText(f)| + |HunkText(a)| <= maxBytes < |HunkText(b)|
    ensures var inv := ChangeInventory([f], [], 2, 1, false); var ds := Drafts(inv, maxBytes);
      && |ds| == 1 && HunksOf(ds[0].pieces) == [a] && !Flagged(inv, 1, ds[0])
      && |Lost(inv, maxBytes)| == 1 && Lost(inv, maxBytes)[0].hunkId == b.id
  {
    hide HeaderText, HunkText, OversizedReason, Render, FilesOf, HunksOf;
    NothingInNothing();
    var inv := ChangeInventory([f], [], 2, 1, false);
    var st0 := PackStart([]);
    var st1 := PackHunk(maxBytes, st0, f, a);
    PlaceBuilds(st0, f, a);
    assert st1 == Place(st0, f, a);
    assert HunksOf(st1.cur.pieces) == [a];
    var st2 := PackHunk(maxBytes, st1, f, b);
    assert st2.done == [st1.cur] && st2.cur.pieces == [];
    assert [a, b][..1] == [a] && [a][..0] == [];
    assert PackHunks(maxBytes, st0, f, [a]) == st1;
    assert PackHunks(maxBytes, st0, f, [a, b]) == st2;
    assert [f][..0] == [];
    assert Pack(inv, maxBytes) == PackFile(maxBytes, PackFiles(maxBytes, st0, []), f) == st2;
  }
}
