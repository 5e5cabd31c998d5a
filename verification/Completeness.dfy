/** pkg/diff/diff.go, Windows: when the truncation flag tells the reader that something is missing, said of
    the inventory and the budget alone. */
module Completeness {
  import opened Text
  import opened Diff
  import opened Pieces
  import opened Packing

  // ----- Everything in one window -----

  /** A hunk added to a window without regard to the budget; the header is written once for a path. */
  function AddHunk(pieces: seq<Piece>, f: FileDiff, h: Hunk): seq<Piece> {
    (if f.path in FilesOf(pieces) then pieces else pieces + [Header(f)]) + [Body(f, h)]
  }

  function AddHunks(pieces: seq<Piece>, f: FileDiff, hunks: seq<Hunk>): seq<Piece> {
    if hunks == [] then pieces else AddHunk(AddHunks(pieces, f, hunks[..|hunks| - 1]), f, hunks[|hunks| - 1])
  }

  /** All hunks of all files in one window. */
  function OneWindow(files: seq<FileDiff>): seq<Piece> {
    if files == [] then []
    else AddHunks(OneWindow(files[..|files| - 1]), files[|files| - 1], files[|files| - 1].hunks)
  }

  predicate AllText(files: seq<FileDiff>) {
    forall f :: f in files ==> HasText(f)
  }

  /** The hunks of all files, in order. */
  function AllHunks(files: seq<FileDiff>): seq<Hunk> {
    if files == [] then [] else AllHunks(files[..|files| - 1]) + files[|files| - 1].hunks
  }

  /** Every file is listed by some window. */
  predicate AllListed(files: seq<FileDiff>, ds: seq<Draft>) {
    forall f :: f in files ==> exists d :: d in ds && f.path in FilesOf(d.pieces)
  }

  /** Nothing is missing from the windows: no file lacks text, they hold every hunk, and list every file. */
  predicate Complete(inv: ChangeInventory, maxBytes: nat) {
    var ds := Drafts(inv, maxBytes);
    AllText(inv.files) && DraftHunks(ds) == AllHunks(inv.files) && AllListed(inv.files, ds)
  }

  /** Every path is that of a file with hunks: the packer passes over a file without any. */
  predicate AllNamed(files: seq<FileDiff>) {
    forall f :: f in files ==> exists g :: g in files && g.path == f.path && g.hunks != []
  }

  predicate Unflagged(inv: ChangeInventory, maxBytes: nat) {
    var ds := Drafts(inv, maxBytes);
    forall d :: d in ds ==> !Flagged(inv, |ds|, d)
  }

  // ----- The modes of the packer -----

  /** Nothing has been left out, and nothing closed: one window holds it all. */
  predicate Clean(st: PackState, pieces: seq<Piece>) {
    && st.done == [] && st.cur == Draft(pieces, [])
    && AllPlacedFates(st.fates)
  }

  predicate AllPlacedFates(fates: seq<Fate>) {
    forall i :: 0 <= i < |fates| ==> fates[i].Placed?
  }

  /** One window is closed without a note, and everything since was left out. */
  predicate Silent(st: PackState) {
    |st.done| == 1 && st.done[0].omissions == [] && st.cur.pieces == []
  }

  /** A note stands in the window being filled, none is closed. */
  predicate Noted(st: PackState) {
    st.done == [] && st.cur.omissions != []
  }

  /** The first window is flagged, or there is a second one. */
  predicate Shown(st: PackState) {
    || |st.done| >= 2 || (|st.done| == 1 && (st.done[0].omissions != [] || st.cur.pieces != []))
  }

  /** A shown result stays shown, and a note keeps the packer from going silent. */
  predicate Follows(st: PackState, s: PackState) {
    && (Shown(st) ==> Shown(s))
    && (Noted(st) ==> Noted(s) || Shown(s))
    && (Silent(st) ==> Silent(s) || Shown(s))
  }

  lemma PackHunkFollows(maxBytes: nat, st: PackState, f: FileDiff, h: Hunk)
    ensures Follows(st, PackHunk(maxBytes, st, f, h))
  {
    hide HeaderText, HunkText, Render, HunksOf, FilesOf, OversizedReason, Size;
  }

  lemma FollowsOn(a: PackState, b: PackState, c: PackState)
    requires Follows(a, b) && Follows(b, c)
    ensures Follows(a, c)
  {
    hide Shown, Noted, Silent;
  }

  lemma {:induction false} PackHunksFollow(maxBytes: nat, st: PackState, f: FileDiff, hunks: seq<Hunk>)
    ensures Follows(st, PackHunks(maxBytes, st, f, hunks))
  {
    hide PackHunk, Follows;
    if hunks == [] {
      FollowsSelf(st);
    } else {
      var mid := PackHunks(maxBytes, st, f, hunks[..|hunks| - 1]);
      PackHunksFollow(maxBytes, st, f, hunks[..|hunks| - 1]);
      PackHunkFollows(maxBytes, mid, f, hunks[|hunks| - 1]);
      FollowsOn(st, mid, PackHunks(maxBytes, st, f, hunks));
    }
  }

  lemma FollowsSelf(st: PackState)
    ensures Follows(st, st)
  {
  }

  // ----- A silent packer -----

  /** A silent packer leaves a hunk out that does not fit with its header or, in the file whose header went
      into the closed window, does not fit alone. */
  predicate LeftOut(maxBytes: nat, f: FileDiff, h: Hunk, headerWritten: bool) {
    (if headerWritten then 0 else |HeaderText(f)|) + |HunkText(h)| > maxBytes
  }

  predicate AllLeftOut(maxBytes: nat, f: FileDiff, hunks: seq<Hunk>, headerWritten: bool) {
    forall i :: 0 <= i < |hunks| ==> LeftOut(maxBytes, f, hunks[i], headerWritten)
  }

  lemma SilentHunk(maxBytes: nat, st: PackState, f: FileDiff, h: Hunk)
    requires Silent(st)
    ensures var s := PackHunk(maxBytes, st, f, h);
      && (Silent(s) <==> LeftOut(maxBytes, f, h, st.headerIncluded))
      && (Silent(s) ==> s.headerIncluded == st.headerIncluded)
  {
    hide HeaderText, HunkText, Render, HunksOf, OversizedReason;
    NothingInNothing();
  }

  lemma {:induction false} SilentHunks(maxBytes: nat, st: PackState, f: FileDiff, hunks: seq<Hunk>)
    requires Silent(st)
    ensures var s := PackHunks(maxBytes, st, f, hunks);
      && (Silent(s) <==> AllLeftOut(maxBytes, f, hunks, st.headerIncluded))
      && (Silent(s) ==> s.headerIncluded == st.headerIncluded)
  {
    hide PackHunk, Silent, Noted, Shown, LeftOut;
    if hunks != [] {
      var front, h := hunks[..|hunks| - 1], hunks[|hunks| - 1];
      SilentHunks(maxBytes, st, f, front);
      PackHunksFollow(maxBytes, st, f, front);
      var mid := PackHunks(maxBytes, st, f, front);
      PackHunkFollows(maxBytes, mid, f, h);
      ShownNotSilent(PackHunks(maxBytes, st, f, hunks));
      AllLeftOutSnoc(maxBytes, f, hunks, st.headerIncluded);
      if Silent(mid) {
        SilentHunk(maxBytes, mid, f, h);
      }
    }
  }

  lemma ShownNotSilent(st: PackState)
    ensures Shown(st) ==> !Silent(st) && !Noted(st)
    ensures Noted(st) ==> !Silent(st)
  {
  }

  lemma AllLeftOutSnoc(maxBytes: nat, f: FileDiff, hunks: seq<Hunk>, headerWritten: bool)
    requires hunks != []
    ensures AllLeftOut(maxBytes, f, hunks, headerWritten) <==>
            && AllLeftOut(maxBytes, f, hunks[..|hunks| - 1], headerWritten)
            && LeftOut(maxBytes, f, hunks[|hunks| - 1], headerWritten)
  {
    hide LeftOut;
    var front := hunks[..|hunks| - 1];
    assert forall i :: 0 <= i < |front| ==> front[i] == hunks[i];
  }

  // ----- From a clean packer -----

  predicate Within(maxBytes: nat, pieces: seq<Piece>) {
    |Render(pieces)| <= maxBytes
  }

  lemma AddHunkSize(pieces: seq<Piece>, f: FileDiff, h: Hunk)
    ensures |Render(AddHunk(pieces, f, h))|
         == |Render(pieces)| + (if f.path in FilesOf(pieces) then 0 else |HeaderText(f)|) + |HunkText(h)|
    ensures f.path in FilesOf(AddHunk(pieces, f, h))
    ensures HunksOf(AddHunk(pieces, f, h)) == HunksOf(pieces) + [h]
    ensures AddHunk(pieces, f, h) != []
  {
    hide HeaderText, HunkText, Render, HunksOf, FilesOf;
    var mid := if f.path in FilesOf(pieces) then pieces else pieces + [Header(f)];
    if f.path !in FilesOf(pieces) {
      RenderSnoc(pieces, Header(f));
      PiecesSnoc(pieces, Header(f));
    }
    RenderSnoc(mid, Body(f, h));
    PiecesSnoc(mid, Body(f, h));
  }

  /** What a clean packer makes of a hunk. */
  lemma CleanHunk(maxBytes: nat, st: PackState, pieces: seq<Piece>, f: FileDiff, h: Hunk)
    requires Clean(st, pieces) && Within(maxBytes, pieces)
    requires st.headerIncluded ==> f.path in FilesOf(pieces)
    ensures var s, more := PackHunk(maxBytes, st, f, h), AddHunk(pieces, f, h);
      if Within(maxBytes, more) then
        Clean(s, more) && s.headerIncluded == (st.headerIncluded || f.path !in FilesOf(pieces))
      else
        && !Clean(s, more) && (Silent(s) || Noted(s) || Shown(s))
        && (Silent(s) <==> pieces != [] && LeftOut(maxBytes, f, h, false))
        && (Silent(s) ==> s.headerIncluded == st.headerIncluded)
  {
    hide HeaderText, HunkText, Render, HunksOf, FilesOf, OversizedReason;
    NothingInNothing();
    AddHunkSize(pieces, f, h);
  }

  /** The packer goes silent at hunk `j` of a file: the hunks before it fit into the window with what is
      there, it does not, nor with its header into a window of its own, and the rest of the file is left
      out after it. */
  predicate SilentAt(maxBytes: nat, pieces: seq<Piece>, f: FileDiff, hunks: seq<Hunk>, j: nat) {
    && j < |hunks|
    && AddHunks(pieces, f, hunks[..j]) != []
    && Within(maxBytes, AddHunks(pieces, f, hunks[..j]))
    && !Within(maxBytes, AddHunks(pieces, f, hunks[..j + 1]))
    && LeftOut(maxBytes, f, hunks[j], false)
    && AllLeftOut(maxBytes, f, hunks[j + 1..], HeaderWritten(pieces, f, j))
  }

  /** Whether the header of the file was written for one of its first `j` hunks. */
  predicate HeaderWritten(pieces: seq<Piece>, f: FileDiff, j: nat) {
    j > 0 && f.path !in FilesOf(pieces)
  }

  ghost predicate SilentIn(maxBytes: nat, pieces: seq<Piece>, f: FileDiff, hunks: seq<Hunk>) {
    exists j :: SilentAt(maxBytes, pieces, f, hunks, j)
  }

  lemma {:induction false} AddHunksGrow(pieces: seq<Piece>, f: FileDiff, hunks: seq<Hunk>, j: nat)
    requires j <= |hunks|
    ensures |Render(AddHunks(pieces, f, hunks[..j]))| <= |Render(AddHunks(pieces, f, hunks))|
    ensures j > 0 ==> f.path in FilesOf(AddHunks(pieces, f, hunks[..j]))
    ensures f.path in FilesOf(pieces) ==> f.path in FilesOf(AddHunks(pieces, f, hunks[..j]))
    decreases |hunks|
  {
    hide AddHunk, Render, FilesOf;
    if j == |hunks| {
      assert hunks[..j] == hunks;
      if j > 0 {
        var front := hunks[..j - 1];
        AddHunkSize(AddHunks(pieces, f, front), f, hunks[j - 1]);
      }
    } else {
      var front := hunks[..|hunks| - 1];
      assert front[..j] == hunks[..j];
      AddHunksGrow(pieces, f, front, j);
      AddHunkSize(AddHunks(pieces, f, front), f, hunks[|hunks| - 1]);
    }
  }

  /** Going silent at an earlier hunk, or at the last one. */
  lemma SilentAtSnoc(maxBytes: nat, pieces: seq<Piece>, f: FileDiff, hunks: seq<Hunk>, j: nat)
    requires j < |hunks|
    ensures var front, h := hunks[..|hunks| - 1], hunks[|hunks| - 1];
      SilentAt(maxBytes, pieces, f, hunks, j) <==>
        if j < |front| then
          SilentAt(maxBytes, pieces, f, front, j) && LeftOut(maxBytes, f, h, HeaderWritten(pieces, f, j))
        else
          && AddHunks(pieces, f, front) != [] && Within(maxBytes, AddHunks(pieces, f, front))
          && !Within(maxBytes, AddHunks(pieces, f, hunks)) && LeftOut(maxBytes, f, h, false)
  {
    hide AddHunks, Within, LeftOut, HeaderWritten, AllLeftOut;
    var front := hunks[..|hunks| - 1];
    if j < |front| {
      assert front[..j] == hunks[..j] && front[..j + 1] == hunks[..j + 1];
      assert hunks[j + 1..][..|hunks| - j - 2] == front[j + 1..];
      AllLeftOutSnoc(maxBytes, f, hunks[j + 1..], HeaderWritten(pieces, f, j));
    } else {
      assert hunks[..j + 1] == hunks && hunks[j + 1..] == [];
      NoneLeftOut(maxBytes, f, HeaderWritten(pieces, f, j));
    }
  }

  lemma NoneLeftOut(maxBytes: nat, f: FileDiff, headerWritten: bool)
    ensures AllLeftOut(maxBytes, f, [], headerWritten)
  {
  }

  /** If a packer goes silent in a file, the file's text does not fit. */
  lemma SilentExceeds(maxBytes: nat, pieces: seq<Piece>, f: FileDiff, hunks: seq<Hunk>, j: nat)
    requires SilentAt(maxBytes, pieces, f, hunks, j)
    ensures !Within(maxBytes, AddHunks(pieces, f, hunks))
  {
    hide AddHunks, Render;
    AddHunksGrow(pieces, f, hunks, j + 1);
  }

  /** What the packer has become after some hunks of a file. */
  ghost predicate Became(maxBytes: nat, pieces: seq<Piece>, f: FileDiff, hunks: seq<Hunk>, s: PackState) {
    if Within(maxBytes, AddHunks(pieces, f, hunks)) then
      Clean(s, AddHunks(pieces, f, hunks)) && s.headerIncluded == HeaderWritten(pieces, f, |hunks|)
    else
      && (Silent(s) || Noted(s) || Shown(s))
      && (Silent(s) <==> SilentIn(maxBytes, pieces, f, hunks))
      && (forall j :: SilentAt(maxBytes, pieces, f, hunks, j) ==> s.headerIncluded == HeaderWritten(pieces, f, j))
  }

  lemma {:induction false} CleanHunks(maxBytes: nat, st: PackState, pieces: seq<Piece>, f: FileDiff, hunks: seq<Hunk>)
    requires Clean(st, pieces) && Within(maxBytes, pieces) && !st.headerIncluded
    ensures Became(maxBytes, pieces, f, hunks, PackHunks(maxBytes, st, f, hunks))
  {
    if hunks != [] {
      hide PackHunk, Clean, Silent, Noted, Shown, Within, LeftOut, HeaderWritten, SilentAt, Became;
      var front, h := hunks[..|hunks| - 1], hunks[|hunks| - 1];
      var mid := PackHunks(maxBytes, st, f, front);
      CleanHunks(maxBytes, st, pieces, f, front);
      if Within(maxBytes, AddHunks(pieces, f, front)) {
        BecameFromClean(maxBytes, pieces, f, hunks, mid);
      } else {
        BecameFromElse(maxBytes, pieces, f, hunks, mid);
      }
    }
  }

  lemma BecameFromClean(maxBytes: nat, pieces: seq<Piece>, f: FileDiff, hunks: seq<Hunk>, mid: PackState)
    requires hunks != [] && Became(maxBytes, pieces, f, hunks[..|hunks| - 1], mid)
    requires Within(maxBytes, AddHunks(pieces, f, hunks[..|hunks| - 1]))
    ensures Became(maxBytes, pieces, f, hunks, PackHunk(maxBytes, mid, f, hunks[|hunks| - 1]))
  {
    hide PackHunk, Clean, Silent, Noted, Shown, Within, LeftOut, AddHunk, SilentAt;
    var front, h := hunks[..|hunks| - 1], hunks[|hunks| - 1];
    var s := PackHunk(maxBytes, mid, f, h);
    AddHunksGrow(pieces, f, front, |front|);
    assert front[..|front|] == front;
    CleanHunk(maxBytes, mid, AddHunks(pieces, f, front), f, h);
    KeepsPath(pieces, f, front);
    forall j: nat | SilentAt(maxBytes, pieces, f, hunks, j)
      ensures j == |front|
    {
      SilentAtIndex(maxBytes, pieces, f, hunks, j);
      SilentAtSnoc(maxBytes, pieces, f, hunks, j);
      if j < |front| {
        SilentExceeds(maxBytes, pieces, f, front, j);
      }
    }
    SilentAtSnoc(maxBytes, pieces, f, hunks, |front|);
  }

  lemma SilentAtIndex(maxBytes: nat, pieces: seq<Piece>, f: FileDiff, hunks: seq<Hunk>, j: nat)
    requires SilentAt(maxBytes, pieces, f, hunks, j)
    ensures j < |hunks|
  {
  }

  /** The header of a file is in a window as soon as one of its hunks is. */
  lemma {:induction false} KeepsPath(pieces: seq<Piece>, f: FileDiff, hunks: seq<Hunk>)
    ensures f.path in FilesOf(AddHunks(pieces, f, hunks)) <==> hunks != [] || f.path in FilesOf(pieces)
  {
    hide AddHunk, FilesOf;
    if hunks != [] {
      AddHunkSize(AddHunks(pieces, f, hunks[..|hunks| - 1]), f, hunks[|hunks| - 1]);
    }
  }

  lemma BecameFromElse(maxBytes: nat, pieces: seq<Piece>, f: FileDiff, hunks: seq<Hunk>, mid: PackState)
    requires hunks != [] && Became(maxBytes, pieces, f, hunks[..|hunks| - 1], mid)
    requires !Within(maxBytes, AddHunks(pieces, f, hunks[..|hunks| - 1]))
    ensures Became(maxBytes, pieces, f, hunks, PackHunk(maxBytes, mid, f, hunks[|hunks| - 1]))
  {
    hide PackHunk, Clean, Silent, Noted, Shown, LeftOut, AddHunk, SilentAt, Render, HeaderWritten, AddHunks;
    var front, h := hunks[..|hunks| - 1], hunks[|hunks| - 1];
    var s := PackHunk(maxBytes, mid, f, h);
    AddHunksGrow(pieces, f, hunks, |front|);
    PackHunkFollows(maxBytes, mid, f, h);
    ShownNotSilent(mid);
    ShownNotSilent(s);
    if Silent(mid) {
      SilentHunk(maxBytes, mid, f, h);
    }
    forall j: nat | SilentAt(maxBytes, pieces, f, hunks, j)
      ensures j < |front| && SilentAt(maxBytes, pieces, f, front, j)
        && LeftOut(maxBytes, f, h, HeaderWritten(pieces, f, j))
    {
      SilentAtIndex(maxBytes, pieces, f, hunks, j);
      SilentAtSnoc(maxBytes, pieces, f, hunks, j);
    }
    forall j: nat | SilentAt(maxBytes, pieces, f, front, j)
      ensures SilentAt(maxBytes, pieces, f, hunks, j) <==> LeftOut(maxBytes, f, h, HeaderWritten(pieces, f, j))
    {
      SilentAtIndex(maxBytes, pieces, f, front, j);
      SilentAtSnoc(maxBytes, pieces, f, hunks, j);
    }
  }

  // ----- Over the files -----

  /** The packer goes silent in file `i`: all files before it have text and fit into one window, and
      everything after is left out or has no text. */
  ghost predicate SilentFrom(maxBytes: nat, files: seq<FileDiff>, i: nat) {
    && i < |files|
    && AllText(files[..i]) && HasText(files[i])
    && Within(maxBytes, OneWindow(files[..i]))
    && SilentIn(maxBytes, OneWindow(files[..i]), files[i], files[i].hunks)
    && RestLeftOut(maxBytes, files[i + 1..])
  }

  predicate RestLeftOut(maxBytes: nat, files: seq<FileDiff>) {
    forall k :: 0 <= k < |files| && HasText(files[k]) ==> AllLeftOut(maxBytes, files[k], files[k].hunks, false)
  }

  ghost predicate SilentLoss(maxBytes: nat, files: seq<FileDiff>) {
    exists i :: SilentFrom(maxBytes, files, i)
  }

  predicate AllFits(maxBytes: nat, files: seq<FileDiff>) {
    AllText(files) && Within(maxBytes, OneWindow(files))
  }

  /** What the packer has become after some files. */
  ghost predicate Stands(maxBytes: nat, files: seq<FileDiff>, s: PackState) {
    if AllFits(maxBytes, files) then Clean(s, OneWindow(files))
    else (Silent(s) || Noted(s) || Shown(s)) && (Silent(s) <==> SilentLoss(maxBytes, files))
  }

  lemma AllTextSnoc(files: seq<FileDiff>)
    requires files != []
    ensures AllText(files) <==> AllText(files[..|files| - 1]) && HasText(files[|files| - 1])
  {
    hide HasText;
    assert files == files[..|files| - 1] + [files[|files| - 1]];
  }

  lemma SilentFromSnoc(maxBytes: nat, files: seq<FileDiff>, i: nat)
    requires i < |files|
    ensures var front, f := files[..|files| - 1], files[|files| - 1];
      SilentFrom(maxBytes, files, i) <==>
        if i < |front| then
          SilentFrom(maxBytes, front, i) && (HasText(f) ==> AllLeftOut(maxBytes, f, f.hunks, false))
        else AllFits(maxBytes, front) && HasText(f) && SilentIn(maxBytes, OneWindow(front), f, f.hunks)
  {
    hide OneWindow, Within, AllLeftOut, HasText, AllText, SilentIn;
    var front, f := files[..|files| - 1], files[|files| - 1];
    if i < |front| {
      assert front[..i] == files[..i];
      var rest := files[i + 1..];
      assert rest[..|rest| - 1] == front[i + 1..] && rest[|rest| - 1] == f;
      assert rest == front[i + 1..] + [f];
      RestSnoc(maxBytes, front[i + 1..], f);
    } else {
      assert files[i + 1..] == [];
    }
  }

  lemma RestSnoc(maxBytes: nat, rest: seq<FileDiff>, f: FileDiff)
    ensures RestLeftOut(maxBytes, rest + [f]) <==>
            RestLeftOut(maxBytes, rest) && (HasText(f) ==> AllLeftOut(maxBytes, f, f.hunks, false))
  {
    hide AllLeftOut, HasText;
    var all := rest + [f];
    assert all[|rest|] == f && forall k :: 0 <= k < |rest| ==> all[k] == rest[k];
  }

  /** One more file, from a clean packer. */
  lemma CleanFile(maxBytes: nat, st: PackState, pieces: seq<Piece>, f: FileDiff)
    requires Clean(st, pieces) && Within(maxBytes, pieces)
    ensures var s, more := PackFile(maxBytes, st, f), AddHunks(pieces, f, f.hunks);
      if HasText(f) && Within(maxBytes, more) then Clean(s, more)
      else
        && (Silent(s) || Noted(s) || Shown(s))
        && (Silent(s) <==> HasText(f) && SilentIn(maxBytes, pieces, f, f.hunks))
  {
    if HasText(f) && f.hunks != [] {
      CleanHunks(maxBytes, st.(headerIncluded := false), pieces, f, f.hunks);
      assert Became(maxBytes, pieces, f, f.hunks, PackFile(maxBytes, st, f));
      hide AddHunks, Within, SilentAt, LeftOut, Clean, Silent, Noted, Shown, PackHunks;
    } else {
      hide Within, LeftOut;
    }
  }

  /** One more file, from any packer that is not clean. */
  lemma NextFile(maxBytes: nat, st: PackState, f: FileDiff)
    ensures Follows(st, PackFile(maxBytes, st, f))
    ensures Silent(st) ==>
      (Silent(PackFile(maxBytes, st, f)) <==> (HasText(f) ==> AllLeftOut(maxBytes, f, f.hunks, false)))
  {
    if HasText(f) && f.hunks != [] {
      var start := st.(headerIncluded := false);
      PackHunksFollow(maxBytes, start, f, f.hunks);
      if Silent(start) {
        SilentHunks(maxBytes, start, f, f.hunks);
      }
      hide PackHunks;
    }
  }

  lemma {:induction false} FilesStand(maxBytes: nat, files: seq<FileDiff>)
    ensures Stands(maxBytes, files, PackFiles(maxBytes, PackStart([]), files))
  {
    if files == [] {
      NothingInNothing();
      assert OneWindow([]) == [];
    } else {
      hide PackFile, Stands;
      var front := files[..|files| - 1];
      FilesStand(maxBytes, front);
      StandsNext(maxBytes, files, PackFiles(maxBytes, PackStart([]), front));
    }
  }

  lemma StandsNext(maxBytes: nat, files: seq<FileDiff>, st: PackState)
    requires files != [] && Stands(maxBytes, files[..|files| - 1], st)
    ensures Stands(maxBytes, files, PackFile(maxBytes, st, files[|files| - 1]))
  {
    hide Stands, AllFits, PackFile;
    if AllFits(maxBytes, files[..|files| - 1]) {
      StandsFromClean(maxBytes, files, st);
    } else {
      StandsFromElse(maxBytes, files, st);
    }
  }

  lemma StandsFromClean(maxBytes: nat, files: seq<FileDiff>, st: PackState)
    requires files != [] && Stands(maxBytes, files[..|files| - 1], st) && AllFits(maxBytes, files[..|files| - 1])
    ensures Stands(maxBytes, files, PackFile(maxBytes, st, files[|files| - 1]))
  {
    hide PackFile, Clean, Silent, Noted, Shown, Within, HasText, AllText, AddHunks, AllLeftOut, SilentIn,
      RestLeftOut, SilentFrom;
    var front, f := files[..|files| - 1], files[|files| - 1];
    AllTextSnoc(files);
    OneWindowGrows(front, files);
    CleanFile(maxBytes, st, OneWindow(front), f);
    SilentFromSnoc(maxBytes, files, |front|);
    if !SilentFrom(maxBytes, files, |front|) {
      forall i: nat
        ensures !SilentFrom(maxBytes, files, i)
      {
        if SilentFrom(maxBytes, files, i) {
          SilentFromIndex(maxBytes, files);
          SilentFromSnoc(maxBytes, files, i);
          NotSilentFrom(maxBytes, front, i);
        }
      }
    }
  }

  lemma StandsFromElse(maxBytes: nat, files: seq<FileDiff>, st: PackState)
    requires files != [] && Stands(maxBytes, files[..|files| - 1], st) && !AllFits(maxBytes, files[..|files| - 1])
    ensures Stands(maxBytes, files, PackFile(maxBytes, st, files[|files| - 1]))
  {
    FitsPrefix(maxBytes, files);
    hide PackFile, Clean, Silent, Noted, Shown, Within, HasText, AllText, AddHunks, AllLeftOut, SilentIn, SilentFrom,
      AllFits;
    var front, f := files[..|files| - 1], files[|files| - 1];
    var s := PackFile(maxBytes, st, f);
    NextFile(maxBytes, st, f);
    SomeFollows(st, s);
    SilentFromIndex(maxBytes, files);
    SilentFromIndex(maxBytes, front);
    if SilentLoss(maxBytes, files) {
      var i: nat :| SilentFrom(maxBytes, files, i);
      SilentFromSnoc(maxBytes, files, i);
      assert SilentFrom(maxBytes, front, i);
    }
    if Silent(st) {
      var i: nat :| SilentFrom(maxBytes, front, i);
      assert i < |front|;
      SilentFromSnoc(maxBytes, files, i);
    }
  }

  lemma FitsPrefix(maxBytes: nat, files: seq<FileDiff>)
    requires files != []
    ensures AllFits(maxBytes, files) ==> AllFits(maxBytes, files[..|files| - 1])
  {
    hide HasText, Render, OneWindow;
    AllTextSnoc(files);
    OneWindowGrows(files[..|files| - 1], files);
  }

  /** A packer that is not clean does not become clean, and only a silent one stays silent. */
  lemma SomeFollows(st: PackState, s: PackState)
    requires Follows(st, s) && (Silent(st) || Noted(st) || Shown(st))
    ensures (Silent(s) || Noted(s) || Shown(s)) && (Silent(s) ==> Silent(st))
  {
  }

  lemma SilentFromIndex(maxBytes: nat, files: seq<FileDiff>)
    ensures forall i: nat :: SilentFrom(maxBytes, files, i) ==> i < |files|
  {
  }

  lemma OneWindowGrows(front: seq<FileDiff>, files: seq<FileDiff>)
    requires files != [] && front == files[..|files| - 1]
    ensures OneWindow(files) == AddHunks(OneWindow(front), files[|files| - 1], files[|files| - 1].hunks)
    ensures |Render(OneWindow(front))| <= |Render(OneWindow(files))|
  {
    hide Render;
    AddHunksGrow(OneWindow(front), files[|files| - 1], files[|files| - 1].hunks, 0);
    assert AddHunks(OneWindow(front), files[|files| - 1], []) == OneWindow(front);
    assert files[|files| - 1].hunks[..0] == [];
  }

  /** What fits altogether is not left out. */
  lemma NotSilentFrom(maxBytes: nat, files: seq<FileDiff>, i: nat)
    requires AllFits(maxBytes, files)
    ensures !SilentFrom(maxBytes, files, i)
  {
    if i < |files| {
      var f, pieces := files[i], OneWindow(files[..i]);
      OneWindowPrefix(files, i + 1);
      assert files[..i + 1][..i] == files[..i];
      OneWindowGrows(files[..i], files[..i + 1]);
      assert Within(maxBytes, AddHunks(pieces, f, f.hunks));
      hide Within, AddHunks, OneWindow, SilentAt, AllText, RestLeftOut;
      if j: nat :| SilentAt(maxBytes, pieces, f, f.hunks, j) {
        SilentExceeds(maxBytes, pieces, f, f.hunks, j);
      }
    }
  }

  lemma {:induction false} OneWindowPrefix(files: seq<FileDiff>, i: nat)
    requires i <= |files|
    ensures |Render(OneWindow(files[..i]))| <= |Render(OneWindow(files))|
    decreases |files|
  {
    hide Render, OneWindow;
    if i == |files| {
      assert files[..i] == files;
    } else {
      var front := files[..|files| - 1];
      assert front[..i] == files[..i];
      OneWindowPrefix(front, i);
      OneWindowGrows(front, files);
    }
  }

  // ----- What became of the hunks -----

  predicate SomePlaced(fates: seq<Fate>) {
    exists i :: 0 <= i < |fates| && fates[i].Placed?
  }

  predicate LastRejected(fates: seq<Fate>) {
    fates != [] && fates[|fates| - 1].Rejected?
  }

  /** The window being filled is empty exactly when no hunk was offered yet or the last one was rejected. */
  predicate InStep(st: PackState) {
    && (st.cur.pieces == [] <==> st.fates == [] || LastRejected(st.fates))
    && (st.done != [] ==> SomePlaced(st.fates))
    && (st.cur.pieces == [] && SomePlaced(st.fates) ==> st.done != [])
    && (LastRejected(st.fates) ==> st.cur.omissions != [])
  }

  lemma SomePlacedSnoc(fates: seq<Fate>, fate: Fate)
    ensures SomePlaced(fates + [fate]) <==> SomePlaced(fates) || fate.Placed?
  {
    var all := fates + [fate];
    assert all[|fates|] == fate && forall i :: 0 <= i < |fates| ==> all[i] == fates[i];
  }

  lemma PackHunkInStep(maxBytes: nat, st: PackState, f: FileDiff, h: Hunk)
    requires InStep(st)
    ensures InStep(PackHunk(maxBytes, st, f, h))
  {
    hide HeaderText, HunkText, Render, HunksOf, FilesOf, OversizedReason, Size, SomePlaced;
    SomePlacedSnoc(st.fates, Placed(f, h));
    SomePlacedSnoc(st.fates, Rejected(f, h));
    if st.cur.pieces != [] {
      LastPlaced(st.fates);
    }
  }

  lemma LastPlaced(fates: seq<Fate>)
    ensures fates != [] && !LastRejected(fates) ==> SomePlaced(fates)
  {
    if fates != [] && !LastRejected(fates) {
      assert fates[|fates| - 1].Placed?;
    }
  }

  lemma {:induction false} PackHunksInStep(maxBytes: nat, st: PackState, f: FileDiff, hunks: seq<Hunk>)
    requires InStep(st)
    ensures InStep(PackHunks(maxBytes, st, f, hunks))
  {
    hide PackHunk, InStep;
    if hunks != [] {
      PackHunksInStep(maxBytes, st, f, hunks[..|hunks| - 1]);
      PackHunkInStep(maxBytes, PackHunks(maxBytes, st, f, hunks[..|hunks| - 1]), f, hunks[|hunks| - 1]);
    }
  }

  lemma {:induction false} PackFilesInStep(maxBytes: nat, omissions: seq<Omission>, files: seq<FileDiff>)
    ensures InStep(PackFiles(maxBytes, PackStart(omissions), files))
  {
    if files != [] {
      hide PackHunks;
      var f := files[|files| - 1];
      PackFilesInStep(maxBytes, omissions, files[..|files| - 1]);
      var st := PackFiles(maxBytes, PackStart(omissions), files[..|files| - 1]);
      if HasText(f) && f.hunks != [] {
        PackHunksInStep(maxBytes, st.(headerIncluded := false), f, f.hunks);
      }
    }
  }

  /** Omissions are lost exactly when the last hunk offered was rejected and an earlier one was placed. */
  lemma LostIffLastRejected(inv: ChangeInventory, maxBytes: nat)
    ensures var fates := Pack(inv, maxBytes).fates;
      Lost(inv, maxBytes) != [] <==> LastRejected(fates) && SomePlaced(fates)
  {
    hide PackFiles, SomePlaced;
    PackFilesInStep(maxBytes, inv.omissions, inv.files);
    NoFates(Pack(inv, maxBytes).fates);
  }

  /** Said of sizes: a last hunk that is too big alone is lost if any hunk fits with its header, and a last
      hunk that fits with its header loses nothing. */
  lemma LastHunkDecides(inv: ChangeInventory, maxBytes: nat)
    requires Offered(inv.files) != []
    ensures var offered := Offered(inv.files); var last := offered[|offered| - 1];
      && (|HunkText(last.hunk)| > maxBytes
          && (exists i :: 0 <= i < |offered| && |HeaderText(offered[i].file)| + |HunkText(offered[i].hunk)| <= maxBytes)
          ==> Lost(inv, maxBytes) != [])
      && (|HeaderText(last.file)| + |HunkText(last.hunk)| <= maxBytes ==> Lost(inv, maxBytes) == [])
  {
    hide PackFiles, HeaderText, HunkText, Render, DraftHunks, Drafts, Lost, RejectsRecorded, TextlessRecorded,
      OmissionsOf;
    WindowsSound(inv, maxBytes);
    LostIffLastRejected(inv, maxBytes);
    var offered, fates := Offered(inv.files), Pack(inv, maxBytes).fates;
    assert fates[|fates| - 1] in fates;
    if i :| 0 <= i < |offered| && |HeaderText(offered[i].file)| + |HunkText(offered[i].hunk)| <= maxBytes {
      assert fates[i] in fates && fates[i].file == offered[i].file && fates[i].hunk == offered[i].hunk;
    }
  }

  // ----- Completeness -----

  lemma {:induction false} PlacedCount(fates: seq<Fate>)
    ensures |PlacedHunks(fates)| <= |fates|
    ensures |PlacedHunks(fates)| == |fates| <==> AllPlacedFates(fates)
    ensures AllPlacedFates(fates) ==> forall i :: 0 <= i < |fates| ==> PlacedHunks(fates)[i] == fates[i].hunk
  {
    if fates != [] {
      var front := fates[..|fates| - 1];
      PlacedCount(front);
      assert fates == front + [fates[|fates| - 1]];
      assert AllPlacedFates(fates) <==> AllPlacedFates(front) && fates[|fates| - 1].Placed?;
    }
  }

  lemma {:induction false} OfferedHunks(f: FileDiff, hunks: seq<Hunk>)
    ensures |AllPlaced(f, hunks)| == |hunks|
    ensures forall i :: 0 <= i < |hunks| ==> AllPlaced(f, hunks)[i].hunk == hunks[i]
  {
    if hunks != [] {
      OfferedHunks(f, hunks[..|hunks| - 1]);
    }
  }

  /** If every file has text, the hunks offered are all hunks. */
  lemma {:induction false} AllOffered(files: seq<FileDiff>)
    requires AllText(files)
    ensures |Offered(files)| == |AllHunks(files)|
    ensures forall i :: 0 <= i < |AllHunks(files)| ==> Offered(files)[i].hunk == AllHunks(files)[i]
  {
    if files != [] {
      var front, f := files[..|files| - 1], files[|files| - 1];
      assert f in files && forall g :: g in front ==> g in files;
      AllOffered(front);
      OfferedHunks(f, f.hunks);
      hide HasText, AllPlaced;
    }
  }

  lemma HunksHeldIffAllPlaced(inv: ChangeInventory, maxBytes: nat)
    requires AllText(inv.files)
    ensures DraftHunks(Drafts(inv, maxBytes)) == AllHunks(inv.files) <==> AllPlacedFates(Pack(inv, maxBytes).fates)
  {
    hide PackFiles, FateJust, RejectsRecorded, TextlessRecorded, Drafts, PlacedHunks, AllText, Offered, AllHunks;
    WindowsSound(inv, maxBytes);
    var fates := Pack(inv, maxBytes).fates;
    PlacedCount(fates);
    AllOffered(inv.files);
    if AllPlacedFates(fates) {
      assert PlacedHunks(fates) == AllHunks(inv.files);
    }
  }

  /** The first window carries the omissions of the inventory. */
  lemma OmissionsFlag(inv: ChangeInventory, maxBytes: nat)
    ensures Unflagged(inv, maxBytes) ==> !inv.truncated && inv.omissions == []
  {
    hide PackFiles, Render, HunksOf, Sound, SameHunks, TextlessRecorded;
    PackFilesKeep(maxBytes, inv.omissions, inv.files);
    var ds := Drafts(inv, maxBytes);
    assert ds[0] in ds;
  }

  /** Which packers end without a flag. */
  lemma UnflaggedByMode(inv: ChangeInventory, maxBytes: nat)
    requires !inv.truncated && inv.omissions == []
    ensures var st := Pack(inv, maxBytes);
      && (Silent(st) ==> Unflagged(inv, maxBytes) && !AllPlacedFates(st.fates))
      && (Noted(st) || Shown(st) ==> !Unflagged(inv, maxBytes))
      && (Clean(st, st.cur.pieces) ==> Unflagged(inv, maxBytes) && AllPlacedFates(st.fates))
  {
    hide PackFiles, SomePlaced;
    var st := Pack(inv, maxBytes);
    PackFilesInStep(maxBytes, inv.omissions, inv.files);
    var ds := Drafts(inv, maxBytes);
    assert ds[0] in ds;
    if Silent(st) {
      NoFates(st.fates);
      assert st.fates[|st.fates| - 1].Rejected?;
    }
  }

  lemma NoFates(fates: seq<Fate>)
    ensures fates == [] ==> !SomePlaced(fates)
  {
  }

  /** The windows hold everything and carry no flag exactly when the inventory is whole, every file has text
      and hunks, and all of it fits into one window. */
  lemma CompleteUnflaggedIff(inv: ChangeInventory, maxBytes: nat)
    ensures Complete(inv, maxBytes) && Unflagged(inv, maxBytes) <==>
            !inv.truncated && inv.omissions == [] && AllFits(maxBytes, inv.files) && AllNamed(inv.files)
  {
    hide Complete, Unflagged, Pack, Clean, Silent, Noted, Shown, AllFits, SilentLoss, AllNamed;
    OmissionsFlag(inv, maxBytes);
    if !inv.truncated && inv.omissions == [] {
      Outcome(inv, maxBytes);
    }
  }

  /** Something is missing and no flag says so exactly when the inventory is whole and either, at some hunk,
      the text before it fits into one window, it fits neither there nor into a window of its own, and
      nothing after it fits; or all hunks fit into one window, and some file has none. */
  lemma SilentLossIff(inv: ChangeInventory, maxBytes: nat)
    ensures !Complete(inv, maxBytes) && Unflagged(inv, maxBytes) <==>
            && !inv.truncated && inv.omissions == []
            && (SilentLoss(maxBytes, inv.files) || (AllFits(maxBytes, inv.files) && !AllNamed(inv.files)))
  {
    hide Complete, Unflagged, Pack, Clean, Silent, Noted, Shown, AllFits, SilentLoss, AllNamed;
    OmissionsFlag(inv, maxBytes);
    if !inv.truncated && inv.omissions == [] {
      Outcome(inv, maxBytes);
    }
  }

  lemma Outcome(inv: ChangeInventory, maxBytes: nat)
    requires !inv.truncated && inv.omissions == []
    ensures AllFits(maxBytes, inv.files) ==> Unflagged(inv, maxBytes) && !SilentLoss(maxBytes, inv.files)
    ensures AllFits(maxBytes, inv.files) ==> (Complete(inv, maxBytes) <==> AllNamed(inv.files))
    ensures SilentLoss(maxBytes, inv.files) ==> !Complete(inv, maxBytes) && Unflagged(inv, maxBytes)
    ensures !AllFits(maxBytes, inv.files) && !SilentLoss(maxBytes, inv.files) ==> !Unflagged(inv, maxBytes)
  {
    hide PackFiles, Within, HasText, AllText, Drafts, Silent, Noted, Shown, Unflagged, AllPlacedFates, SilentFrom,
      Complete, AllNamed, AllListed;
    var st := Pack(inv, maxBytes);
    FilesStand(maxBytes, inv.files);
    UnflaggedByMode(inv, maxBytes);
    forall i: nat | AllFits(maxBytes, inv.files)
      ensures !SilentFrom(maxBytes, inv.files, i)
    {
      NotSilentFrom(maxBytes, inv.files, i);
    }
    CompleteParts(inv, maxBytes);
    if AllText(inv.files) {
      HunksHeldIffAllPlaced(inv, maxBytes);
    }
    if AllFits(maxBytes, inv.files) {
      ListedIffNamed(inv, maxBytes);
    }
  }

  lemma CompleteParts(inv: ChangeInventory, maxBytes: nat)
    ensures var ds := Drafts(inv, maxBytes);
      Complete(inv, maxBytes) <==>
        AllText(inv.files) && DraftHunks(ds) == AllHunks(inv.files) && AllListed(inv.files, ds)
  {
  }

  // ----- Files without hunks -----

  lemma {:induction false} PathsOfHunks(pieces: seq<Piece>, f: FileDiff, hunks: seq<Hunk>)
    ensures forall p :: p in FilesOf(AddHunks(pieces, f, hunks)) <==>
              p in FilesOf(pieces) || (p == f.path && hunks != [])
  {
    hide FilesOf;
    if hunks != [] {
      var before := AddHunks(pieces, f, hunks[..|hunks| - 1]);
      PathsOfHunks(pieces, f, hunks[..|hunks| - 1]);
      var mid := if f.path in FilesOf(before) then before else before + [Header(f)];
      PiecesSnoc(before, Header(f));
      PiecesSnoc(mid, Body(f, hunks[|hunks| - 1]));
    }
  }

  ghost predicate HasHunksAt(files: seq<FileDiff>, path: string) {
    exists g :: g in files && g.path == path && g.hunks != []
  }

  /** The one window lists the paths of the files with hunks. */
  lemma {:induction false} PathsOfWindow(files: seq<FileDiff>)
    ensures forall p :: p in FilesOf(OneWindow(files)) <==> HasHunksAt(files, p)
  {
    if files == [] {
      NothingInNothing();
    } else {
      hide FilesOf, AddHunks;
      var front, f := files[..|files| - 1], files[|files| - 1];
      PathsOfWindow(front);
      PathsOfHunks(OneWindow(front), f, f.hunks);
      assert files == front + [f];
      assert forall p :: HasHunksAt(files, p) <==> HasHunksAt(front, p) || (f.path == p && f.hunks != []);
    }
  }

  lemma ListedIffNamed(inv: ChangeInventory, maxBytes: nat)
    requires Clean(Pack(inv, maxBytes), OneWindow(inv.files))
    ensures AllListed(inv.files, Drafts(inv, maxBytes)) <==> AllNamed(inv.files)
  {
    PathsOfWindow(inv.files);
    hide Pack, FilesOf, OneWindow;
    var ds, d := Drafts(inv, maxBytes), Pack(inv, maxBytes).cur;
    assert ds == [d] && d.pieces == OneWindow(inv.files);
    forall f | f in inv.files
      ensures (exists e :: e in ds && f.path in FilesOf(e.pieces)) <==> HasHunksAt(inv.files, f.path)
    {
      assert d in ds;
    }
  }

  predicate DistinctPaths(files: seq<FileDiff>) {
    forall i, j :: 0 <= i < j < |files| ==> files[i].path != files[j].path
  }

  /** With distinct paths every file needs hunks of its own. */
  lemma DistinctNamed(files: seq<FileDiff>)
    requires DistinctPaths(files)
    ensures AllNamed(files) <==> forall f :: f in files ==> f.hunks != []
  {
    forall f, g | f in files && g in files && g.path == f.path
      ensures f == g
    {
      var i :| 0 <= i < |files| && files[i] == f;
      var j :| 0 <= j < |files| && files[j] == g;
    }
  }

  /** The lines git writes for a file that is only renamed. */
  function RenameLines(git: Line, similarity: Line, oldName: Line, newName: Line): seq<Line> {
    [git, similarity, "rename from " + oldName, "rename to " + newName]
  }

  /** The parser in the header of the only file. */
  predicate InHeader(st: ParseState) {
    && st == Diff.START.(curFile := st.curFile) && st.curFile.Some?
    && var f := st.curFile.value;
       f.hunks == [] && !f.isBinary && !f.isModeOnly && f.oldMode == ""
  }

  lemma GitLineRead(git: Line, o: ParseOptions)
    requires Resolved(o) && HasPrefix(git, "diff --git ")
    ensures InHeader(ParseLine(o, Diff.START, git))
  {
    hide Fields;
    assert [git] != [];
  }

  /** A header line that leaves what makes a file with text as it is. */
  predicate Harmless(f: FileDiff, line: Line) {
    var r := ReadHeaderLine(f, line);
    && r.Some?
    && var g := r.value;
       g.hunks == f.hunks && g.isBinary == f.isBinary && g.isModeOnly == f.isModeOnly && g.oldMode == f.oldMode
  }

  lemma OtherStart(line: Line, prefix: string)
    ensures prefix != "" && (line == "" || line[0] != prefix[0]) ==> !HasPrefix(line, prefix)
  {
  }

  lemma NoModeLine(line: Line)
    requires line != "" && (line[0] == 's' || line[0] == 'r')
    ensures !HasPrefix(line, "old mode ") && !HasPrefix(line, "new mode ")
    ensures !HasPrefix(line, "new file mode ") && !HasPrefix(line, "deleted file mode ")
    ensures line[0] == 'r' ==>
      !HasPrefix(line, "similarity index ") && !HasPrefix(line, "Binary files ") && !HasPrefix(line, "GIT binary patch")
  {
    hide HasPrefix;
    OtherStart(line, "old mode ");
    OtherStart(line, "new mode ");
    OtherStart(line, "new file mode ");
    OtherStart(line, "deleted file mode ");
    OtherStart(line, "similarity index ");
    OtherStart(line, "Binary files ");
    OtherStart(line, "GIT binary patch");
  }

  lemma SimilarityHeader(f: FileDiff, line: Line)
    requires HasPrefix(line, "similarity index ")
    ensures Harmless(f, line)
  {
    assert line[0] == 's';
    hide HasPrefix, Atoi, TrimSuffix, TrimPrefix, ReadPathLine;
    NoModeLine(line);
  }

  lemma RenameHeader(f: FileDiff, line: Line)
    requires HasPrefix(line, "rename from ") || HasPrefix(line, "rename to ")
    ensures Harmless(f, line) && ReadHeaderLine(f, line).value.isRename
    ensures HasPrefix(line, "rename to ") ==> ReadHeaderLine(f, line).value.path == line[10..]
  {
    assert line[0] == 'r' && (HasPrefix(line, "rename from ") ==> line[7] == 'f');
    assert HasPrefix(line, "rename to ") ==> line[7] == 't' && TrimPrefix(line, "rename to ") == line[10..];
    hide HasPrefix, Atoi, TrimSuffix, TrimPrefix;
    NoModeLine(line);
  }

  lemma HeaderRead(st: ParseState, line: Line, o: ParseOptions)
    requires Resolved(o) && InHeader(st) && Harmless(st.curFile.value, line)
    requires line != "" && line[0] != 'd' && line[0] != '-'
    ensures var s := ParseLine(o, st, line);
      InHeader(s) && s.curFile == ReadHeaderLine(st.curFile.value, line)
  {
    hide ReadHeaderLine, OpenFile, FlushFile;
  }

  lemma RenameParses(git: Line, similarity: Line, oldName: Line, newName: Line, o: ParseOptions)
    requires Resolved(o) && HasPrefix(git, "diff --git ") && HasPrefix(similarity, "similarity index ")
    ensures var st := ParseLines(o, Diff.START, RenameLines(git, similarity, oldName, newName));
      InHeader(st) && st.curFile.value.path == newName && st.curFile.value.isRename
  {
    var a: Line, b: Line := "rename from " + oldName, "rename to " + newName;
    assert HasPrefix(a, "rename from ") && HasPrefix(b, "rename to ") && b[10..] == newName;
    assert a[0] == 'r' && b[0] == 'r' && similarity[0] == 's';
    hide ParseLine, ParseLines, HasPrefix, ReadHeaderLine;
    var s1 := ParseLine(o, Diff.START, git);
    GitLineRead(git, o);
    SimilarityHeader(s1.curFile.value, similarity);
    HeaderRead(s1, similarity, o);
    var s2 := ParseLine(o, s1, similarity);
    RenameHeader(s2.curFile.value, a);
    HeaderRead(s2, a, o);
    var s3 := ParseLine(o, s2, a);
    RenameHeader(s3.curFile.value, b);
    HeaderRead(s3, b, o);
    FourLines(o, git, similarity, a, b);
  }

  lemma FourLines(o: ParseOptions, a: Line, b: Line, c: Line, d: Line)
    requires Resolved(o)
    ensures ParseLines(o, Diff.START, [a, b, c, d])
         == ParseLine(o, ParseLine(o, ParseLine(o, ParseLine(o, Diff.START, a), b), c), d)
  {
    hide ParseLine;
    assert [] + [a] == [a] && [a] + [b] == [a, b] && [a, b] + [c] == [a, b, c] && [a, b, c] + [d] == [a, b, c, d];
    ParseLinesSnoc(o, Diff.START, [], a);
    ParseLinesSnoc(o, Diff.START, [a], b);
    ParseLinesSnoc(o, Diff.START, [a, b], c);
    ParseLinesSnoc(o, Diff.START, [a, b, c], d);
  }

  /** The diff of a renamed file is parsed whole and without a complaint, and its only window is empty, lists
      no file and carries no flag. */
  lemma RenameIsDropped(git: Line, similarity: Line, oldName: Line, newName: Line, options: ParseOptions, maxBytes: nat)
    requires HasPrefix(git, "diff --git ") && HasPrefix(similarity, "similarity index ")
    requires |Join(RenameLines(git, similarity, oldName, newName))| <= ResolveOptions(options).maxBytes
    ensures var inv := ParseSpec(Join(RenameLines(git, similarity, oldName, newName)), options);
      && |inv.files| == 1 && inv.files[0].path == newName && inv.files[0].isRename
      && inv.omissions == [] && !inv.truncated
      && Drafts(inv, maxBytes) == [Draft([], [])] && Unflagged(inv, maxBytes) && !Complete(inv, maxBytes)
  {
    var lines, o := RenameLines(git, similarity, oldName, newName), ResolveOptions(options);
    var raw, st := Join(lines), ParseLines(o, Diff.START, lines);
    RenameParses(git, similarity, oldName, newName, o);
    SplitJoin(lines);
    RenameNotBlank(git, similarity, oldName, newName);
    RenameFlushed(st);
    hide ParseLines, Split, Join, TrimSpace, RenameLines, FlushFile, Drafts, Complete, Unflagged;
    assert ParseSpec(raw, options) == FlushFile(st).inv;
    RenamePacked(FlushFile(st).inv, maxBytes);
  }

  lemma RenameFlushed(st: ParseState)
    requires InHeader(st)
    ensures var inv := FlushFile(st).inv;
      inv == EMPTY_INVENTORY.(files := [st.curFile.value], totalFiles := 1) && HasText(st.curFile.value)
  {
  }

  lemma RenameNotBlank(git: Line, similarity: Line, oldName: Line, newName: Line)
    requires HasPrefix(git, "diff --git ")
    ensures TrimSpace(Join(RenameLines(git, similarity, oldName, newName))) != ""
  {
    var lines := RenameLines(git, similarity, oldName, newName);
    assert Join(lines)[0] == git[0] == 'd';
    TrimRightIs(Join(lines));
  }

  lemma RenamePacked(inv: ChangeInventory, maxBytes: nat)
    requires |inv.files| == 1 && inv.files[0].hunks == [] && HasText(inv.files[0])
    requires inv.omissions == [] && !inv.truncated
    ensures Drafts(inv, maxBytes) == [Draft([], [])] && Unflagged(inv, maxBytes) && !Complete(inv, maxBytes)
  {
    assert inv.files[..0] == [];
    assert inv.files[0] in inv.files;
    NothingInNothing();
    assert PackFiles(maxBytes, PackStart([]), inv.files[..0]) == PackStart([]);
    assert Pack(inv, maxBytes) == PackStart([]);
    hide PackFiles, FilesOf;
    assert forall d :: d in Drafts(inv, maxBytes) ==> d.pieces == [];
    assert !AllListed(inv.files, Drafts(inv, maxBytes));
  }

  /** The size of everything in one window: each header with hunks, and all hunks. */
  function TextSize(files: seq<FileDiff>): nat {
    if files == [] then 0
    else
      var f := files[|files| - 1];
      TextSize(files[..|files| - 1]) + (if f.hunks == [] then 0 else |HeaderText(f)| + HunksSize(f.hunks))
  }

  function HunksSize(hunks: seq<Hunk>): nat {
    if hunks == [] then 0 else HunksSize(hunks[..|hunks| - 1]) + |HunkText(hunks[|hunks| - 1])|
  }

  lemma {:induction false} AddHunksSize(pieces: seq<Piece>, f: FileDiff, hunks: seq<Hunk>)
    ensures |Render(AddHunks(pieces, f, hunks))| == |Render(pieces)| + HunksSize(hunks)
              + if hunks == [] || f.path in FilesOf(pieces) then 0 else |HeaderText(f)|
  {
    hide AddHunk, Render, FilesOf, HeaderText, HunkText;
    if hunks != [] {
      var front := hunks[..|hunks| - 1];
      AddHunksSize(pieces, f, front);
      AddHunkSize(AddHunks(pieces, f, front), f, hunks[|hunks| - 1]);
      KeepsPath(pieces, f, front);
    }
  }

  /** With distinct paths the size of one window is the sum of the sizes. */
  lemma {:induction false} OneWindowSize(files: seq<FileDiff>)
    requires DistinctPaths(files)
    ensures |Render(OneWindow(files))| == TextSize(files)
  {
    if files != [] {
      hide Render, AddHunks, FilesOf, HeaderText, HunksSize;
      var front, f := files[..|files| - 1], files[|files| - 1];
      OneWindowSize(front);
      PathsOfWindow(front);
      AddHunksSize(OneWindow(front), f, f.hunks);
      assert forall i :: 0 <= i < |front| ==> files[i].path != files[|files| - 1].path;
      OneWindowGrows(front, files);
      NoHunksNoSize(f);
    } else {
      NothingInNothing();
    }
  }

  lemma NoHunksNoSize(f: FileDiff)
    ensures f.hunks == [] ==> HunksSize(f.hunks) == 0
  {
  }
}
