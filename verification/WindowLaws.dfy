/** What the windows of a diff hold, said of the windows themselves: their text line by line, the hunks that
    were left out, and what parsing a window again gives. */
module WindowLaws {
  import opened Text
  import opened Diff
  import opened Pieces
  import opened Packing
  import A = Agreement
  import E = Engine
  import L = AddedLines
  import R = RoundTrip

  // ----- Pieces and their lines -----

  function FileLines(f: FileDiff): seq<Line> {
    if f.oldPath == "" then
      ["diff --git a/" + f.path + " b/" + f.path] + ["--- a/" + f.path, "+++ b/" + f.path]
    else
      ["diff --git a/" + f.oldPath + " b/" + f.path]
      + ["rename from " + f.oldPath, "rename to " + f.path]
      + ["--- a/" + f.oldPath, "+++ b/" + f.path]
  }

  /** A hunk without body lines is written with one empty line. */
  function HunkLines(h: Hunk): seq<Line> {
    [h.header] + if h.lines == [] then [""] else h.lines
  }

  function LinesOf(p: Piece): seq<Line> {
    match p
    case Header(f) => FileLines(f)
    case Body(_, h) => HunkLines(h)
  }

  function PathOf(p: Piece): seq<string> {
    if p.Header? then [p.file.path] else []
  }

  function BodyOf(p: Piece): seq<Piece> {
    if p.Body? then [p] else []
  }

  function Flat<T>(parts: seq<seq<T>>): seq<T> {
    if parts == [] then [] else parts[0] + Flat(parts[1..])
  }

  lemma {:induction false} FlatSnoc<T>(parts: seq<seq<T>>, last: seq<T>)
    ensures Flat(parts + [last]) == Flat(parts) + last
  {
    var all := parts + [last];
    if parts == [] {
      assert all[1..] == [] && Flat(all) == last + [];
    } else {
      assert all[1..] == parts[1..] + [last];
      FlatSnoc(parts[1..], last);
      assert parts[0] + (Flat(parts[1..]) + last) == parts[0] + Flat(parts[1..]) + last;
    }
  }

  function LinesIn(pieces: seq<Piece>): seq<Line> {
    Flat(seq(|pieces|, i requires 0 <= i < |pieces| => LinesOf(pieces[i])))
  }

  /** The files of the headers. */
  function PathsIn(pieces: seq<Piece>): seq<string> {
    Flat(seq(|pieces|, i requires 0 <= i < |pieces| => PathOf(pieces[i])))
  }

  function BodiesIn(pieces: seq<Piece>): seq<Piece> {
    Flat(seq(|pieces|, i requires 0 <= i < |pieces| => BodyOf(pieces[i])))
  }

  predicate AreHunks(hunks: seq<Hunk>, bodies: seq<Piece>) {
    |hunks| == |bodies| && forall i :: 0 <= i < |hunks| ==> bodies[i].Body? && bodies[i].hunk == hunks[i]
  }

  lemma LinesSnoc(pieces: seq<Piece>, p: Piece)
    ensures LinesIn(pieces + [p]) == LinesIn(pieces) + LinesOf(p)
  {
    hide LinesOf, Flat;
    var all := pieces + [p];
    var parts := seq(|pieces|, i requires 0 <= i < |pieces| => LinesOf(pieces[i]));
    assert seq(|all|, i requires 0 <= i < |all| => LinesOf(all[i])) == parts + [LinesOf(p)];
    FlatSnoc(parts, LinesOf(p));
  }

  lemma PathsSnoc(pieces: seq<Piece>, p: Piece)
    ensures PathsIn(pieces + [p]) == PathsIn(pieces) + PathOf(p)
  {
    hide PathOf, Flat;
    var all := pieces + [p];
    var parts := seq(|pieces|, i requires 0 <= i < |pieces| => PathOf(pieces[i]));
    assert seq(|all|, i requires 0 <= i < |all| => PathOf(all[i])) == parts + [PathOf(p)];
    FlatSnoc(parts, PathOf(p));
  }

  lemma BodiesSnoc(pieces: seq<Piece>, p: Piece)
    ensures BodiesIn(pieces + [p]) == BodiesIn(pieces) + BodyOf(p)
  {
    hide BodyOf, Flat;
    var all := pieces + [p];
    var parts := seq(|pieces|, i requires 0 <= i < |pieces| => BodyOf(pieces[i]));
    assert seq(|all|, i requires 0 <= i < |all| => BodyOf(all[i])) == parts + [BodyOf(p)];
    FlatSnoc(parts, BodyOf(p));
  }

  lemma LinesAre(p: Piece)
    ensures LinesOf(p) == R.PieceLines(p)
  {
  }

  lemma {:induction false} InPieces(pieces: seq<Piece>)
    ensures LinesIn(pieces) == R.LinesOfPieces(pieces)
    ensures PathsIn(pieces) == FilesOf(pieces)
    ensures AreHunks(HunksOf(pieces), BodiesIn(pieces))
  {
    if pieces != [] {
      var front, p := pieces[..|pieces| - 1], pieces[|pieces| - 1];
      InPieces(front);
      LinesSnoc(front, p);
      PathsSnoc(front, p);
      BodiesSnoc(front, p);
      LinesAre(p);
      hide R.PieceLines, LinesOf, LinesIn, PathsIn, BodiesIn;
      assert front + [p] == pieces;
    }
  }

  // ----- Which hunks are kept -----

  /** The pieces of the finished windows and of the one being filled. */
  function AllPieces(st: PackState): seq<Piece> {
    Flat(PartsOf(st.done)) + st.cur.pieces
  }

  function PartsOf(ds: seq<Draft>): seq<seq<Piece>> {
    seq(|ds|, i requires 0 <= i < |ds| => ds[i].pieces)
  }

  /** The hunks of the files with text, in order. */
  function TextBodies(files: seq<FileDiff>): seq<Piece> {
    Flat(seq(|files|, i requires 0 <= i < |files| => FileBodies(files[i])))
  }

  function FileBodies(f: FileDiff): seq<Piece> {
    if f.isBinary || f.isModeOnly then []
    else seq(|f.hunks|, i requires 0 <= i < |f.hunks| => Body(f, f.hunks[i]))
  }

  function Selected(all: seq<Piece>, kept: seq<bool>): seq<Piece>
    requires |all| == |kept|
  {
    Flat(seq(|all|, i requires 0 <= i < |all| => if kept[i] then [all[i]] else []))
  }

  lemma SelectedSnoc(all: seq<Piece>, kept: seq<bool>, p: Piece, k: bool)
    requires |all| == |kept|
    ensures Selected(all + [p], kept + [k]) == Selected(all, kept) + if k then [p] else []
  {
    hide Flat;
    var parts := seq(|all|, i requires 0 <= i < |all| => if kept[i] then [all[i]] else []);
    var all', kept' := all + [p], kept + [k];
    var last := if k then [p] else [];
    assert seq(|all'|, i requires 0 <= i < |all'| => if kept'[i] then [all'[i]] else []) == parts + [last];
    FlatSnoc(parts, last);
  }

  function FatesKept(fates: seq<Fate>): seq<bool> {
    seq(|fates|, i requires 0 <= i < |fates| => fates[i].Placed?)
  }

  function FateBodies(fates: seq<Fate>): seq<Piece> {
    seq(|fates|, i requires 0 <= i < |fates| => Body(fates[i].file, fates[i].hunk))
  }

  /** The bodies in the windows are those of the hunks placed. */
  ghost predicate BodiesKept(st: PackState) {
    BodiesIn(AllPieces(st)) == Selected(FateBodies(st.fates), FatesKept(st.fates))
  }

  lemma FinishPieces(st: PackState)
    ensures AllPieces(FinishWindow(st)) == AllPieces(st)
  {
    hide Flat;
    FlatSnoc(PartsOf(st.done), st.cur.pieces);
    assert PartsOf(st.done + [st.cur]) == PartsOf(st.done) + [st.cur.pieces];
  }

  lemma PlacePieces(st: PackState, f: FileDiff, h: Hunk)
    ensures AllPieces(Place(st, f, h))
         == AllPieces(st) + (if NeedsHeader(st, f) then [Header(f)] else []) + [Body(f, h)]
  {
    hide Flat, NeedsHeader;
  }

  lemma PlaceKeepsBodies(st: PackState, f: FileDiff, h: Hunk)
    requires BodiesKept(st)
    ensures BodiesKept(Place(st, f, h))
  {
    var all := AllPieces(st);
    var fates := Place(st, f, h).fates;
    PlacePieces(st, f, h);
    var mid := if NeedsHeader(st, f) then all + [Header(f)] else all;
    BodiesSnoc(all, Header(f));
    BodiesSnoc(mid, Body(f, h));
    SelectedSnoc(FateBodies(st.fates), FatesKept(st.fates), Body(f, h), true);
    assert FateBodies(fates) == FateBodies(st.fates) + [Body(f, h)] && FatesKept(fates) == FatesKept(st.fates) + [true];
    hide BodiesIn, Selected, AllPieces;
    assert AllPieces(Place(st, f, h)) == mid + [Body(f, h)];
  }

  lemma RejectKeepsBodies(st: PackState, f: FileDiff, h: Hunk, cost: nat, maxBytes: nat)
    requires BodiesKept(st)
    ensures BodiesKept(Reject(st, f, h, cost, maxBytes))
  {
    hide OversizedReason, BodiesIn;
    SelectedSnoc(FateBodies(st.fates), FatesKept(st.fates), Body(f, h), false);
    hide Selected;
    var fates := Reject(st, f, h, cost, maxBytes).fates;
    assert FateBodies(fates) == FateBodies(st.fates) + [Body(f, h)];
    assert FatesKept(fates) == FatesKept(st.fates) + [false];
    assert AllPieces(Reject(st, f, h, cost, maxBytes)) == AllPieces(st);
  }

  lemma PackHunkKeepsBodies(maxBytes: nat, st: PackState, f: FileDiff, h: Hunk)
    requires BodiesKept(st)
    ensures BodiesKept(PackHunk(maxBytes, st, f, h))
  {
    FinishPieces(st);
    assert BodiesKept(FinishWindow(st));
    hide BodiesKept, Place, Reject, FinishWindow, HeaderText, HunkText, Size, Cost;
    var next, cost, full := FinishWindow(st), Cost(st, f, h), |HeaderText(f)| + |HunkText(h)|;
    PlaceKeepsBodies(st, f, h);
    PlaceKeepsBodies(next, f, h);
    RejectKeepsBodies(st, f, h, cost, maxBytes);
    RejectKeepsBodies(next, f, h, full, maxBytes);
  }

  lemma {:induction false} PackHunksKeepBodies(maxBytes: nat, st: PackState, f: FileDiff, hunks: seq<Hunk>)
    requires BodiesKept(st)
    ensures BodiesKept(PackHunks(maxBytes, st, f, hunks))
  {
    hide BodiesKept, PackHunk;
    if hunks != [] {
      PackHunksKeepBodies(maxBytes, st, f, hunks[..|hunks| - 1]);
      PackHunkKeepsBodies(maxBytes, PackHunks(maxBytes, st, f, hunks[..|hunks| - 1]), f, hunks[|hunks| - 1]);
    }
  }

  lemma {:induction false} PackFilesKeepBodies(maxBytes: nat, omissions: seq<Omission>, files: seq<FileDiff>)
    ensures BodiesKept(PackFiles(maxBytes, PackStart(omissions), files))
  {
    if files != [] {
      var front, f := files[..|files| - 1], files[|files| - 1];
      PackFilesKeepBodies(maxBytes, omissions, front);
      var st := PackFiles(maxBytes, PackStart(omissions), front);
      assert BodiesKept(st.(headerIncluded := false));
      PackHunksKeepBodies(maxBytes, st.(headerIncluded := false), f, f.hunks);
    }
  }

  lemma FileBodiesOffered(f: FileDiff)
    ensures FateBodies(OfferedIn(f)) == FileBodies(f)
  {
    AllPlacedAre(f, f.hunks);
  }

  lemma {:induction false} AllPlacedAre(f: FileDiff, hunks: seq<Hunk>)
    ensures AllPlaced(f, hunks) == seq(|hunks|, i requires 0 <= i < |hunks| => Placed(f, hunks[i]))
  {
    if hunks != [] {
      AllPlacedAre(f, hunks[..|hunks| - 1]);
    }
  }

  lemma NoText()
    ensures TextBodies([]) == []
  {
  }

  lemma {:induction false} OfferedBodies(files: seq<FileDiff>)
    ensures FateBodies(Offered(files)) == TextBodies(files)
  {
    hide FileBodies, OfferedIn, Flat;
    if files != [] {
      var front, f := files[..|files| - 1], files[|files| - 1];
      OfferedBodies(front);
      FileBodiesOffered(f);
      var parts := seq(|front|, i requires 0 <= i < |front| => FileBodies(front[i]));
      assert seq(|files|, i requires 0 <= i < |files| => FileBodies(files[i])) == parts + [FileBodies(f)];
      FlatSnoc(parts, FileBodies(f));
      assert FateBodies(Offered(front) + OfferedIn(f)) == FateBodies(Offered(front)) + FateBodies(OfferedIn(f));
    } else {
      NoText();
    }
  }

  // ----- Where headers stand -----

  /** A header stands right before a hunk of its file, with nothing of that file before; and the header of a
      hunk's file stands somewhere before the hunk. */
  predicate HeadsWell(all: seq<Piece>, k: nat)
    requires k < |all|
  {
    match all[k]
    case Header(f) =>
      && k + 1 < |all| && all[k + 1].Body? && all[k + 1].file == f
      && forall j :: 0 <= j < k ==> all[j].file.path != f.path
    case Body(f, _) => Header(f) in all[..k]
  }

  /** The header of a file is written once: right before the first of its hunks that is kept. */
  predicate Headed(all: seq<Piece>) {
    forall k :: 0 <= k < |all| ==> HeadsWell(all, k)
  }

  /** While the packer is in file `f`, having met the files with the given paths. */
  ghost predicate Heading(st: PackState, f: FileDiff, paths: set<string>) {
    var all := AllPieces(st);
    && Headed(all)
    && (forall k :: 0 <= k < |all| ==> all[k].file.path in paths)
    && (if st.headerIncluded then Header(f) in all
        else forall k :: 0 <= k < |all| ==> all[k].file.path != f.path)
  }

  lemma HeadsOn(all: seq<Piece>, more: seq<Piece>, k: nat)
    requires all <= more && k < |all| && HeadsWell(all, k)
    ensures HeadsWell(more, k)
  {
    assert more[..k] == all[..k] && more[k] == all[k];
    assert k + 1 < |all| ==> more[k + 1] == all[k + 1];
    assert forall j :: 0 <= j < k ==> more[j] == all[j];
  }

  lemma HeadedMore(all: seq<Piece>, more: seq<Piece>)
    requires Headed(all) && all <= more
    requires forall k :: |all| <= k < |more| ==> HeadsWell(more, k)
    ensures Headed(more)
  {
    hide HeadsWell;
    forall k | 0 <= k < |all|
      ensures HeadsWell(more, k)
    {
      HeadsOn(all, more, k);
    }
  }

  lemma HeadedBody(all: seq<Piece>, f: FileDiff, h: Hunk)
    requires Headed(all) && Header(f) in all
    ensures Headed(all + [Body(f, h)])
  {
    hide Headed;
    var more := all + [Body(f, h)];
    assert more[..|all|] == all;
    HeadedMore(all, more);
  }

  lemma HeadedHeader(all: seq<Piece>, f: FileDiff, h: Hunk)
    requires Headed(all) && forall k :: 0 <= k < |all| ==> all[k].file.path != f.path
    ensures Headed(all + [Header(f)] + [Body(f, h)])
  {
    hide Headed;
    var more := all + [Header(f)] + [Body(f, h)];
    assert more[..|all| + 1] == all + [Header(f)];
    assert more[..|all| + 1][|all|] == Header(f);
    assert forall j :: 0 <= j < |all| ==> more[j] == all[j];
    HeadedMore(all, more);
  }

  lemma SeenIsThere(st: PackState, f: FileDiff)
    requires Seen(st.cur, f.path)
    ensures exists k :: 0 <= k < |AllPieces(st)| && AllPieces(st)[k].file.path == f.path
  {
    var i := FilesWithin(st.cur.pieces, f.path);
    hide Flat;
    assert AllPieces(st)[|Flat(PartsOf(st.done))| + i] == st.cur.pieces[i];
  }

  lemma {:induction false} FilesWithin(pieces: seq<Piece>, path: string) returns (i: nat)
    requires path in FilesOf(pieces)
    ensures i < |pieces| && pieces[i].file.path == path
  {
    var n := |pieces| - 1;
    if path in FilesOf(pieces[..n]) {
      i := FilesWithin(pieces[..n], path);
    } else {
      i := n;
    }
  }

  lemma PlaceHeads(st: PackState, f: FileDiff, h: Hunk, paths: set<string>)
    requires Heading(st, f, paths) && f.path in paths
    ensures Heading(Place(st, f, h), f, paths)
  {
    hide Seen;
    var all, s := AllPieces(st), Place(st, f, h);
    PlacePieces(st, f, h);
    if Seen(st.cur, f.path) {
      SeenIsThere(st, f);
    }
    assert NeedsHeader(st, f) <==> !st.headerIncluded;
    hide AllPieces, NeedsHeader;
    if st.headerIncluded {
      HeadedBody(all, f, h);
      hide Headed;
      assert AllPieces(s) == all + [Body(f, h)];
    } else {
      HeadedHeader(all, f, h);
      hide Headed;
      assert AllPieces(s)[|all|] == Header(f);
    }
  }

  lemma PackHunkHeads(maxBytes: nat, st: PackState, f: FileDiff, h: Hunk, paths: set<string>)
    requires Heading(st, f, paths) && f.path in paths
    ensures Heading(PackHunk(maxBytes, st, f, h), f, paths)
  {
    FinishPieces(st);
    assert Heading(FinishWindow(st), f, paths);
    var next, cost, full := FinishWindow(st), Cost(st, f, h), |HeaderText(f)| + |HunkText(h)|;
    RejectHeads(st, f, h, cost, maxBytes, paths);
    RejectHeads(next, f, h, full, maxBytes, paths);
    hide Heading, Place, Reject, FinishWindow, HeaderText, HunkText, Size, Cost;
    PlaceHeads(st, f, h, paths);
    PlaceHeads(next, f, h, paths);
  }

  lemma RejectHeads(st: PackState, f: FileDiff, h: Hunk, cost: nat, maxBytes: nat, paths: set<string>)
    requires Heading(st, f, paths)
    ensures Heading(Reject(st, f, h, cost, maxBytes), f, paths)
  {
    hide OversizedReason, Headed;
    assert AllPieces(Reject(st, f, h, cost, maxBytes)) == AllPieces(st);
  }

  lemma {:induction false} PackHunksHead(maxBytes: nat, st: PackState, f: FileDiff, hunks: seq<Hunk>,
      paths: set<string>)
    requires Heading(st, f, paths) && f.path in paths
    ensures Heading(PackHunks(maxBytes, st, f, hunks), f, paths)
  {
    hide PackHunk, Heading;
    if hunks != [] {
      PackHunksHead(maxBytes, st, f, hunks[..|hunks| - 1], paths);
      PackHunkHeads(maxBytes, PackHunks(maxBytes, st, f, hunks[..|hunks| - 1]), f, hunks[|hunks| - 1], paths);
    }
  }

  lemma {:induction false} PackFilesHead(maxBytes: nat, omissions: seq<Omission>, files: seq<FileDiff>)
    requires R.DistinctPaths(files)
    ensures var all := AllPieces(PackFiles(maxBytes, PackStart(omissions), files));
      Headed(all) && forall k :: 0 <= k < |all| ==> all[k].file.path in R.Paths(files)
  {
    if files == [] {
      assert AllPieces(PackStart(omissions)) == [];
    } else {
      hide Headed;
      var front, f := files[..|files| - 1], files[|files| - 1];
      PackFilesHead(maxBytes, omissions, front);
      var st := PackFiles(maxBytes, PackStart(omissions), front);
      assert f.path in R.Paths(files) && R.Paths(front) <= R.Paths(files) && f.path !in R.Paths(front);
      assert AllPieces(st.(headerIncluded := false)) == AllPieces(st);
      assert Heading(st.(headerIncluded := false), f, R.Paths(files));
      PackHunksHead(maxBytes, st.(headerIncluded := false), f, f.hunks, R.Paths(files));
    }
  }

  // ----- The windows returned -----

  /** The text of a window is the whole file headers and whole hunks of its pieces, line by line; and it
      lists their files and hunks in that order. */
  ghost predicate Tells(w: DiffWindow, pieces: seq<Piece>) {
    && Split(w.content) == LinesIn(pieces) + [""]
    && w.files == PathsIn(pieces)
    && AreHunks(w.hunks, BodiesIn(pieces))
  }

  ghost predicate WindowsTell(inv: ChangeInventory, maxBytes: nat, windows: seq<DiffWindow>,
      parts: seq<seq<Piece>>)
  {
    && |windows| == |parts| > 0
    && forall i :: 0 <= i < |windows| ==>
      && windows[i].index == i
      && windows[i].byteCount == |windows[i].content| <= maxBytes
      && (windows[i].truncated <==> inv.truncated || |windows| > 1 || windows[i].omissions != [])
      && Tells(windows[i], parts[i])
  }

  function TextSize(p: Piece): nat {
    |Terminated(LinesOf(p))|
  }

  /** The windows hold, in order, all hunks of files with text but those dropped; a hunk dropped does not fit
      into a window with its file header, and a hunk kept fits alone. */
  ghost predicate KeepsAll(inv: ChangeInventory, maxBytes: nat, parts: seq<seq<Piece>>, kept: seq<bool>) {
    var all := TextBodies(inv.files);
    && |kept| == |all| && BodiesIn(Flat(parts)) == Selected(all, kept)
    && forall i :: 0 <= i < |all| ==>
      if kept[i] then TextSize(all[i]) <= maxBytes else TextSize(Header(all[i].file)) + TextSize(all[i]) > maxBytes
  }

  /** What parsing the text of a window again gives: its hunk headers in order, and its added lines. */
  ghost predicate ReadsBack(w: DiffWindow, pieces: seq<Piece>, again: ChangeInventory) {
    && R.FileHunkHeaders(again.files) == R.HunkHeaders(w.hunks)
    && forall p, l :: L.AddedIn(again.files, p, l) <==> AddedByPiece(pieces, p, l)
  }

  ghost predicate AddedByPiece(pieces: seq<Piece>, path: string, l: int) {
    exists i :: 0 <= i < |pieces| && pieces[i].Body? && pieces[i].file.path == path && l in pieces[i].hunk.addedLines
  }

  ghost predicate AllReadBack(windows: seq<DiffWindow>, parts: seq<seq<Piece>>)
    requires |windows| == |parts|
  {
    forall i, again :: 0 <= i < |windows| && Readable(windows[i].content, again) ==>
      ReadsBack(windows[i], parts[i], ParseSpec(windows[i].content, again))
  }

  /** The text starts with a file header and is parsed within the caps. */
  ghost predicate Readable(content: string, again: ParseOptions) {
    HasPrefix(Split(content)[0], "diff --git ") && !ParseSpec(content, again).truncated
  }

  /** What the windows of an inventory are. */
  ghost predicate LaidOut(inv: ChangeInventory, maxBytes: nat, windows: seq<DiffWindow>) {
    exists parts :: LaidOutAs(inv, maxBytes, windows, parts)
  }

  ghost predicate LaidOutAs(inv: ChangeInventory, maxBytes: nat, windows: seq<DiffWindow>, parts: seq<seq<Piece>>) {
    && WindowsTell(inv, maxBytes, windows, parts)
    && (exists kept :: KeepsAll(inv, maxBytes, parts, kept))
    && (R.DistinctPaths(inv.files) ==>
          && Headed(Flat(parts))
          && (R.WellFiles(inv.files) ==> AllReadBack(windows, parts)))
  }

  lemma {:induction false} PiecesMerged(pieces: seq<Piece>)
    ensures forall p, l :: l in E.LinesOf(R.MergePieces(pieces), p) <==> AddedByPiece(pieces, p, l)
  {
    if pieces != [] {
      var front, last := pieces[..|pieces| - 1], pieces[|pieces| - 1];
      PiecesMerged(front);
      forall p, l
        ensures AddedByPiece(pieces, p, l) <==>
          AddedByPiece(front, p, l) || (last.Body? && last.file.path == p && l in last.hunk.addedLines)
      {
        assert pieces[|front|] == last && forall i :: 0 <= i < |front| ==> pieces[i] == front[i];
      }
      hide AddedByPiece;
    }
  }

  lemma SizesAre(f: FileDiff, h: Hunk)
    ensures TextSize(Header(f)) == |HeaderText(f)| && TextSize(Body(f, h)) == |HunkText(h)|
  {
    LinesAre(Header(f));
    R.BodyText(h);
    hide HunkText, Terminated;
  }

  lemma WindowTells(inv: ChangeInventory, count: nat, index: nat, d: Draft)
    ensures Tells(WindowOf(inv, count, index, d), d.pieces)
  {
    InPieces(d.pieces);
    R.RenderLines(d.pieces);
    R.SplitTerminated(LinesIn(d.pieces));
    hide Render, LinesIn, PathsIn, BodiesIn, Split;
  }

  lemma DraftsPieces(inv: ChangeInventory, maxBytes: nat)
    ensures Flat(PartsOf(Drafts(inv, maxBytes))) == AllPieces(Pack(inv, maxBytes))
  {
    hide Pack;
    var st := Pack(inv, maxBytes);
    FinishPieces(st);
    if FinishWindow(st).done == [] {
      assert st.cur.pieces == [] && PartsOf([st.cur]) == [[]];
    }
  }

  lemma DraftsKeepAll(inv: ChangeInventory, maxBytes: nat)
    ensures exists kept :: KeepsAll(inv, maxBytes, PartsOf(Drafts(inv, maxBytes)), kept)
  {
    var st := Pack(inv, maxBytes);
    WindowsSound(inv, maxBytes);
    PackFilesKeepBodies(maxBytes, inv.omissions, inv.files);
    OfferedBodies(inv.files);
    DraftsPieces(inv, maxBytes);
    assert BodiesKept(st);
    hide Pack, PackFiles, Drafts, Offered, BodiesIn, Selected, TextBodies, HeaderText, HunkText, TextSize;
    assert FateBodies(st.fates) == FateBodies(Offered(inv.files));
    forall i | 0 <= i < |st.fates|
      ensures var all := FateBodies(st.fates);
        if FatesKept(st.fates)[i] then TextSize(all[i]) <= maxBytes
        else TextSize(Header(all[i].file)) + TextSize(all[i]) > maxBytes
    {
      SizesAre(st.fates[i].file, st.fates[i].hunk);
      assert st.fates[i] in st.fates && FateJust(maxBytes, st.fates[i]);
    }
    assert KeepsAll(inv, maxBytes, PartsOf(Drafts(inv, maxBytes)), FatesKept(st.fates));
  }

  lemma DraftReadsBack(inv: ChangeInventory, maxBytes: nat, count: nat, i: nat, again: ParseOptions)
    requires R.WellFiles(inv.files) && R.DistinctPaths(inv.files) && i < |Drafts(inv, maxBytes)|
    requires Readable(Render(Drafts(inv, maxBytes)[i].pieces), again)
    ensures var d := Drafts(inv, maxBytes)[i];
      ReadsBack(WindowOf(inv, count, i, d), d.pieces, ParseSpec(Render(d.pieces), again))
  {
    var d := Drafts(inv, maxBytes)[i];
    WindowTells(inv, count, i, d);
    R.DraftBodiesWell(inv, maxBytes, i);
    hide ParseSpec, Drafts, R.WellFiles;
    StartsAtHeader(d.pieces);
    R.WindowReadsBack(inv, maxBytes, i, again);
    PiecesMerged(d.pieces);
    L.FilesMerged(ParseSpec(Render(d.pieces), again).files);
    hide R.MergePieces, A.MergeFiles, AddedByPiece, L.AddedIn, Render, Split;
  }

  lemma FirstLine(p: Piece, rest: seq<Piece>)
    ensures LinesIn([p] + rest) != [] && LinesIn([p] + rest)[0] == LinesOf(p)[0]
  {
    var all := [p] + rest;
    var parts := seq(|all|, i requires 0 <= i < |all| => LinesOf(all[i]));
    assert Flat(parts) == LinesOf(p) + Flat(parts[1..]);
  }

  lemma FirstLineAt(pieces: seq<Piece>)
    requires R.WellBodies(pieces)
    ensures pieces == [] ==> LinesIn(pieces) == []
    ensures pieces != [] && pieces[0].Body? ==> LinesIn(pieces) != [] && HasPrefix(LinesIn(pieces)[0], "@@")
  {
    if pieces != [] {
      assert [pieces[0]] + pieces[1..] == pieces;
      FirstLine(pieces[0], pieces[1..]);
      if pieces[0].Body? {
        R.HeaderStartsWithAt(pieces[0].hunk.header);
      }
    }
  }

  lemma NoFileLine(line: string)
    ensures line == "" || HasPrefix(line, "@@") ==> !HasPrefix(line, "diff --git ")
  {
    assert HasPrefix(line, "@@") ==> line[0] == '@';
  }

  lemma StartsAtHeader(pieces: seq<Piece>)
    requires R.WellBodies(pieces) && HasPrefix((LinesIn(pieces) + [""])[0], "diff --git ")
    ensures pieces != [] && pieces[0].Header?
  {
    FirstLineAt(pieces);
    NoFileLine((LinesIn(pieces) + [""])[0]);
    hide LinesIn, HasPrefix;
  }

  lemma DraftsHeaded(inv: ChangeInventory, maxBytes: nat)
    requires R.DistinctPaths(inv.files)
    ensures Headed(Flat(PartsOf(Drafts(inv, maxBytes))))
  {
    hide Flat, PartsOf, Drafts, Headed;
    DraftsPieces(inv, maxBytes);
    PackFilesHead(maxBytes, inv.omissions, inv.files);
  }

  lemma WindowsLaidOut(inv: ChangeInventory, maxBytes: nat, windows: seq<DiffWindow>)
    requires var ds := Drafts(inv, maxBytes);
      |windows| == |ds| && forall i :: 0 <= i < |ds| ==> windows[i] == WindowOf(inv, |ds|, i, ds[i])
    ensures LaidOut(inv, maxBytes, windows)
  {
    var ds := Drafts(inv, maxBytes);
    var parts := PartsOf(ds);
    WindowsSound(inv, maxBytes);
    DraftsKeepAll(inv, maxBytes);
    hide Drafts, Pack, Render, HunksOf, FilesOf, Tells, KeepsAll, R.WellFiles, R.DistinctPaths, ParseSpec,
      Readable, ReadsBack, Headed, Flat;
    forall i | 0 <= i < |ds|
      ensures Tells(windows[i], parts[i]) && |windows[i].content| <= maxBytes
    {
      WindowTells(inv, |ds|, i, ds[i]);
      assert ds[i] in ds;
    }
    assert WindowsTell(inv, maxBytes, windows, parts);
    hide WindowsTell;
    if R.DistinctPaths(inv.files) {
      DraftsHeaded(inv, maxBytes);
      if R.WellFiles(inv.files) {
        forall i, again | 0 <= i < |windows| && Readable(windows[i].content, again)
          ensures ReadsBack(windows[i], parts[i], ParseSpec(windows[i].content, again))
        {
          DraftReadsBack(inv, maxBytes, |ds|, i, again);
        }
      }
    }
    assert LaidOutAs(inv, maxBytes, windows, parts);
  }
}
