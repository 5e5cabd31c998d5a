/** pkg/diff/diff.go, Windows: packs whole hunks into windows under a byte budget, here as lists of pieces
    and the decisions on them. */
module Pieces {
  import opened Text
  import opened Diff

  // ----- Pieces of a window -----

  /** The header written before a file's first hunk. */
  function HeaderLines(f: FileDiff): seq<Line> {
    if f.oldPath != "" then
      ["diff --git a/" + f.oldPath + " b/" + f.path, "rename from " + f.oldPath, "rename to " + f.path,
       "--- a/" + f.oldPath, "+++ b/" + f.path]
    else
      ["diff --git a/" + f.path + " b/" + f.path, "--- a/" + f.path, "+++ b/" + f.path]
  }

  function HeaderText(f: FileDiff): string {
    Terminated(HeaderLines(f))
  }

  function HunkText(h: Hunk): (s: string)
    ensures s != ""
  {
    h.header + "\n" + Join(h.lines) + "\n"
  }

  datatype Piece = Header(file: FileDiff) | Body(file: FileDiff, hunk: Hunk)

  function PieceText(p: Piece): (s: string)
    ensures s != ""
  {
    match p
    case Header(f) => HeaderText(f)
    case Body(_, h) => HunkText(h)
  }

  function Render(pieces: seq<Piece>): string {
    if pieces == [] then "" else Render(pieces[..|pieces| - 1]) + PieceText(pieces[|pieces| - 1])
  }

  lemma RenderSnoc(pieces: seq<Piece>, p: Piece)
    ensures Render(pieces + [p]) == Render(pieces) + PieceText(p)
  {
    assert (pieces + [p])[..|pieces|] == pieces;
  }

  function HunksOf(pieces: seq<Piece>): seq<Hunk> {
    if pieces == [] then []
    else
      var p := pieces[|pieces| - 1];
      HunksOf(pieces[..|pieces| - 1]) + if p.Body? then [p.hunk] else []
  }

  function FilesOf(pieces: seq<Piece>): seq<string> {
    if pieces == [] then []
    else
      var p := pieces[|pieces| - 1];
      FilesOf(pieces[..|pieces| - 1]) + if p.Header? then [p.file.path] else []
  }

  lemma PiecesSnoc(pieces: seq<Piece>, p: Piece)
    ensures HunksOf(pieces + [p]) == HunksOf(pieces) + if p.Body? then [p.hunk] else []
    ensures FilesOf(pieces + [p]) == FilesOf(pieces) + if p.Header? then [p.file.path] else []
  {
    assert (pieces + [p])[..|pieces|] == pieces;
  }

  // ----- Packing -----

  datatype Draft = Draft(pieces: seq<Piece>, omissions: seq<Omission>)

  /** What became of a hunk that was offered to the packer. */
  datatype Fate = Placed(file: FileDiff, hunk: Hunk) | Rejected(file: FileDiff, hunk: Hunk)

  /** The windows finished so far, the one being filled, whether the header of the current file has been
      written, and the fate of every hunk so far. */
  datatype PackState = PackState(done: seq<Draft>, cur: Draft, headerIncluded: bool, fates: seq<Fate>)

  predicate Seen(d: Draft, path: string) {
    path in FilesOf(d.pieces)
  }

  function Size(d: Draft): nat {
    |Render(d.pieces)|
  }

  function FinishWindow(st: PackState): PackState {
    if st.cur.pieces == [] then st else st.(done := st.done + [st.cur], cur := Draft([], []))
  }

  function OmitHere(st: PackState, om: Omission): PackState {
    st.(cur := st.cur.(omissions := st.cur.omissions + [om]))
  }

  function OversizedReason(id: string, cost: nat, maxBytes: nat): string {
    "hunk " + id + " exceeds window byte budget (" + Itoa(cost) + " > " + Itoa(maxBytes) + ")"
  }

  function Reject(st: PackState, f: FileDiff, h: Hunk, cost: nat, maxBytes: nat): PackState {
    OmitHere(st, Omission(f.path, h.id, OversizedReason(h.id, cost, maxBytes)))
      .(fates := st.fates + [Rejected(f, h)])
  }

  predicate NeedsHeader(st: PackState, f: FileDiff) {
    !st.headerIncluded && !Seen(st.cur, f.path)
  }

  function Place(st: PackState, f: FileDiff, h: Hunk): PackState {
    var s := if NeedsHeader(st, f)
      then st.(cur := st.cur.(pieces := st.cur.pieces + [Header(f)]), headerIncluded := true) else st;
    s.(cur := s.cur.(pieces := s.cur.pieces + [Body(f, h)]), fates := s.fates + [Placed(f, h)])
  }

  function Cost(st: PackState, f: FileDiff, h: Hunk): nat {
    (if NeedsHeader(st, f) then |HeaderText(f)| else 0) + |HunkText(h)|
  }

  function PackHunk(maxBytes: nat, st: PackState, f: FileDiff, h: Hunk): PackState {
    var cost := Cost(st, f, h);
    if cost > maxBytes && st.cur.pieces == [] then Reject(st, f, h, cost, maxBytes)
    else if Size(st.cur) + cost > maxBytes && st.cur.pieces != [] then
      var next := FinishWindow(st);
      var full := |HeaderText(f)| + |HunkText(h)|;
      if full > maxBytes then Reject(next, f, h, full, maxBytes) else Place(next, f, h)
    else Place(st, f, h)
  }

  function PackHunks(maxBytes: nat, st: PackState, f: FileDiff, hunks: seq<Hunk>): PackState {
    if hunks == [] then st
    else PackHunk(maxBytes, PackHunks(maxBytes, st, f, hunks[..|hunks| - 1]), f, hunks[|hunks| - 1])
  }

  predicate HasText(f: FileDiff) {
    !f.isBinary && !f.isModeOnly
  }

  function PackFile(maxBytes: nat, st: PackState, f: FileDiff): PackState {
    if f.isBinary then OmitHere(st, Omission(f.path, "", "binary file"))
    else if f.isModeOnly then OmitHere(st, Omission(f.path, "", "mode change only"))
    else if f.hunks == [] then st
    else PackHunks(maxBytes, st.(headerIncluded := false), f, f.hunks)
  }

  function PackFiles(maxBytes: nat, st: PackState, files: seq<FileDiff>): PackState {
    if files == [] then st
    else PackFile(maxBytes, PackFiles(maxBytes, st, files[..|files| - 1]), files[|files| - 1])
  }

  function PackStart(omissions: seq<Omission>): PackState {
    PackState([], Draft([], omissions), false, [])
  }

  /** The packer's state after the last file, before its last window is finished. */
  function Pack(inv: ChangeInventory, maxBytes: nat): PackState {
    PackFiles(maxBytes, PackStart(inv.omissions), inv.files)
  }

  function Budget(maxBytes: int): (n: nat)
    ensures n > 0
  {
    if maxBytes <= 0 then DEFAULT_MAX_BYTES else maxBytes
  }

  /** The windows returned: at least one, even when nothing was placed. */
  function Drafts(inv: ChangeInventory, maxBytes: nat): (ds: seq<Draft>)
    ensures ds != []
  {
    var st := FinishWindow(Pack(inv, maxBytes));
    if st.done == [] then [st.cur] else st.done
  }

  predicate Flagged(inv: ChangeInventory, count: nat, d: Draft) {
    inv.truncated || count > 1 || d.omissions != []
  }

  lemma RenderEmpty(pieces: seq<Piece>)
    ensures Render(pieces) == "" <==> pieces == []
    ensures pieces == [] ==> HunksOf(pieces) == [] && FilesOf(pieces) == []
  {
  }

  lemma PackHunksSnoc(maxBytes: nat, st: PackState, f: FileDiff, hunks: seq<Hunk>, j: nat)
    requires j < |hunks|
    ensures PackHunks(maxBytes, st, f, hunks[..j + 1])
         == PackHunk(maxBytes, PackHunks(maxBytes, st, f, hunks[..j]), f, hunks[j])
  {
    hide PackHunk;
    assert hunks[..j + 1][..j] == hunks[..j];
  }

  lemma PlaceBuilds(st: PackState, f: FileDiff, h: Hunk)
    ensures var d, d' := st.cur.pieces, Place(st, f, h).cur.pieces;
      && Render(d') == Render(d) + (if NeedsHeader(st, f) then HeaderText(f) else "") + HunkText(h)
      && HunksOf(d') == HunksOf(d) + [h]
      && FilesOf(d') == FilesOf(d) + if NeedsHeader(st, f) then [f.path] else []
  {
    hide HeaderText, HunkText;
    var d := st.cur.pieces;
    var mid := if NeedsHeader(st, f) then d + [Header(f)] else d;
    if NeedsHeader(st, f) {
      RenderSnoc(d, Header(f));
      PiecesSnoc(d, Header(f));
    }
    RenderSnoc(mid, Body(f, h));
    PiecesSnoc(mid, Body(f, h));
  }

  // ----- Windows -----

  datatype DiffWindow = DiffWindow(
    index: nat,
    hunks: seq<Hunk>,
    files: seq<string>,
    content: string,
    byteCount: nat,
    truncated: bool,
    omissions: seq<Omission>)

  function WindowOf(inv: ChangeInventory, count: nat, index: nat, d: Draft): DiffWindow {
    DiffWindow(index, HunksOf(d.pieces), FilesOf(d.pieces), Render(d.pieces), |Render(d.pieces)|,
               Flagged(inv, count, d), d.omissions)
  }
}
