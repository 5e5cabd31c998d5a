/** pkg/diff/diff.go, Windows: the packer with its string builder and byte counts. */
module Windows {
  import opened Text
  import opened Diff
  import opened Pieces
  import opened WindowLaws

  /** The string builder and the lists the loops of `Windows` update. */
  datatype Builder = Builder(
    windows: seq<DiffWindow>,
    hunks: seq<Hunk>,
    files: seq<string>,
    content: string,
    omissions: seq<Omission>,
    headerIncluded: bool)

  ghost predicate Builds(b: Builder, st: PackState) {
    && |b.windows| == |st.done|
    && (forall i :: 0 <= i < |st.done| ==>
      b.windows[i] == WindowOf(EMPTY_INVENTORY, 0, i, st.done[i]).(truncated := false))
    && b.hunks == HunksOf(st.cur.pieces)
    && b.files == FilesOf(st.cur.pieces)
    && b.content == Render(st.cur.pieces)
    && b.omissions == st.cur.omissions
    && b.headerIncluded == st.headerIncluded
  }

  method CloseWindow(b: Builder, ghost st: PackState) returns (r: Builder)
    requires Builds(b, st)
    ensures Builds(r, FinishWindow(st))
  {
    RenderEmpty(st.cur.pieces);
    if b.hunks != [] || b.content != "" {
      var w := DiffWindow(|b.windows|, b.hunks, b.files, b.content, |b.content|, false, b.omissions);
      r := b.(windows := b.windows + [w], hunks := [], files := [], content := "", omissions := []);
    } else {
      r := b;
    }
  }

  method PackOneHunk(maxBytes: nat, b: Builder, f: FileDiff, h: Hunk, ghost st: PackState) returns (r: Builder)
    requires Builds(b, st)
    ensures Builds(r, PackHunk(maxBytes, st, f, h))
  {
    hide HeaderText, HunkText, OversizedReason, Render, FilesOf, HunksOf;
    RenderEmpty(st.cur.pieces);
    var fileHeader, hunkText := HeaderText(f), HunkText(h);
    var cost := (if !b.headerIncluded && f.path !in b.files then |fileHeader| else 0) + |hunkText|;
    if cost > maxBytes && b.content == "" {
      return b.(omissions := b.omissions + [Omission(f.path, h.id, OversizedReason(h.id, cost, maxBytes))]);
    }
    r := b;
    ghost var mid := st;
    if |b.content| + cost > maxBytes && b.content != "" {
      r := CloseWindow(b, st);
      mid := FinishWindow(st);
      cost := |fileHeader| + |hunkText|;
      if cost > maxBytes {
        return r.(omissions := r.omissions + [Omission(f.path, h.id, OversizedReason(h.id, cost, maxBytes))]);
      }
    }
    PlaceBuilds(mid, f, h);
    if !r.headerIncluded && f.path !in r.files {
      r := r.(content := r.content + fileHeader, headerIncluded := true, files := r.files + [f.path]);
    }
    r := r.(content := r.content + hunkText, hunks := r.hunks + [h]);
  }

  method Windows(inv: ChangeInventory, budget: int) returns (windows: seq<DiffWindow>)
    ensures var ds := Drafts(inv, Budget(budget));
      && |windows| == |ds|
      && forall i :: 0 <= i < |ds| ==> windows[i] == WindowOf(inv, |ds|, i, ds[i])
    ensures LaidOut(inv, if budget <= 0 then DEFAULT_MAX_BYTES else budget, windows)
  {
    var maxBytes := Budget(budget);
    RenderEmpty([]);
    hide LaidOut, PackFile, Render, HunksOf, FilesOf;
    var b := Builder([], [], [], "", inv.omissions, false);
    ghost var st := PackStart(inv.omissions);
    for i := 0 to |inv.files|
      invariant st == PackFiles(maxBytes, PackStart(inv.omissions), inv.files[..i])
      invariant Builds(b, st)
    {
      assert inv.files[..i + 1][..i] == inv.files[..i];
      b := PackOneFile(maxBytes, b, inv.files[i], st);
      st := PackFile(maxBytes, st, inv.files[i]);
    }
    assert inv.files[..|inv.files|] == inv.files;
    b := CloseWindow(b, st);
    windows := if b.windows == [] then [DiffWindow(0, [], [], "", 0, false, b.omissions)] else b.windows;
    ghost var ds := Drafts(inv, maxBytes);
    var total := |windows|;
    for i := 0 to total
      invariant |windows| == total == |ds|
      invariant forall j :: 0 <= j < total ==>
        windows[j] == WindowOf(inv, total, j, ds[j]).(truncated := j < i && Flagged(inv, total, ds[j]))
    {
      if inv.truncated || total > 1 || windows[i].omissions != [] || i < total - 1 {
        windows := windows[i := windows[i].(truncated := true)];
      }
    }
    WindowsLaidOut(inv, maxBytes, windows);
  }

  method PackOneFile(maxBytes: nat, b: Builder, f: FileDiff, ghost st: PackState) returns (r: Builder)
    requires Builds(b, st)
    ensures Builds(r, PackFile(maxBytes, st, f))
  {
    hide PackHunk;
    if f.isBinary {
      return b.(omissions := b.omissions + [Omission(f.path, "", "binary file")]);
    }
    if f.isModeOnly {
      return b.(omissions := b.omissions + [Omission(f.path, "", "mode change only")]);
    }
    if |f.hunks| == 0 {
      return b;
    }
    ghost var start := st.(headerIncluded := false);
    r := b.(headerIncluded := false);
    for j := 0 to |f.hunks|
      invariant Builds(r, PackHunks(maxBytes, start, f, f.hunks[..j]))
    {
      ghost var mid := PackHunks(maxBytes, start, f, f.hunks[..j]);
      PackHunksSnoc(maxBytes, start, f, f.hunks, j);
      r := PackOneHunk(maxBytes, r, f, f.hunks[j], mid);
    }
    assert f.hunks[..|f.hunks|] == f.hunks;
  }
}
